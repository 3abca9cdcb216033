/** What reaches the callback at the far end of a link, and what goes out again after an
    acknowledgement. */
module GossipDelivery {
  import opened Common
  import opened GossipNode
  import opened GossipRuns
  import opened GossipExact
  import opened GossipLink
  import opened GossipAcks

  // ---- The callback ----

  /** What the callback was given passed the duplicate test, in this order. */
  ghost predicate Ordered(log: seq<(Message, bool)>, delivered: seq<(Message, nat)>) {
    && (forall k :: 0 <= k < |delivered| ==> delivered[k].1 < |log| && log[delivered[k].1] == (delivered[k].0, true))
    && (forall j, k :: 0 <= j < k < |delivered| ==> delivered[j].1 < delivered[k].1)
  }

  /** What passed the duplicate test and was not turned away was given to the callback. */
  ghost predicate Complete(log: seq<(Message, bool)>, delivered: seq<(Message, nat)>) {
    forall i :: 0 <= i < |log| && log[i].1 ==> (log[i].0, i) in delivered
  }

  ghost predicate DeliveredOk(log: seq<(Message, bool)>, delivered: seq<(Message, nat)>) {
    Ordered(log, delivered) && Complete(log, delivered)
  }

  lemma DeliveredStep(x: Ends, s: Link, e: LinkEvent)
    requires DeliveredOk(s.log, s.delivered)
    ensures DeliveredOk(LinkStep(x, s, e).log, LinkStep(x, s, e).delivered)
  {
    hide Ordered, Complete;
    if e.Deliver? && e.m in s.channel {
      if !Accept(x.receiving, s.b.node, x.sender, e.m.q).1 {
        if Receive(x.receiving, s.b.node, x.sender, e.m.q, e.m.packet, e.reject).1.AckAndDeliver? {
          OrderedUp(s.log, s.delivered, e.m);
          CompleteUp(s.log, s.delivered, e.m);
        } else {
          TurnedAway(s.log, s.delivered, e.m);
        }
      }
    }
  }

  lemma OrderedUp(log: seq<(Message, bool)>, delivered: seq<(Message, nat)>, m: Message)
    requires Ordered(log, delivered)
    ensures Ordered(log + [(m, true)], delivered + [(m, |log|)])
  {}

  lemma CompleteUp(log: seq<(Message, bool)>, delivered: seq<(Message, nat)>, m: Message)
    requires Complete(log, delivered)
    ensures Complete(log + [(m, true)], delivered + [(m, |log|)])
  {
    var log', after := log + [(m, true)], delivered + [(m, |log|)];
    forall i | 0 <= i < |log'| && log'[i].1 ensures (log'[i].0, i) in after {
      if i == |log| { assert after[|delivered|] == (m, i); } else { assert (log[i].0, i) in delivered; }
    }
  }

  lemma TurnedAway(log: seq<(Message, bool)>, delivered: seq<(Message, nat)>, m: Message)
    requires DeliveredOk(log, delivered)
    ensures DeliveredOk(log + [(m, false)], delivered)
  {}

  lemma {:induction false} DeliveredInvariant(x: Ends, s: Link, trace: seq<LinkEvent>)
    requires Start(x, s)
    ensures DeliveredOk(LinkRun(x, s, trace).log, LinkRun(x, s, trace).delivered)
  {
    hide LinkStep, DeliveredOk;
    if trace == [] {
      NothingDelivered(s);
    } else {
      DeliveredInvariant(x, s, trace[..|trace| - 1]);
      DeliveredStep(x, LinkRun(x, s, trace[..|trace| - 1]), trace[|trace| - 1]);
    }
  }

  lemma NothingDelivered(s: Link)
    requires s.log == [] && s.delivered == []
    ensures DeliveredOk(s.log, s.delivered)
  {}

  /** The callback is given the same message twice only with `dedupWindow` other messages, pairwise
      different, accepted in between. */
  lemma CallbackTwiceFarApart(x: Ends, s: Link, trace: seq<LinkEvent>, j: nat, k: nat)
    requires Start(x, s) && j < k < |LinkRun(x, s, trace).delivered|
    requires LinkRun(x, s, trace).delivered[j].0 == LinkRun(x, s, trace).delivered[k].0
    ensures var t, w := LinkRun(x, s, trace), x.receiving.dedupWindow;
            var from, to := t.delivered[j].1, t.delivered[k].1;
            && 0 <= from < to - w && to <= |t.log|
            && (forall i :: to - w <= i < to ==> t.log[i].0 != t.delivered[k].0)
            && (forall i, i' :: to - w <= i < i' < to ==> t.log[i].0 != t.log[i'].0)
  {
    hide LinkRun, Start;
    DeliveredInvariant(x, s, trace);
    var t := LinkRun(x, s, trace);
    DeliveredTwiceFarApart(x, s, trace, t.delivered[j].1, t.delivered[k].1);
  }

  /** A message that arrives reaches the callback exactly when its number is not among the last
      `dedupWindow` accepted and it is not a route under quorum loss; it is acknowledged either way. */
  lemma ReachesCallbackIff(x: Ends, s: Link, trace: seq<LinkEvent>, m: Message, reject: bool)
    requires Start(x, s) && m in LinkRun(x, s, trace).channel
    ensures var t, u := LinkRun(x, s, trace), LinkRun(x, s, trace + [Deliver(m, reject)]);
            var h := HistoryOf(t.b, x.sender);
            var repeated := m.q in Last(h, x.receiving.dedupWindow);
            && u.delivered == t.delivered + (if !repeated && !(m.packet.Route? && reject) then [(m, |h|)] else [])
            && HistoryOf(u.b, x.sender) == h + (if repeated then [] else [m.q])
            && u.acks == t.acks + {m.q} && u.a == t.a && u.channel == t.channel
  {
    hide Shape, Counted, Retrying, Deduped, Spaced, Last, Start;
    assert (trace + [Deliver(m, reject)])[..|trace|] == trace;
    LinkInvariant(x, s, trace);
    var t := LinkRun(x, s, trace);
    HistoryHere(x.receiving, t.b, x.sender);
    DuplicateMeaning(x.receiving, t.b.node, t.b.history, x.sender, m.q);
  }

  // ---- After an acknowledgement ----

  /** Number q was issued to the receiver and is not pending any more. */
  ghost predicate Retired(x: Ends, n: Node, q: nat) {
    x.receiver in n.counters && q <= n.counters[x.receiver] && !Has(n, x.receiver, q)
  }

  lemma RetiredStep(x: Ends, s: Link, e: LinkEvent, q: nat)
    requires x.Valid() && SenderOk(x, s.a, s.channel) && Retired(x, s.a.node, q)
    ensures Retired(x, LinkStep(x, s, e).a.node, q)
  {
    hide Counted, Deduped, Retrying, Next;
    match e
    case AtSender(le) =>
      if Enabled(x.d, s.a, le) && Keeps(s.a, le, x.receiver) { RetiredNext(x, s.a, le, q); }
    case AckArrives(n) => RetiredNext(x, s.a, Ack(x.receiver, n), q);
    case AtReceiver(_) =>
    case Deliver(_, _) =>
  }

  lemma RetiredNext(x: Ends, a: Local, e: Event, q: nat)
    requires Shape(a.node) && Enabled(x.d, a, e) && Keeps(a, e, x.receiver) && x.receiver in a.node.peers
    requires Retired(x, a.node, q)
    ensures Retired(x, Next(x.sending, a, e).node, q)
  {
    if e.SendTo? && e.p == x.receiver {
      SendMeaning(x.sending, a.node, x.receiver, e.packet, a.clock, a.nextTag);
    } else {
      hide Shape, Next;
      OthersLeavePeer(x.sending, x.d, a, e, x.receiver);
    }
  }

  lemma AcknowledgedIsRetired(x: Ends, s: Link, trace: seq<LinkEvent>, q: nat)
    requires Start(x, s) && q in LinkRun(x, s, trace).acks
    ensures Retired(x, LinkRun(x, s, trace + [AckArrives(q)]).a.node, q)
  {
    hide Shape, Counted, Deduped, Retrying, HandleAck, Start;
    assert (trace + [AckArrives(q)])[..|trace|] == trace;
    LinkInvariant(x, s, trace);
    AcksInvariant(x, s, trace);
    var t := LinkRun(x, s, trace);
    var i :| 0 <= i < |t.log| && Numbers(t.log)[i] == q;
    assert t.log[i].0 in t.channel;
    AckRemoves(t.a.node, x.receiver, q);
  }

  lemma {:induction false} StaysRetired(x: Ends, s: Link, trace: seq<LinkEvent>, more: seq<LinkEvent>, q: nat)
    requires Start(x, s) && Retired(x, LinkRun(x, s, trace).a.node, q)
    ensures Retired(x, LinkRun(x, s, trace + more).a.node, q)
  {
    hide LinkStep, Retired, SenderOk, ReceiverOk;
    if more == [] {
      assert trace + more == trace;
    } else {
      var before := more[..|more| - 1];
      StaysRetired(x, s, trace, before, q);
      assert (trace + more)[..|trace + more| - 1] == trace + before;
      LinkInvariant(x, s, trace + before);
      RetiredStep(x, LinkRun(x, s, trace + before), more[|more| - 1], q);
    }
  }

  /** What a step of the sender transmits: the next number on a send, and on a retry pass the packets
      that are due and have retries left. */
  lemma TransmitsIff(x: Ends, s: Link, trace: seq<LinkEvent>, e: Event, m: Message)
    requires Start(x, s)
    ensures var a := LinkRun(x, s, trace).a;
            m in Transmitted(x, a, e) <==>
              || (&& e == SendTo(x.receiver, m.packet) && Enabled(x.d, a, e)
                  && m.q == if x.receiver in a.node.counters then a.node.counters[x.receiver] + 1 else 1)
              || (&& e == RetryPass(x.receiver) && Has(a.node, x.receiver, m.q)
                  && a.clock >= Entry(a.node, x.receiver, m.q).nextRetry
                  && Entry(a.node, x.receiver, m.q).retries < x.sending.maxRetries
                  && Entry(a.node, x.receiver, m.q).packet == m.packet)
  {
    hide Counted, Deduped, Retrying, Send, Start;
    LinkInvariant(x, s, trace);
    var a := LinkRun(x, s, trace).a;
    if e.SendTo? && Enabled(x.d, a, e) { SendMeaning(x.sending, a.node, e.p, e.packet, a.clock, a.nextTag); }
  }

  /** Once its acknowledgement has arrived, a packet is never transmitted again, whatever happens. */
  lemma NeverResent(x: Ends, s: Link, trace: seq<LinkEvent>, more: seq<LinkEvent>, q: nat, e: Event)
    requires Start(x, s) && q in LinkRun(x, s, trace).acks
    ensures var t := LinkRun(x, s, trace + [AckArrives(q)] + more);
            !Has(t.a.node, x.receiver, q) && forall m :: m in Transmitted(x, t.a, e) ==> m.q != q
  {
    hide LinkRun, Start, Transmitted;
    AcknowledgedIsRetired(x, s, trace, q);
    StaysRetired(x, s, trace + [AckArrives(q)], more, q);
    var t := LinkRun(x, s, trace + [AckArrives(q)] + more);
    forall m | m in Transmitted(x, t.a, e) ensures m.q != q {
      TransmitsIff(x, s, trace + [AckArrives(q)] + more, e, m);
    }
  }
}
