/** What an acknowledgement proves: the receiver accepted that very packet. */
module GossipAcks {
  import opened Common
  import opened GossipNode
  import opened GossipRuns
  import opened GossipLink

  /** Every acknowledged number was accepted. */
  ghost predicate AcksOk(log: seq<(Message, bool)>, acks: set<nat>) { forall q :: q in acks ==> q in Numbers(log) }

  lemma {:induction false} AcksInvariant(x: Ends, s: Link, trace: seq<LinkEvent>)
    requires Start(x, s)
    ensures AcksOk(LinkRun(x, s, trace).log, LinkRun(x, s, trace).acks)
  {
    hide LinkStep, AcksOk;
    if trace == [] {
      NoAcks(s);
    } else {
      var before := trace[..|trace| - 1];
      AcksInvariant(x, s, before);
      LinkInvariant(x, s, before);
      AcksStep(x, LinkRun(x, s, before), trace[|trace| - 1]);
    }
  }

  lemma NoAcks(s: Link)
    requires s.acks == {}
    ensures AcksOk(s.log, s.acks)
  {}

  lemma AcksStep(x: Ends, s: Link, e: LinkEvent)
    requires AcksOk(s.log, s.acks) && ReceiverOk(x, s.b, s.channel, s.log)
    ensures AcksOk(LinkStep(x, s, e).log, LinkStep(x, s, e).acks)
  {
    if e.Deliver? && e.m in s.channel {
      var m := e.m;
      DuplicateMeaning(x.receiving, s.b.node, s.b.history, x.sender, m.q);
      if Accept(x.receiving, s.b.node, x.sender, m.q).1 {
        InHistory(HistoryOf(s.b, x.sender), x.receiving.dedupWindow, m.q);
      } else {
        var up := Receive(x.receiving, s.b.node, x.sender, m.q, m.packet, e.reject).1.AckAndDeliver?;
        NumbersAppend(s.log, (m, up));
      }
    }
  }

  lemma InHistory(h: seq<nat>, w: nat, q: nat)
    requires q in Last(h, w)
    ensures q in h
  {}

  /** The receiver accepted this message. */
  ghost predicate Accepted(log: seq<(Message, bool)>, m: Message) { exists i :: 0 <= i < |log| && log[i].0 == m }

  /** A pending packet whose number is acknowledged was itself accepted by the receiver. */
  lemma AckMeansAccepted(x: Ends, s: Link, trace: seq<LinkEvent>, q: nat)
    requires Start(x, s)
    ensures var t := LinkRun(x, s, trace);
            q in t.acks && Has(t.a.node, x.receiver, q) ==>
              Accepted(t.log, Message(q, Entry(t.a.node, x.receiver, q).packet))
  {
    LinkInvariant(x, s, trace);
    AcksInvariant(x, s, trace);
    var t := LinkRun(x, s, trace);
    if q in t.acks && Has(t.a.node, x.receiver, q) { SameNumber(x, t, q); }
  }

  lemma SameNumber(x: Ends, t: Link, q: nat)
    requires SenderOk(x, t.a, t.channel) && ReceiverOk(x, t.b, t.channel, t.log)
    requires q in Numbers(t.log) && Has(t.a.node, x.receiver, q)
    ensures Accepted(t.log, Message(q, Entry(t.a.node, x.receiver, q).packet))
  {
    var i :| 0 <= i < |t.log| && Numbers(t.log)[i] == q;
    assert t.log[i].0 in t.channel && t.log[i].0.q == q;
    assert t.log[i].0 == Message(q, Entry(t.a.node, x.receiver, q).packet);
  }

  // ---- How a packet leaves the pending map ----

  /** Steps that take the packet with number q off the pending map of p. */
  ghost predicate Removes(c: Config, l: Local, e: Event, p: Addr, q: nat)
    requires Has(l.node, p, q)
  {
    || e == Ack(p, q) || e.ClearAcks?
    || (e == RetryPass(p) && l.clock >= Entry(l.node, p, q).nextRetry && Entry(l.node, p, q).retries >= c.maxRetries)
  }

  lemma StaysPending(c: Config, d: nat, l: Local, e: Event, p: Addr, q: nat)
    requires Shape(l.node) && Enabled(d, l, e) && Keeps(l, e, p) && p in l.node.peers
    requires Has(l.node, p, q) && !Removes(c, l, e, p, q)
    ensures Has(Next(c, l, e).node, p, q)
  {
    match e
    case SendTo(o, packet) => SendMeaning(c, l.node, o, packet, l.clock, l.nextTag);
    case RefreshPeers(statics, discovered) => RefreshKeepsPending(l.node, statics, discovered, p);
    case Packet(o, n, _, _) => AcceptKeepsPending(c, l.node, o, n);
    case Ack(o, n) => AckKeepsOthers(l.node, o, n, p, q);
    case RetryPass(_) =>
    case SweepEmpty =>
    case ClearAcks =>
    case Tick(_) =>
  }

  lemma AckKeepsOthers(n: Node, o: Addr, k: nat, p: Addr, q: nat)
    requires Has(n, p, q) && !(o == p && k == q)
    ensures Has(HandleAck(n, o, k), p, q)
  {
    if o == p && k in n.pending[p] { assert q in n.pending[p] - {k}; }
  }

  lemma AcceptKeepsPending(c: Config, n: Node, o: Addr, q: nat)
    ensures Accept(c, n, o, q).0.pending == n.pending
  {}

  lemma RefreshKeepsPending(n: Node, statics: seq<Addr>, discovered: seq<Addr>, p: Addr)
    requires p in Refresh(n, statics, discovered).peers && p in n.pending
    ensures p in Refresh(n, statics, discovered).pending && Refresh(n, statics, discovered).pending[p] == n.pending[p]
  {
    if discovered != [] {
      var next := NewPeers(statics, discovered);
      GoneMeaning(n.peers, next);
      CleanupPending(n, Gone(n.peers, next));
    }
  }

  /** Without forged acknowledgements, a packet leaves the pending map in three ways only: its
      acknowledgement arrives, and then the receiver has accepted that very packet; its retries are
      exhausted; or all pending packets are dropped. */
  lemma LeavesOnlyIfAccepted(x: Ends, s: Link, trace: seq<LinkEvent>, e: LinkEvent, q: nat)
    requires Start(x, s) && !(e.AtSender? && e.e.Ack? && e.e.p == x.receiver)
    requires var t := LinkRun(x, s, trace);
             Has(t.a.node, x.receiver, q) && !Has(LinkStep(x, t, e).a.node, x.receiver, q)
    ensures var t := LinkRun(x, s, trace);
            var entry := Entry(t.a.node, x.receiver, q);
            || (e == AckArrives(q) && Accepted(t.log, Message(q, entry.packet)))
            || (&& e == AtSender(RetryPass(x.receiver)) && t.a.clock >= entry.nextRetry
                && entry.retries == x.sending.maxRetries && t.a.sentTags[entry.tag] == 1 + x.sending.maxRetries)
            || e == AtSender(ClearAcks)
  {
    hide LinkStep, Shape, Counted, Deduped, OwnTags, TagsBounded;
    LinkInvariant(x, s, trace);
    AckMeansAccepted(x, s, trace, q);
    var t := LinkRun(x, s, trace);
    HowItLeft(x, t, e, q);
    assert EntryOk(x.sending, x.d, t.a, x.receiver, Entry(t.a.node, x.receiver, q));
  }

  lemma HowItLeft(x: Ends, t: Link, e: LinkEvent, q: nat)
    requires SenderOk(x, t.a, t.channel) && !(e.AtSender? && e.e.Ack? && e.e.p == x.receiver)
    requires Has(t.a.node, x.receiver, q) && !Has(LinkStep(x, t, e).a.node, x.receiver, q)
    ensures var entry := Entry(t.a.node, x.receiver, q);
            || (e == AckArrives(q) && q in t.acks)
            || (&& e == AtSender(RetryPass(x.receiver)) && t.a.clock >= entry.nextRetry
                && entry.retries >= x.sending.maxRetries)
            || e == AtSender(ClearAcks)
  {
    hide Next, Counted, Deduped, Retrying, Shape;
    match e
    case AtSender(le) =>
      if Enabled(x.d, t.a, le) && Keeps(t.a, le, x.receiver) && !Removes(x.sending, t.a, le, x.receiver, q) {
        StaysPending(x.sending, x.d, t.a, le, x.receiver, q);
      }
    case AckArrives(n) =>
      if n in t.acks && n != q { StaysPending(x.sending, x.d, t.a, Ack(x.receiver, n), x.receiver, q); }
    case AtReceiver(_) =>
    case Deliver(_, _) =>
  }
}
