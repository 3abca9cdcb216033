/** Two nodes and the channel between them. The channel keeps everything ever transmitted,
    and a delivery may pick any of it at any time: loss, duplication and reordering. Each
    node also takes arbitrary other steps; only cleaning up the other end is excluded. */
module GossipLink {
  import opened Common
  import opened GossipNode
  import opened GossipRuns

  datatype Ends = Ends(sender: Addr, receiver: Addr, sending: Config, receiving: Config, d: nat) {
    predicate Valid() { sending.Valid() && receiving.Valid() }
  }

  datatype Message = Message(q: nat, packet: Packet)

  /** `log` lists the messages that passed the duplicate test, and whether each reached its
      callback or was only acknowledged under quorum loss; `acks` holds the numbers the receiver
      has acknowledged, which travel back over a channel just as bad. `delivered` lists what the
      callback was given, with the number of messages accepted before, and does not ask the
      duplicate test. */
  datatype Link = Link(
    a: Local, b: Local, channel: set<Message>, log: seq<(Message, bool)>, acks: set<nat>,
    delivered: seq<(Message, nat)>)

  datatype LinkEvent =
    | AtSender(e: Event)
    | AtReceiver(e: Event)
    | Deliver(m: Message, reject: bool)
    | AckArrives(q: nat)

  predicate Keeps(l: Local, e: Event, other: Addr) {
    e.RefreshPeers? ==> other in Refresh(l.node, e.statics, e.discovered).peers
  }

  /** What a step of the sender puts on the channel. */
  function Transmitted(x: Ends, l: Local, e: Event): set<Message> {
    if !Enabled(x.d, l, e) then {}
    else if e.SendTo? && e.p == x.receiver then
      {Message(Send(x.sending, l.node, e.p, e.packet, l.clock, l.nextTag).1, e.packet)}
    else if e.RetryPass? && e.p == x.receiver then
      var m := PendingOf(l.node.pending, e.p);
      set q | q in m && Resends(x.sending, m[q], l.clock) :: Message(q, m[q].packet)
    else {}
  }

  function LinkStep(x: Ends, s: Link, e: LinkEvent): Link {
    match e
    case AtSender(le) =>
      if !Keeps(s.a, le, x.receiver) then s
      else s.(a := Step(x.sending, x.d, s.a, le), channel := s.channel + Transmitted(x, s.a, le))
    case AtReceiver(le) =>
      if !Keeps(s.b, le, x.sender) || (le.Packet? && le.p == x.sender) then s
      else s.(b := Step(x.receiving, x.d, s.b, le))
    case Deliver(m, reject) =>
      if m !in s.channel then s
      else
        var (_, reaction) := Receive(x.receiving, s.b.node, x.sender, m.q, m.packet, reject);
        var duplicate := Accept(x.receiving, s.b.node, x.sender, m.q).1;
        s.(b := Next(x.receiving, s.b, Packet(x.sender, m.q, m.packet, reject)),
           log := if duplicate then s.log else s.log + [(m, reaction.AckAndDeliver?)],
           acks := if reaction.Ignored? then s.acks else s.acks + {m.q},
           delivered := if reaction.AckAndDeliver? then s.delivered + [(m, |s.log|)] else s.delivered)
    case AckArrives(q) => if q !in s.acks then s else s.(a := Next(x.sending, s.a, Ack(x.receiver, q)))
  }

  function LinkRun(x: Ends, s: Link, trace: seq<LinkEvent>): Link {
    if trace == [] then s else LinkStep(x, LinkRun(x, s, trace[..|trace| - 1]), trace[|trace| - 1])
  }

  ghost predicate Start(x: Ends, s: Link) {
    && x.Valid()
    && (exists peers: seq<Addr> :: |Elements(peers)| <= MAX_PEERS && x.receiver in peers && s.a == Init(peers))
    && (exists peers: seq<Addr> :: |Elements(peers)| <= MAX_PEERS && x.sender in peers && s.b == Init(peers))
    && s.channel == {} && s.log == [] && s.acks == {} && s.delivered == []
  }

  // ---- Invariants ----

  /** Every message carries an issued number, no number names two messages, and whatever is
      still pending has been transmitted. */
  ghost predicate SenderOk(x: Ends, a: Local, channel: set<Message>) {
    && Inv(x.sending, x.d, a) && x.receiver in a.node.peers
    && (forall m :: m in channel ==> x.receiver in a.node.counters && m.q <= a.node.counters[x.receiver])
    && (forall m, m' :: m in channel && m' in channel && m.q == m'.q ==> m == m')
    && (forall q :: Has(a.node, x.receiver, q) ==> Message(q, Entry(a.node, x.receiver, q).packet) in channel)
  }

  function Numbers(log: seq<(Message, bool)>): seq<nat> { seq(|log|, i requires 0 <= i < |log| => log[i].0.q) }

  ghost predicate Spaced(h: seq<nat>, w: nat) { forall i, j :: 0 <= i < j < |h| && h[i] == h[j] ==> j - i > w }

  ghost predicate ReceiverOk(x: Ends, b: Local, channel: set<Message>, log: seq<(Message, bool)>) {
    && Inv(x.receiving, x.d, b) && x.sender in b.node.peers
    && HistoryOf(b, x.sender) == Numbers(log)
    && (forall i :: 0 <= i < |log| ==> log[i].0 in channel)
    && Spaced(Numbers(log), x.receiving.dedupWindow)
  }

  /** p stays a peer, its counter stands still, and its pending packets are among the old ones. */
  ghost predicate LeavesPeer(n: Node, m: Node, p: Addr) {
    && p in m.peers
    && (p in m.counters <==> p in n.counters) && (p in m.counters ==> m.counters[p] == n.counters[p])
    && (forall q :: Has(m, p, q) ==> Has(n, p, q) && Entry(m, p, q).packet == Entry(n, p, q).packet)
  }

  lemma SendLeaves(c: Config, d: nat, l: Local, o: Addr, packet: Packet, p: Addr)
    requires Shape(l.node) && Enabled(d, l, SendTo(o, packet)) && p in l.node.peers && o != p
    ensures LeavesPeer(l.node, Next(c, l, SendTo(o, packet)).node, p)
  {
    hide Send, Shape;
    SendMeaning(c, l.node, o, packet, l.clock, l.nextTag);
  }

  lemma AcceptLeaves(c: Config, n: Node, o: Addr, q: nat, p: Addr)
    requires p in n.peers
    ensures LeavesPeer(n, Accept(c, n, o, q).0, p)
  {}

  /** A step that is not a send to p leaves p's counter alone and only shrinks its pending map. */
  lemma OthersLeavePeer(c: Config, d: nat, l: Local, e: Event, p: Addr)
    requires Shape(l.node) && Enabled(d, l, e) && Keeps(l, e, p) && p in l.node.peers
    requires !(e.SendTo? && e.p == p)
    ensures LeavesPeer(l.node, Next(c, l, e).node, p)
  {
    match e
    case SendTo(o, packet) => SendLeaves(c, d, l, o, packet, p);
    case Packet(o, q, _, _) => AcceptLeaves(c, l.node, o, q, p);
    case RefreshPeers(statics, discovered) => RefreshLeavesPeer(l.node, statics, discovered, p);
    case Ack(_, _) =>
    case RetryPass(_) =>
    case SweepEmpty =>
    case ClearAcks =>
    case Tick(_) =>
  }

  lemma RefreshLeavesPeer(n: Node, statics: seq<Addr>, discovered: seq<Addr>, p: Addr)
    requires Shape(n) && p in n.peers && p in Refresh(n, statics, discovered).peers
    ensures var m := Refresh(n, statics, discovered);
            && (p in m.counters <==> p in n.counters) && (p in m.counters ==> m.counters[p] == n.counters[p])
            && (p in m.windows <==> p in n.windows)
            && (forall q :: Has(m, p, q) ==> Has(n, p, q) && Entry(m, p, q) == Entry(n, p, q))
  {
    if discovered != [] {
      var next := NewPeers(statics, discovered);
      var gone := Gone(n.peers, next);
      GoneMeaning(n.peers, next);
      CleanupPending(n, gone);
      CleanupCounters(n, gone);
      CleanupWindows(n, gone);
    }
  }

  lemma SenderSends(x: Ends, a: Local, channel: set<Message>, packet: Packet)
    requires x.Valid() && SenderOk(x, a, channel) && Enabled(x.d, a, SendTo(x.receiver, packet))
    ensures var e := SendTo(x.receiver, packet);
            SenderOk(x, Next(x.sending, a, e), channel + Transmitted(x, a, e))
  {
    hide Counted, Deduped, Retrying;
    var e, q := SendTo(x.receiver, packet), Issue(a.node, x.receiver);
    var entry := Fresh(x.sending, packet, a.clock, a.nextTag);
    assert entry.packet == packet;
    SendMeaning(x.sending, a.node, x.receiver, packet, a.clock, a.nextTag);
    SendInv(x.sending, x.d, a, x.receiver, packet);
    assert Transmitted(x, a, e) == {Message(q, packet)};
    SentOk(x, a, Next(x.sending, a, e), channel, q, packet);
  }

  /** One number more is issued, and only that packet may be pending anew. */
  lemma SentOk(x: Ends, a: Local, b: Local, channel: set<Message>, q: nat, packet: Packet)
    requires SenderOk(x, a, channel) && Inv(x.sending, x.d, b) && q == Issue(a.node, x.receiver)
    requires b.node.counters == a.node.counters[x.receiver := q] && b.node.peers == a.node.peers
    requires || b.node.pending == a.node.pending
             || exists e: Pending :: e.packet == packet
                  && b.node.pending == a.node.pending[x.receiver := PendingOf(a.node.pending, x.receiver)[q := e]]
    ensures SenderOk(x, b, channel + {Message(q, packet)})
  {
    hide Inv;
    forall r | Has(b.node, x.receiver, r)
      ensures Message(r, Entry(b.node, x.receiver, r).packet) in channel + {Message(q, packet)}
    {
      if r != q || b.node.pending == a.node.pending { assert Has(a.node, x.receiver, r); }
    }
  }

  lemma SenderOther(x: Ends, a: Local, channel: set<Message>, e: Event)
    requires x.Valid() && SenderOk(x, a, channel) && Enabled(x.d, a, e) && Keeps(a, e, x.receiver)
    requires !(e.SendTo? && e.p == x.receiver)
    ensures SenderOk(x, Next(x.sending, a, e), channel + Transmitted(x, a, e))
  {
    NextInv(x.sending, x.d, a, e);
    OthersLeavePeer(x.sending, x.d, a, e, x.receiver);
    RetransmitsOnly(x, a, channel, e);
    assert channel + Transmitted(x, a, e) == channel;
    SenderKept(x, a, Next(x.sending, a, e), channel);
  }

  lemma RetransmitsOnly(x: Ends, a: Local, channel: set<Message>, e: Event)
    requires SenderOk(x, a, channel) && !(e.SendTo? && e.p == x.receiver)
    ensures Transmitted(x, a, e) <= channel
  {
    forall m | m in Transmitted(x, a, e) ensures m in channel {
      assert Has(a.node, x.receiver, m.q);
    }
  }

  lemma SenderKept(x: Ends, a: Local, a': Local, channel: set<Message>)
    requires SenderOk(x, a, channel) && Inv(x.sending, x.d, a') && LeavesPeer(a.node, a'.node, x.receiver)
    ensures SenderOk(x, a', channel)
  {}

  lemma ReceiverOther(x: Ends, b: Local, channel: set<Message>, log: seq<(Message, bool)>, e: Event)
    requires x.Valid() && ReceiverOk(x, b, channel, log) && Enabled(x.d, b, e) && Keeps(b, e, x.sender)
    requires !(e.Packet? && e.p == x.sender)
    ensures ReceiverOk(x, Next(x.receiving, b, e), channel, log)
  {
    NextInv(x.receiving, x.d, b, e);
    HistoryKept(x.receiving, x.d, b, e, x.sender);
  }

  lemma HistoryKept(c: Config, d: nat, l: Local, e: Event, p: Addr)
    requires Inv(c, d, l) && Enabled(d, l, e) && Keeps(l, e, p) && p in l.node.peers
    requires !(e.Packet? && e.p == p)
    ensures p in Next(c, l, e).node.peers && HistoryOf(Next(c, l, e), p) == HistoryOf(l, p)
  {
    if e.SendTo? {
      SendMeaning(c, l.node, e.p, e.packet, l.clock, l.nextTag);
    } else {
      OthersLeavePeer(c, d, l, e, p);
      if e.Packet? { assert e.p != p; }
    }
  }

  lemma ReceiverDelivers(x: Ends, b: Local, channel: set<Message>, log: seq<(Message, bool)>, m: Message, reject: bool, up: bool)
    requires x.Valid() && ReceiverOk(x, b, channel, log) && m in channel
    ensures var duplicate := Accept(x.receiving, b.node, x.sender, m.q).1;
            ReceiverOk(x, Next(x.receiving, b, Packet(x.sender, m.q, m.packet, reject)), channel,
                       if duplicate then log else log + [(m, up)])
  {
    hide Shape, Counted, Deduped, Retrying, Spaced, Numbers, Last;
    PacketInv(x.receiving, x.d, b, x.sender, m.q, m.packet, reject);
    HistoryHere(x.receiving, b, x.sender);
    DuplicateMeaning(x.receiving, b.node, b.history, x.sender, m.q);
    var h, w := Numbers(log), x.receiving.dedupWindow;
    if !Accept(x.receiving, b.node, x.sender, m.q).1 {
      NumbersAppend(log, (m, up));
      SpacedAppend(h, m.q, w);
    }
    AcceptLeaves(x.receiving, b.node, x.sender, m.q, x.sender);
  }

  lemma HistoryHere(c: Config, l: Local, p: Addr)
    ensures p !in l.history ==> Last(HistoryOf(l, p), c.dedupWindow) == []
  {}

  lemma NumbersAppend(log: seq<(Message, bool)>, entry: (Message, bool))
    ensures Numbers(log + [entry]) == Numbers(log) + [entry.0.q]
  {}

  lemma SpacedAppend(h: seq<nat>, q: nat, w: nat)
    requires Spaced(h, w) && q !in Last(h, w)
    ensures Spaced(h + [q], w)
  {
    forall i | 0 <= i < |h| && h[i] == q ensures |h| - i > w { InLast(h, w, i); }
  }

  lemma InLast(h: seq<nat>, w: nat, i: nat)
    requires i < |h|
    ensures i >= |h| - w ==> h[i] in Last(h, w)
  {
    if i >= |h| - w { assert h[i] == Last(h, w)[if |h| <= w then i else i - (|h| - w)]; }
  }

  lemma {:induction false} LinkInvariant(x: Ends, s: Link, trace: seq<LinkEvent>)
    requires Start(x, s)
    ensures var t := LinkRun(x, s, trace); SenderOk(x, t.a, t.channel) && ReceiverOk(x, t.b, t.channel, t.log)
  {
    if trace == [] {
      StartOk(x, s);
    } else {
      var t, e := LinkRun(x, s, trace[..|trace| - 1]), trace[|trace| - 1];
      LinkInvariant(x, s, trace[..|trace| - 1]);
      LinkStepOk(x, t, e);
    }
  }

  lemma StartOk(x: Ends, s: Link)
    requires Start(x, s)
    ensures SenderOk(x, s.a, s.channel) && ReceiverOk(x, s.b, s.channel, s.log)
  {
    var p: seq<Addr> :| |Elements(p)| <= MAX_PEERS && x.receiver in p && s.a == Init(p);
    RunInvariant(x.sending, x.d, p, []);
    var r: seq<Addr> :| |Elements(r)| <= MAX_PEERS && x.sender in r && s.b == Init(r);
    RunInvariant(x.receiving, x.d, r, []);
  }

  lemma ReceiverMore(x: Ends, b: Local, channel: set<Message>, more: set<Message>, log: seq<(Message, bool)>)
    requires ReceiverOk(x, b, channel, log)
    ensures ReceiverOk(x, b, channel + more, log)
  {}

  lemma LinkStepOk(x: Ends, s: Link, e: LinkEvent)
    requires x.Valid() && SenderOk(x, s.a, s.channel) && ReceiverOk(x, s.b, s.channel, s.log)
    ensures var t := LinkStep(x, s, e); SenderOk(x, t.a, t.channel) && ReceiverOk(x, t.b, t.channel, t.log)
  {
    hide SenderOk, ReceiverOk;
    match e
    case AtSender(le) =>
      ReceiverMore(x, s.b, s.channel, Transmitted(x, s.a, le), s.log);
      if Enabled(x.d, s.a, le) && Keeps(s.a, le, x.receiver) {
        if le.SendTo? && le.p == x.receiver { SenderSends(x, s.a, s.channel, le.packet); }
        else { SenderOther(x, s.a, s.channel, le); }
      } else {
        assert s.channel + {} == s.channel;
      }
    case AtReceiver(le) =>
      if Enabled(x.d, s.b, le) && Keeps(s.b, le, x.sender) && !(le.Packet? && le.p == x.sender) {
        ReceiverOther(x, s.b, s.channel, s.log, le);
      }
    case Deliver(m, reject) =>
      var up := Receive(x.receiving, s.b.node, x.sender, m.q, m.packet, reject).1.AckAndDeliver?;
      if m in s.channel { ReceiverDelivers(x, s.b, s.channel, s.log, m, reject, up); }
    case AckArrives(q) =>
      SenderOther(x, s.a, s.channel, Ack(x.receiver, q));
      assert s.channel + {} == s.channel;
  }

  // ---- Results ----

  /** The same packet passes the duplicate test twice only if at least `dedupWindow` other
      packets, pairwise different, were accepted from that peer in between. */
  lemma DeliveredTwiceFarApart(x: Ends, s: Link, trace: seq<LinkEvent>, i: nat, j: nat)
    requires Start(x, s)
    requires i < j < |LinkRun(x, s, trace).log| && LinkRun(x, s, trace).log[i].0 == LinkRun(x, s, trace).log[j].0
    ensures var log, w := LinkRun(x, s, trace).log, x.receiving.dedupWindow;
            && i < j - w
            && (forall k :: j - w <= k < j ==> log[k].0 != log[j].0)
            && (forall k, k' :: j - w <= k < k' < j ==> log[k].0 != log[k'].0)
  {
    LinkInvariant(x, s, trace);
    var log, w := LinkRun(x, s, trace).log, x.receiving.dedupWindow;
    var h := Numbers(log);
    assert h[i] == h[j];
    forall k | j - w <= k < j ensures log[k].0 != log[j].0 { assert h[k] != h[j]; }
    forall k, k' | j - w <= k < k' < j ensures log[k].0 != log[k'].0 { assert h[k] != h[k']; }
  }

  /** A packet that is suppressed was accepted before, itself and not merely its number; and
      everything accepted was sent. */
  lemma SuppressedOnlyIfAccepted(x: Ends, s: Link, trace: seq<LinkEvent>, m: Message)
    requires Start(x, s)
    ensures var t := LinkRun(x, s, trace);
            && (m in t.channel && Accept(x.receiving, t.b.node, x.sender, m.q).1 ==>
                  exists i :: 0 <= i < |t.log| && t.log[i].0 == m)
            && (forall i :: 0 <= i < |t.log| ==> t.log[i].0 in t.channel)
  {
    LinkInvariant(x, s, trace);
    var t := LinkRun(x, s, trace);
    if m in t.channel && Accept(x.receiving, t.b.node, x.sender, m.q).1 {
      DuplicateMeaning(x.receiving, t.b.node, t.b.history, x.sender, m.q);
      var h := Numbers(t.log);
      assert m.q in Last(h, x.receiving.dedupWindow);
      var i :| 0 <= i < |h| && h[i] == m.q;
      assert t.log[i].0 in t.channel;
    }
  }
}
