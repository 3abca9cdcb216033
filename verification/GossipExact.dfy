/** What single steps of a running node do, said without the step functions: which packets reach
    the callback, what an acknowledgement removes, what a retry pass keeps, and when. */
module GossipExact {
  import opened Common
  import opened PeerMerge
  import opened GossipNode
  import opened GossipRuns

  // ---- Receiving ----

  /** A packet is ignored from strangers; otherwise it reaches its callback exactly when its number
      is not among the last `dedupWindow` accepted from that peer and it is not a route under
      quorum loss, and in every other case it is only acknowledged. */
  lemma ReactionIff(c: Config, d: nat, peers: seq<Addr>, trace: seq<Event>,
                    p: Addr, q: nat, packet: Packet, reject: bool)
    requires c.Valid() && |Elements(peers)| <= MAX_PEERS
    ensures var l := Run(c, d, Init(peers), trace);
            var reaction := Receive(c, l.node, p, q, packet, reject).1;
            && Receive(c, l.node, p, q, packet, reject).0 == Next(c, l, Packet(p, q, packet, reject)).node
            && (reaction == Ignored <==> p !in l.node.peers)
            && (reaction == AckAndDeliver <==>
                  && p in l.node.peers && q !in Last(HistoryOf(l, p), c.dedupWindow)
                  && !(packet.Route? && reject))
  {
    DuplicateIffRecent(c, d, peers, trace, p, q);
  }

  // ---- Acknowledgements ----

  /** An acknowledgement from a peer removes exactly the packet it names and counts it off, and the
      peer's entry goes with its last packet. */
  ghost predicate Acknowledged(n: Node, m: Node, p: Addr, q: nat) {
    && !Has(m, p, q)
    && (forall o, k :: (o != p || k != q) ==>
          (Has(m, o, k) <==> Has(n, o, k)) && (Has(n, o, k) ==> Entry(m, o, k) == Entry(n, o, k)))
    && m.pendingCount == n.pendingCount - (if Has(n, p, q) then 1 else 0)
    && (p in n.pending ==> (p !in m.pending <==> n.pending[p].Keys == {q}))
    && m.peers == n.peers && m.counters == n.counters && m.windows == n.windows && m.seen == n.seen
  }

  lemma AckRemoves(n: Node, p: Addr, q: nat)
    ensures Acknowledged(n, HandleAck(n, p, q), p, q)
  {
    if p in n.pending && q in n.pending[p] {
      var rest := n.pending[p] - {q};
      assert rest.Keys == n.pending[p].Keys - {q};
      assert rest == map[] <==> rest.Keys == {};
    }
  }

  lemma AckExact(c: Config, d: nat, peers: seq<Addr>, trace: seq<Event>, p: Addr, q: nat)
    ensures var l := Run(c, d, Init(peers), trace);
            var m := Run(c, d, Init(peers), trace + [Ack(p, q)]);
            if p in l.node.peers then Acknowledged(l.node, m.node, p, q) else m == l
  {
    assert (trace + [Ack(p, q)])[..|trace|] == trace;
    AckRemoves(Run(c, d, Init(peers), trace).node, p, q);
  }

  // ---- Retries ----

  /** What one retry pass does to one pending packet: before its time nothing; at its time, while
      retries are left, it is sent once more and rescheduled by the doubled timeout; with none left,
      it is removed, having been sent once and then once per retry. */
  ghost predicate Passed(c: Config, l: Local, m: Local, p: Addr, q: nat)
    requires Has(l.node, p, q)
  {
    var e := Entry(l.node, p, q);
    && (l.clock < e.nextRetry ==>
          Has(m.node, p, q) && Entry(m.node, p, q) == e && m.sentTags[e.tag] == l.sentTags[e.tag])
    && (l.clock >= e.nextRetry && e.retries < c.maxRetries ==>
          && Has(m.node, p, q) && m.sentTags[e.tag] == l.sentTags[e.tag] + 1
          && Entry(m.node, p, q) ==
             e.(retries := e.retries + 1, nextRetry := l.clock + c.ackTimeout * Pow2(Min(e.retries + 1, 3))))
    && (l.clock >= e.nextRetry && e.retries >= c.maxRetries ==>
          !Has(m.node, p, q) && m.sentTags[e.tag] == l.sentTags[e.tag] == 1 + c.maxRetries)
  }

  /** Everything that is not pending at p is as before. */
  ghost predicate OthersKept(n: Node, m: Node, p: Addr) {
    && (forall o, q :: o != p ==>
          (Has(m, o, q) <==> Has(n, o, q)) && (Has(m, o, q) ==> Entry(m, o, q) == Entry(n, o, q)))
    && m.peers == n.peers && m.counters == n.counters && m.windows == n.windows && m.seen == n.seen
  }

  lemma TagResent(c: Config, d: nat, l: Local, p: Addr, q: nat)
    requires Retrying(c, d, l) && Has(l.node, p, q)
    ensures var e, m := Entry(l.node, p, q), PendingOf(l.node.pending, p);
            e.tag in ResentTags(c, m, l.clock) <==> l.clock >= e.nextRetry && e.retries < c.maxRetries
  {
    var e, m := Entry(l.node, p, q), l.node.pending[p];
    if e.tag in ResentTags(c, m, l.clock) {
      var r :| r in m && Resends(c, m[r], l.clock) && m[r].tag == e.tag;
      assert Has(l.node, p, r);
    }
  }

  lemma PassIsExact(c: Config, d: nat, l: Local, p: Addr, q: nat)
    requires Retrying(c, d, l) && Has(l.node, p, q)
    ensures Passed(c, l, Next(c, l, RetryPass(p)), p, q)
  {
    hide Backoff;
    var e := Entry(l.node, p, q);
    assert EntryOk(c, d, l, p, e);
    TagResent(c, d, l, p, q);
    BackoffDoubles(c, e.retries + 1);
  }

  lemma PassLeavesOthers(c: Config, l: Local, p: Addr)
    ensures OthersKept(l.node, Next(c, l, RetryPass(p)).node, p)
  {
    hide RetryMap, ResentTags;
  }

  lemma RetryPassExact(c: Config, d: nat, peers: seq<Addr>, trace: seq<Event>, p: Addr, q: nat)
    requires c.Valid() && |Elements(peers)| <= MAX_PEERS
    requires Has(Run(c, d, Init(peers), trace).node, p, q)
    ensures var l, m := Run(c, d, Init(peers), trace), Run(c, d, Init(peers), trace + [RetryPass(p)]);
            Passed(c, l, m, p, q) && OthersKept(l.node, m.node, p)
  {
    hide Next, Passed, Retrying, Shape, Counted, Deduped;
    RunInvariant(c, d, peers, trace);
    assert (trace + [RetryPass(p)])[..|trace|] == trace;
    PassIsExact(c, d, Run(c, d, Init(peers), trace), p, q);
    PassLeavesOthers(c, Run(c, d, Init(peers), trace), p);
  }

  // ---- Retries come no earlier than the schedule ----

  ghost predicate NotEarly(c: Config, l: Local) {
    forall p, q :: Has(l.node, p, q) ==>
      Entry(l.node, p, q).born <= l.clock
      && Entry(l.node, p, q).nextRetry >= Entry(l.node, p, q).born + Deadline(c, 0, Entry(l.node, p, q).retries)
  }

  lemma FewerNotEarly(c: Config, l: Local, m: Local)
    requires NotEarly(c, l) && m.clock >= l.clock
    requires forall p, q :: Has(m.node, p, q) ==> Has(l.node, p, q) && Entry(m.node, p, q) == Entry(l.node, p, q)
    ensures NotEarly(c, m)
  {}

  lemma SendNotEarly(c: Config, d: nat, l: Local, p: Addr, packet: Packet)
    requires NotEarly(c, l) && Shape(l.node) && Enabled(d, l, SendTo(p, packet))
    ensures NotEarly(c, Next(c, l, SendTo(p, packet)))
  {
    SendMeaning(c, l.node, p, packet, l.clock, l.nextTag);
    var m := Next(c, l, SendTo(p, packet));
    forall o, q | Has(m.node, o, q)
      ensures || (Has(l.node, o, q) && Entry(m.node, o, q) == Entry(l.node, o, q))
              || Entry(m.node, o, q) == Fresh(c, packet, l.clock, l.nextTag)
    {}
    assert Deadline(c, 0, 0) == c.ackTimeout;
  }

  lemma PassNotEarly(c: Config, l: Local, p: Addr)
    requires NotEarly(c, l)
    ensures NotEarly(c, Next(c, l, RetryPass(p)))
  {
    var m := Next(c, l, RetryPass(p));
    forall o, q | Has(m.node, o, q)
      ensures Has(l.node, o, q)
      ensures Entry(m.node, o, q) == Entry(l.node, o, q)
              || (l.clock >= Entry(l.node, o, q).nextRetry
                  && Entry(m.node, o, q) == Retried(c, Entry(l.node, o, q), l.clock))
    {}
  }

  lemma NextNotEarly(c: Config, d: nat, l: Local, e: Event)
    requires NotEarly(c, l) && Shape(l.node) && Enabled(d, l, e)
    ensures NotEarly(c, Next(c, l, e))
  {
    match e
    case SendTo(p, packet) => SendNotEarly(c, d, l, p, packet);
    case RetryPass(p) => PassNotEarly(c, l, p);
    case RefreshPeers(statics, discovered) =>
      RefreshRemoves(l.node, statics, discovered);
      FewerNotEarly(c, l, Next(c, l, e));
    case Ack(_, _) => FewerNotEarly(c, l, Next(c, l, e));
    case Packet(_, _, _, _) => FewerNotEarly(c, l, Next(c, l, e));
    case SweepEmpty => FewerNotEarly(c, l, Next(c, l, e));
    case ClearAcks => FewerNotEarly(c, l, Next(c, l, e));
    case Tick(_) => FewerNotEarly(c, l, Next(c, l, e));
  }

  lemma {:induction false} NeverEarly(c: Config, d: nat, peers: seq<Addr>, trace: seq<Event>)
    requires c.Valid() && |Elements(peers)| <= MAX_PEERS
    ensures NotEarly(c, Run(c, d, Init(peers), trace))
  {
    hide Next, NotEarly;
    if trace == [] {
      NothingEarly(c, peers);
    } else {
      var before := trace[..|trace| - 1];
      NeverEarly(c, d, peers, before);
      RunInvariant(c, d, peers, before);
      var l := Run(c, d, Init(peers), before);
      if Enabled(d, l, trace[|trace| - 1]) { NextNotEarly(c, d, l, trace[|trace| - 1]); }
    }
  }

  lemma NothingEarly(c: Config, peers: seq<Addr>)
    ensures NotEarly(c, Init(peers))
  {}

  /** The k-th retry of a packet comes no earlier than the timeout and the doubled timeouts before
      it have passed since the packet was sent. */
  lemma RetryNotEarly(c: Config, d: nat, peers: seq<Addr>, trace: seq<Event>, p: Addr, q: nat)
    requires c.Valid() && |Elements(peers)| <= MAX_PEERS
    requires Has(Run(c, d, Init(peers), trace).node, p, q)
    ensures var l := Run(c, d, Init(peers), trace);
            var e := Entry(l.node, p, q);
            e.nextRetry - e.born >= c.ackTimeout * Doublings(e.retries)
  {
    hide Run, Deadline;
    NeverEarly(c, d, peers, trace);
    var l := Run(c, d, Init(peers), trace);
    DeadlineDoubles(c, Entry(l.node, p, q).retries);
  }

  /** 1 + 2 + 4 + 8 + 8 + ..., up to k doublings. */
  function Doublings(k: nat): nat { if k == 0 then 1 else Doublings(k - 1) + Pow2(Min(k, 3)) }

  lemma {:induction false} DeadlineDoubles(c: Config, k: nat)
    ensures Deadline(c, 0, k) == c.ackTimeout * Doublings(k)
  {
    if k > 0 {
      DeadlineDoubles(c, k - 1);
      BackoffDoubles(c, k);
    }
  }

  // ---- Sending, sweeping and swapping peers ----

  /** A send to a peer takes the next number and, below the limit, leaves the packet pending with
      its first retry one timeout away, sent once. */
  lemma SendExact(c: Config, d: nat, peers: seq<Addr>, trace: seq<Event>, p: Addr, packet: Packet)
    requires c.Valid() && |Elements(peers)| <= MAX_PEERS
    requires Enabled(d, Run(c, d, Init(peers), trace), SendTo(p, packet))
    ensures var l, m := Run(c, d, Init(peers), trace), Run(c, d, Init(peers), trace + [SendTo(p, packet)]);
            var q := if p in l.node.counters then l.node.counters[p] + 1 else 1;
            && m.node.counters == l.node.counters[p := q]
            && (l.node.pendingCount < 1000 ==>
                  && Has(m.node, p, q) && m.node.pendingCount == l.node.pendingCount + 1
                  && Entry(m.node, p, q).packet == packet && Entry(m.node, p, q).retries == 0
                  && Entry(m.node, p, q).nextRetry == l.clock + c.ackTimeout && m.sentTags[Entry(m.node, p, q).tag] == 1)
            && (l.node.pendingCount >= 1000 ==> m.node.pending == l.node.pending)
  {
    hide Shape, Counted, Deduped, EntryOk, OwnTags, Send;
    RunInvariant(c, d, peers, trace);
    assert (trace + [SendTo(p, packet)])[..|trace|] == trace;
    var l := Run(c, d, Init(peers), trace);
    SendMeaning(c, l.node, p, packet, l.clock, l.nextTag);
    assert l.sentTags[l.nextTag] == 0;
  }

  /** A sweep drops exactly the peers with nothing pending. */
  lemma SweepExact(n: Node)
    ensures var m := Sweep(n);
            && (forall p :: p in m.pending <==> p in n.pending && |n.pending[p]| > 0)
            && (forall p :: p in m.pending ==> m.pending[p] == n.pending[p])
            && m == n.(pending := m.pending)
  {
    forall p | p in n.pending ensures n.pending[p] == map[] <==> |n.pending[p]| == 0 {
      assert |n.pending[p]| == |n.pending[p].Keys|;
      if |n.pending[p]| == 0 { assert n.pending[p].Keys == {}; }
    }
  }

  /** After a discovery that found something, the peers are distinct, at most 256 and among the
      configured and discovered ones; all of those unless the cap is reached; configured ones first.
      The departed peers' state is gone and everyone else's is untouched. */
  lemma RefreshExact(n: Node, statics: seq<Addr>, discovered: seq<Addr>)
    requires discovered != []
    ensures var m := Refresh(n, statics, discovered);
            var all, gone := Elements(statics + discovered), Elements(n.peers) - Elements(m.peers);
            && (forall i, j :: 0 <= i < j < |m.peers| ==> m.peers[i] != m.peers[j])
            && |m.peers| <= 256 && Elements(m.peers) <= all && (|m.peers| < 256 ==> Elements(m.peers) == all)
            && (Elements(statics) <= Elements(m.peers) || Elements(m.peers) <= Elements(statics))
            && m.pending == n.pending - gone && m.counters == n.counters - gone
            && m.windows == n.windows - gone && m.seen == n.seen - gone
  {
    var next, all := NewPeers(statics, discovered), statics + discovered;
    DistinctMeaning(all);
    DistinctMeaning(statics);
    DistinctPrefix(statics, discovered);
    GoneMeaning(n.peers, next);
    CleanupPending(n, Gone(n.peers, next));
    CleanupCounters(n, Gone(n.peers, next));
    CleanupWindows(n, Gone(n.peers, next));
    CleanupSeen(n, Gone(n.peers, next));
    StaticsFirst(statics, discovered);
  }

  lemma StaticsFirst(statics: seq<Addr>, discovered: seq<Addr>)
    ensures var next := NewPeers(statics, discovered);
            Elements(statics) <= Elements(next) || Elements(next) <= Elements(statics)
  {
    var own, all := Distinct(statics), Distinct(statics + discovered);
    DistinctMeaning(statics);
    DistinctPrefix(statics, discovered);
    if |own| <= MAX_PEERS {
      forall a | a in statics ensures a in NewPeers(statics, discovered) {
        var i :| 0 <= i < |own| && own[i] == a;
        assert all[i] == a;
      }
    } else {
      forall a | a in NewPeers(statics, discovered) ensures a in statics {
        var i :| 0 <= i < MAX_PEERS && all[i] == a;
        assert own[i] == a;
      }
    }
  }
}
