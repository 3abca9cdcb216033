/** Reliable delivery in one gossip node (src/gossip_protocol.cpp): per-peer sequence
    numbers, pending acknowledgements with retries, the sliding duplicate window, and the
    peer swap. Functions on `Node` values say what each operation does; the class below
    runs the source's loops and is proved against them. */
module GossipNode {
  import opened Common
  import opened PeerMerge

  type Addr = nat

  const MAX_PEERS := 256
  const MAX_DEDUP_PEERS := 10000
  const MAX_PENDING_ACKS := 1000
  const UINT32 := 0x1_0000_0000

  datatype Config = Config(ackTimeout: nat, maxRetries: nat, dedupWindow: nat) {
    predicate Valid() { ackTimeout >= 10 && dedupWindow > 0 }
  }

  datatype Packet = Route(tokens: seq<int>, backend: int) | Eviction(hash: nat, backend: int)

  /** `born` and `tag` (a name for this send) are never read by the code. */
  datatype Pending = Pending(packet: Packet, nextRetry: int, retries: nat, born: int, tag: nat)

  type PendingMap = map<nat, Pending>

  datatype Node = Node(
    peers: seq<Addr>,
    counters: map<Addr, nat>,
    pending: map<Addr, PendingMap>,
    windows: map<Addr, seq<nat>>,
    seen: map<Addr, set<nat>>,
    pendingCount: int)

  function Last(s: seq<nat>, n: nat): seq<nat> { if |s| <= n then s else s[|s| - n..] }

  function Multiplier(k: nat): nat { if k == 0 then 1 else if k == 1 then 2 else if k == 2 then 4 else 8 }

  function Backoff(c: Config, retries: nat): nat {
    var grown, cap := c.ackTimeout * Multiplier(retries), c.ackTimeout * 8;
    if grown <= cap then grown else cap
  }

  // ---- What each operation does ----

  function Evict(counters: map<Addr, nat>, peers: seq<Addr>): map<Addr, nat> {
    map p | p in counters && p in peers :: counters[p]
  }

  function NextSeq(counters: map<Addr, nat>, peers: seq<Addr>, p: Addr): (map<Addr, nat>, nat) {
    if p in counters then
      var q := (counters[p] + 1) % UINT32;
      (counters[p := q], q)
    else
      var kept := if |counters| >= MAX_DEDUP_PEERS then Evict(counters, peers) else counters;
      if |kept| >= MAX_DEDUP_PEERS then (kept, 0) else (kept[p := 1], 1)
  }

  function PendingOf(pending: map<Addr, PendingMap>, p: Addr): PendingMap {
    if p in pending then pending[p] else map[]
  }

  function Fresh(c: Config, packet: Packet, now: int, tag: nat): Pending {
    Pending(packet, now + c.ackTimeout, 0, now, tag)
  }

  /** One peer's share of a broadcast; the result is the stamped sequence number. */
  function Send(c: Config, n: Node, p: Addr, packet: Packet, now: int, tag: nat): (Node, nat) {
    var (counters, q) := NextSeq(n.counters, n.peers, p);
    var m := n.(counters := counters);
    if n.pendingCount >= MAX_PENDING_ACKS then (m, q)
    else (m.(pending := n.pending[p := PendingOf(n.pending, p)[q := Fresh(c, packet, now, tag)]],
             pendingCount := n.pendingCount + 1), q)
  }

  function HandleAck(n: Node, p: Addr, q: nat): Node {
    if p !in n.pending || q !in n.pending[p] then n
    else
      var rest := n.pending[p] - {q};
      n.(pending := if rest == map[] then n.pending - {p} else n.pending[p := rest],
         pendingCount := n.pendingCount - 1)
  }

  /** The window test: the new state, and whether the number counts as a duplicate. */
  function Accept(c: Config, n: Node, p: Addr, q: nat): (Node, bool) {
    if p in n.seen && p in n.windows then
      if q in n.seen[p] then (n, true)
      else
        var w := Last(n.windows[p] + [q], c.dedupWindow);
        (n.(windows := n.windows[p := w], seen := n.seen[p := Elements(w)]), false)
    else if |n.seen| >= MAX_DEDUP_PEERS then (n, false)
    else (n.(windows := n.windows[p := [q]], seen := n.seen[p := {q}]), false)
  }

  predicate Due(e: Pending, now: int) { now >= e.nextRetry }
  predicate Expires(c: Config, e: Pending, now: int) { Due(e, now) && e.retries >= c.maxRetries }
  predicate Resends(c: Config, e: Pending, now: int) { Due(e, now) && e.retries < c.maxRetries }

  function Retried(c: Config, e: Pending, now: int): Pending {
    if Resends(c, e, now) then e.(retries := e.retries + 1, nextRetry := now + Backoff(c, e.retries + 1)) else e
  }

  function RetryMap(c: Config, m: PendingMap, now: int): PendingMap {
    map q | q in m && !Expires(c, m[q], now) :: Retried(c, m[q], now)
  }

  function RetryBlock(c: Config, n: Node, p: Addr, now: int): Node {
    if p !in n.pending then n
    else
      var after := RetryMap(c, n.pending[p], now);
      n.(pending := n.pending[p := after], pendingCount := n.pendingCount - (|n.pending[p]| - |after|))
  }

  function NonEmpty(m: map<Addr, PendingMap>): map<Addr, PendingMap> {
    map p | p in m && m[p] != map[] :: m[p]
  }

  function Sweep(n: Node): Node { n.(pending := NonEmpty(n.pending)) }

  function Cleanup(n: Node, p: Addr): Node {
    n.(pending := n.pending - {p}, pendingCount := n.pendingCount - |PendingOf(n.pending, p)|,
       counters := n.counters - {p}, windows := n.windows - {p}, seen := n.seen - {p})
  }

  function CleanupAll(n: Node, gone: seq<Addr>): Node {
    if gone == [] then n else Cleanup(CleanupAll(n, gone[..|gone| - 1]), gone[|gone| - 1])
  }

  function Gone(peers: seq<Addr>, kept: seq<Addr>): seq<Addr> {
    if peers == [] then []
    else if peers[|peers| - 1] in kept then Gone(peers[..|peers| - 1], kept)
    else Gone(peers[..|peers| - 1], kept) + [peers[|peers| - 1]]
  }

  function NewPeers(statics: seq<Addr>, discovered: seq<Addr>): seq<Addr> {
    Take(Distinct(statics + discovered), MAX_PEERS)
  }

  function Refresh(n: Node, statics: seq<Addr>, discovered: seq<Addr>): Node {
    if discovered == [] then n
    else
      var next := NewPeers(statics, discovered);
      CleanupAll(n, Gone(n.peers, next)).(peers := next)
  }

  datatype Reaction = Ignored | AckOnly | AckAndDeliver

  /** A route or eviction packet; `reject` is the quorum-loss test on incoming routes. */
  function Receive(c: Config, n: Node, p: Addr, q: nat, packet: Packet, reject: bool): (Node, Reaction) {
    if p !in n.peers then (n, Ignored)
    else
      var (m, duplicate) := Accept(c, n, p, q);
      (m, if duplicate || (packet.Route? && reject) then AckOnly else AckAndDeliver)
  }

  function ClearPending(n: Node): Node { n.(pending := map[], pendingCount := 0) }

  /** The two forms of one duplicate window agree. */
  ghost predicate WindowOk(c: Config, w: seq<nat>, seen: set<nat>) {
    && seen == Elements(w)
    && |w| <= c.dedupWindow && Unique(w)
  }

  ghost predicate Unique(w: seq<nat>) { forall i, j :: 0 <= i < j < |w| ==> w[i] != w[j] }

  ghost predicate WindowsOk(c: Config, n: Node) {
    && n.windows.Keys == n.seen.Keys
    && forall p :: p in n.windows ==> WindowOk(c, n.windows[p], n.seen[p])
  }

  lemma CleanupKeepsWindows(c: Config, n: Node, p: Addr)
    requires WindowsOk(c, n)
    ensures WindowsOk(c, Cleanup(n, p))
  {
    var m := Cleanup(n, p);
    assert m.windows.Keys == n.windows.Keys - {p} && m.seen.Keys == n.seen.Keys - {p};
  }

  lemma PeersBesideWindows(c: Config, n: Node, peers: seq<Addr>)
    requires WindowsOk(c, n)
    ensures WindowsOk(c, n.(peers := peers))
  {}

  /** A new number enters the window; the oldest ones leave it. */
  method Slide(c: Config, window: seq<nat>, numbers: set<nat>, q: nat) returns (w: seq<nat>, s: set<nat>)
    requires c.Valid() && WindowOk(c, window, numbers) && q !in numbers
    ensures w == Last(window + [q], c.dedupWindow) && s == Elements(w) && WindowOk(c, w, s)
  {
    hide Elements, Unique;
    AddNewest(window, q);
    w, s := window + [q], numbers + {q};
    ghost var full := w;
    while |w| > c.dedupWindow
      invariant 0 < |w| <= |full| && w == full[|full| - |w|..] && s == Elements(w) && Unique(w)
      invariant |w| < |full| ==> |w| >= c.dedupWindow
      decreases |w|
    {
      DropOldest(w);
      assert w[1..] == full[|full| - |w| + 1..];
      s := s - {w[0]};
      w := w[1..];
    }
  }

  lemma AddNewest(w: seq<nat>, q: nat)
    requires Unique(w) && q !in Elements(w)
    ensures Unique(w + [q]) && Elements(w + [q]) == Elements(w) + {q}
  {}

  lemma DropOldest(w: seq<nat>)
    requires Unique(w) && w != []
    ensures Unique(w[1..]) && Elements(w[1..]) == Elements(w) - {w[0]}
  {
    assert forall i :: 0 < i < |w| ==> w[i] != w[0];
    assert w == [w[0]] + w[1..];
  }

  method ResendAll(c: Config, m: PendingMap, toRetry: set<nat>, now: int) returns (r: PendingMap)
    requires forall q :: q in toRetry ==> q in m && Resends(c, m[q], now)
    ensures r.Keys == m.Keys
    ensures forall q :: q in m ==> r[q] == if q in toRetry then Retried(c, m[q], now) else m[q]
  {
    r := m;
    var todo := toRetry;
    while todo != {}
      invariant todo <= toRetry && r.Keys == m.Keys
      invariant forall q :: q in m ==> r[q] == if q in toRetry - todo then Retried(c, m[q], now) else m[q]
      decreases todo
    {
      var q :| q in todo;
      var k := r[q].retries + 1;
      r := r[q := r[q].(retries := k, nextRetry := now + Backoff(c, k))];
      todo := todo - {q};
    }
  }

  method RemoveAll(m: PendingMap, toRemove: set<nat>) returns (r: PendingMap)
    requires toRemove <= m.Keys
    ensures r.Keys == m.Keys - toRemove && |r| == |m| - |toRemove|
    ensures forall q :: q in r ==> r[q] == m[q]
  {
    r := m;
    var todo := toRemove;
    while todo != {}
      invariant todo <= toRemove && r.Keys == m.Keys - (toRemove - todo)
      invariant |r| == |m| - (|toRemove| - |todo|)
      invariant forall q :: q in r ==> r[q] == m[q]
      decreases todo
    {
      var q :| q in todo;
      assert (r - {q}).Keys == r.Keys - {q};
      r := r - {q};
      todo := todo - {q};
    }
  }

  /** Classify one peer's pending packets, resend the due ones, remove the exhausted ones. */
  method RetryEntries(c: Config, m: PendingMap, now: int) returns (after: PendingMap, resent: set<nat>, expired: nat)
    ensures after == RetryMap(c, m, now) && expired == |m| - |after|
    ensures resent == Resent(c, m, now) && RetryResult(c, m, now, after, resent)
  {
    hide Backoff, RetryResult;
    RetryMeaning(c, m, now);
    resent := Resent(c, m, now);
    var toRemove := Exhausted(c, m, now);
    var sent := ResendAll(c, m, resent, now);
    SameSize(sent, m);
    after := RemoveAll(sent, toRemove);
    expired := |toRemove|;
    RetryMapIs(c, m, sent, after, now);
  }

  function Resent(c: Config, m: PendingMap, now: int): set<nat> { set q | q in m && Resends(c, m[q], now) }
  function Exhausted(c: Config, m: PendingMap, now: int): set<nat> { set q | q in m && Expires(c, m[q], now) }

  /** Before its time a packet stays as it is; at its time it is resent and rescheduled by the timeout
      doubled for each retry up to the third, or dropped if no retry is left. */
  ghost predicate RetryResult(c: Config, m: PendingMap, now: int, after: PendingMap, resent: set<nat>) {
    && after.Keys <= m.Keys && resent <= m.Keys
    && forall q :: q in m ==>
         && (now < m[q].nextRetry ==> q in after && after[q] == m[q] && q !in resent)
         && (now >= m[q].nextRetry && m[q].retries < c.maxRetries ==>
               && q in after && q in resent
               && after[q] == m[q].(retries := m[q].retries + 1,
                                    nextRetry := now + c.ackTimeout * Pow2(Min(m[q].retries + 1, 3))))
         && (now >= m[q].nextRetry && m[q].retries >= c.maxRetries ==> q !in after && q !in resent)
  }

  lemma RetryMeaning(c: Config, m: PendingMap, now: int)
    ensures RetryResult(c, m, now, RetryMap(c, m, now), Resent(c, m, now))
  {
    hide Backoff;
    forall q | q in m ensures Backoff(c, m[q].retries + 1) == c.ackTimeout * Pow2(Min(m[q].retries + 1, 3)) {
      BackoffDoubles(c, m[q].retries + 1);
    }
  }

  lemma BackoffDoubles(c: Config, k: nat)
    ensures Backoff(c, k) == c.ackTimeout * Pow2(Min(k, 3))
  {
    assert Pow2(1) == 2 && Pow2(2) == 4 && Pow2(3) == 8;
  }

  lemma RetryMapIs(c: Config, m: PendingMap, sent: PendingMap, after: PendingMap, now: int)
    requires sent.Keys == m.Keys && after.Keys == m.Keys - Exhausted(c, m, now)
    requires forall q :: q in m ==> sent[q] == if q in Resent(c, m, now) then Retried(c, m[q], now) else m[q]
    requires forall q :: q in after ==> after[q] == sent[q]
    ensures after == RetryMap(c, m, now)
  {
    assert after.Keys == RetryMap(c, m, now).Keys;
  }

  lemma SameSize(a: PendingMap, b: PendingMap)
    requires a.Keys == b.Keys
    ensures |a| == |b|
  {
    assert |a| == |a.Keys| && |b| == |b.Keys|;
  }

  /** The module as the source runs it. */
  class GossipProtocol {
    const config: Config
    var peers: seq<Addr>
    var peerSet: set<Addr>
    var counters: map<Addr, nat>
    var pending: map<Addr, PendingMap>
    var windows: map<Addr, seq<nat>>
    var seen: map<Addr, set<nat>>
    var pendingCount: int

    ghost function State(): Node reads this {
      Node(peers, counters, pending, windows, seen, pendingCount)
    }

    ghost predicate Valid() reads this {
      config.Valid() && WindowsOk(config, State()) && peerSet == Elements(peers)
    }

    constructor (config: Config, peers: seq<Addr>)
      requires config.Valid()
      ensures Valid() && this.config == config && State() == Node(peers, map[], map[], map[], map[], 0)
    {
      this.config, this.peers, this.peerSet := config, peers, Elements(peers);
      counters, pending, windows, seen, pendingCount := map[], map[], map[], map[], 0;
    }

    method NextSeqNum(p: Addr) returns (q: nat)
      modifies this`counters
      ensures (counters, q) == NextSeq(old(counters), peers, p)
      ensures p in old(counters) ==> q == (old(counters)[p] + 1) % 0x1_0000_0000
      ensures p !in old(counters) && |old(counters)| < 10000 ==> q == 1
      ensures p in old(counters) || |old(counters)| < 10000 ==> counters == old(counters)[p := q]
      ensures p !in old(counters) && |old(counters)| >= 10000 ==>
                var kept := map a | a in old(counters) && a in peers :: old(counters)[a];
                if |kept| < 10000 then q == 1 && counters == kept[p := 1] else q == 0 && counters == kept
    {
      if p in counters {
        q := (counters[p] + 1) % UINT32;
        counters := counters[p := q];
        return;
      }
      if |counters| >= MAX_DEDUP_PEERS {
        var todo: set<Addr> := counters.Keys;
        while todo != {}
          modifies this`counters
          invariant todo <= counters.Keys <= old(counters).Keys
          invariant forall a :: a in counters ==> counters[a] == old(counters)[a]
          invariant forall a :: a in old(counters) && a !in todo ==> (a in counters <==> a in peers)
          decreases todo
        {
          var a :| a in todo;
          if a !in peers { counters := counters - {a}; }
          todo := todo - {a};
        }
        assert counters.Keys == Evict(old(counters), peers).Keys;
        assert counters == Evict(old(counters), peers) == map a | a in old(counters) && a in peers :: old(counters)[a];
        if |counters| >= MAX_DEDUP_PEERS { return 0; }
      }
      counters := counters[p := 1];
      q := 1;
    }

    method SendTo(p: Addr, packet: Packet, now: int, tag: nat) returns (q: nat)
      requires Valid()
      modifies this
      ensures Valid() && (State(), q) == Send(config, old(State()), p, packet, now, tag)
    {
      q := NextSeqNum(p);
      if pendingCount < MAX_PENDING_ACKS {
        var entry := Pending(packet, now + config.ackTimeout, 0, now, tag);
        pending := pending[p := PendingOf(pending, p)[q := entry]];
        pendingCount := pendingCount + 1;
      }
    }

    method OnAck(p: Addr, q: nat)
      requires Valid()
      modifies this
      ensures Valid() && State() == HandleAck(old(State()), p, q)
      ensures p in pending ==> q !in pending[p]
      ensures forall o :: o != p ==> (o in pending <==> o in old(pending)) && (o in pending ==> pending[o] == old(pending)[o])
      ensures p in old(pending) && old(pending)[p].Keys != {q} ==> p in pending && pending[p] == old(pending)[p] - {q}
      ensures p in pending ==> p in old(pending) && old(pending)[p].Keys != {q}
      ensures pendingCount == old(pendingCount) - if p in old(pending) && q in old(pending)[p] then 1 else 0
    {
      if p !in pending { return; }
      if q !in pending[p] {
        assert pending[p] - {q} == pending[p];
        return;
      }
      var rest := pending[p] - {q};
      assert rest.Keys == pending[p].Keys - {q} && (rest.Keys == {} ==> rest == map[]);
      pendingCount := pendingCount - 1;
      if rest == map[] {
        assert pending[p].Keys == {q};
        pending := pending - {p};
      } else {
        pending := pending[p := rest];
      }
    }

    method IsDuplicate(p: Addr, q: nat) returns (duplicate: bool)
      requires Valid()
      modifies this
      ensures Valid() && (State(), duplicate) == Accept(config, old(State()), p, q)
      ensures duplicate <==> p in old(windows) && q in old(windows)[p]
      ensures duplicate || (p !in old(windows) && |old(windows)| >= 10000) ==> windows == old(windows)
      ensures !duplicate && (p in old(windows) || |old(windows)| < 10000) ==>
                windows == old(windows)[p := Last((if p in old(windows) then old(windows)[p] else []) + [q], config.dedupWindow)]
    {
      if p in seen {
        if q in seen[p] { return true; }
        var w, s := Slide(config, windows[p], seen[p], q);
        windows, seen := windows[p := w], seen[p := s];
        return false;
      }
      assert |seen| == |seen.Keys| && |windows| == |windows.Keys|;
      if |seen| >= MAX_DEDUP_PEERS { return false; }
      assert Last([] + [q], config.dedupWindow) == [q];
      seen, windows := seen[p := {q}], windows[p := [q]];
      return false;
    }

    method OnPacket(p: Addr, q: nat, packet: Packet, reject: bool) returns (reaction: Reaction)
      requires Valid()
      modifies this
      ensures Valid() && (State(), reaction) == Receive(config, old(State()), p, q, packet, reject)
      ensures reaction == Ignored <==> p !in peers
      ensures reaction == AckAndDeliver <==>
                p in peers && !(p in old(windows) && q in old(windows)[p]) && !(packet.Route? && reject)
    {
      if p !in peerSet { return Ignored; }
      var duplicate := IsDuplicate(p, q);
      if duplicate { return AckOnly; }
      if packet.Route? && reject { return AckOnly; }
      return AckAndDeliver;
    }

    /** One peer's block of process_retries: classify, resend, remove. */
    method RetryPeer(p: Addr, now: int) returns (resent: set<nat>)
      requires Valid() && p in pending
      modifies this
      ensures Valid() && State() == RetryBlock(config, old(State()), p, now)
      ensures resent == Resent(config, old(pending)[p], now)
      ensures p in pending && RetryResult(config, old(pending)[p], now, pending[p], resent)
    {
      hide RetryMap, RetryResult;
      var after, expired;
      after, resent, expired := RetryEntries(config, pending[p], now);
      pendingCount := pendingCount - expired;
      pending := pending[p := after];
    }

    method SweepEmpty()
      requires Valid()
      modifies this
      ensures Valid() && State() == Sweep(old(State()))
    {
      var todo: set<Addr> := pending.Keys;
      while todo != {}
        modifies this`pending
        invariant todo <= pending.Keys <= old(pending).Keys
        invariant forall p :: p in pending ==> pending[p] == old(pending)[p]
        invariant forall p :: p in old(pending) && p !in todo ==> (p in pending <==> old(pending)[p] != map[])
        decreases todo
      {
        var p :| p in todo;
        if pending[p] == map[] { pending := pending - {p}; }
        todo := todo - {p};
      }
      assert pending.Keys == NonEmpty(old(pending)).Keys;
      assert pending == NonEmpty(old(pending));
    }

    method CleanupPeerState(p: Addr)
      requires Valid()
      modifies this`pending, this`pendingCount, this`counters, this`windows, this`seen
      ensures Valid() && State() == Cleanup(old(State()), p)
    {
      hide WindowsOk, Elements, PendingOf;
      CleanupKeepsWindows(config, State(), p);
      pendingCount := pendingCount - |PendingOf(pending, p)|;
      pending, counters, windows, seen := pending - {p}, counters - {p}, windows - {p}, seen - {p};
      assert State() == Cleanup(old(State()), p);
    }

    method RefreshPeers(statics: seq<Addr>, discovered: seq<Addr>)
      requires Valid()
      modifies this
      ensures Valid() && State() == Refresh(old(State()), statics, discovered)
    {
      hide WindowsOk, Elements, Cleanup, Distinct, Take;
      if discovered == [] { return; }
      var next, _ := MergeAndCap(statics, discovered, MAX_PEERS);
      ghost var was := State();
      for i := 0 to |peers|
        invariant Valid() && peers == was.peers
        invariant State() == CleanupAll(was, Gone(peers[..i], next))
      {
        assert peers[..i + 1][..i] == peers[..i];
        if peers[i] !in next {
          ghost var gone := Gone(peers[..i], next);
          assert (gone + [peers[i]])[..|gone|] == gone;
          CleanupPeerState(peers[i]);
        }
      }
      assert peers[..|peers|] == peers;
      PeersBesideWindows(config, State(), next);
      peers, peerSet := next, Elements(next);
    }

    method ClearPendingAcks()
      requires Valid()
      modifies this
      ensures Valid() && State() == ClearPending(old(State()))
    {
      pending, pendingCount := map[], 0;
    }
  }
}
