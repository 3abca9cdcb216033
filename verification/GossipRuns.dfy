/** Every run of one node under an arbitrary environment: acknowledgements and packets may
    arrive at any time, in any order and any number of times. */
module GossipRuns {
  import opened Common
  import opened PeerMerge
  import opened GossipNode
  import opened Sums

  /** `passes` is when each peer's retry block last ran; `history` lists the numbers accepted
      from each peer since its state was last cleaned; `sentTags` counts the transmissions of
      every tracked packet. */
  datatype Local = Local(
    node: Node, clock: int, passes: map<Addr, int>,
    history: map<Addr, seq<nat>>, sentTags: multiset<nat>, nextTag: nat)

  datatype Event =
    | SendTo(p: Addr, packet: Packet)
    | Ack(p: Addr, q: nat)
    | Packet(p: Addr, q: nat, packet: Packet, reject: bool)
    | RetryPass(p: Addr)
    | SweepEmpty
    | RefreshPeers(statics: seq<Addr>, discovered: seq<Addr>)
    | ClearAcks
    | Tick(elapsed: nat)

  function Init(peers: seq<Addr>): Local {
    Local(Node(peers, map[], map[], map[], map[], 0), 0, map[], map[], multiset{}, 0)
  }

  function LastPass(l: Local, p: Addr): int { if p in l.passes then l.passes[p] else 0 }

  function HistoryOf(l: Local, p: Addr): seq<nat> { if p in l.history then l.history[p] else [] }

  function ResentTags(c: Config, m: PendingMap, now: int): set<nat> {
    set q | q in m && Resends(c, m[q], now) :: m[q].tag
  }

  /** Fewer than 2^32 sends per peer; time never runs more than `d` past a retry pass over a
      peer that has packets pending. */
  predicate Enabled(d: nat, l: Local, e: Event) {
    match e
    case SendTo(p, _) => p in l.node.peers && (p in l.node.counters ==> l.node.counters[p] + 1 < UINT32)
    case Tick(t) => forall p :: p in l.node.pending ==> l.clock + t <= LastPass(l, p) + d
    case _ => true
  }

  function Next(c: Config, l: Local, e: Event): Local {
    var n := l.node;
    match e
    case SendTo(p, packet) =>
      var tracked := n.pendingCount < MAX_PENDING_ACKS;
      l.(node := Send(c, n, p, packet, l.clock, l.nextTag).0,
         sentTags := if tracked then l.sentTags + multiset{l.nextTag} else l.sentTags,
         nextTag := if tracked then l.nextTag + 1 else l.nextTag)
    case Ack(p, q) => if p in n.peers then l.(node := HandleAck(n, p, q)) else l
    case Packet(p, q, packet, reject) =>
      if p !in n.peers then l
      else
        var (m, duplicate) := Accept(c, n, p, q);
        l.(node := m, history := if duplicate then l.history else l.history[p := HistoryOf(l, p) + [q]])
    case RetryPass(p) =>
      l.(node := RetryBlock(c, n, p, l.clock), passes := l.passes[p := l.clock],
         sentTags := l.sentTags + multiset(ResentTags(c, PendingOf(n.pending, p), l.clock)))
    case SweepEmpty => l.(node := Sweep(n))
    case RefreshPeers(statics, discovered) =>
      var m := Refresh(n, statics, discovered);
      l.(node := m, history := map p | p in l.history && p in m.peers :: l.history[p])
    case ClearAcks => l.(node := ClearPending(n))
    case Tick(t) => l.(clock := l.clock + t)
  }

  function Step(c: Config, d: nat, l: Local, e: Event): Local {
    if Enabled(d, l, e) then Next(c, l, e) else l
  }

  function Run(c: Config, d: nat, l: Local, trace: seq<Event>): Local {
    if trace == [] then l else Step(c, d, Run(c, d, l, trace[..|trace| - 1]), trace[|trace| - 1])
  }

  // ---- Sums over the pending maps ----

  function Sizes(m: map<Addr, PendingMap>): map<nat, nat> { map p | p in m :: |m[p]| }

  /** The number of packets pending over all peers. */
  ghost function Total(m: map<Addr, PendingMap>): nat { Sum(Sizes(m)) }

  lemma TotalRemove(m: map<Addr, PendingMap>, p: Addr)
    ensures Total(m - {p}) == Total(m) - |PendingOf(m, p)|
  {
    SumRemove(Sizes(m), p);
    assert Sizes(m - {p}) == Sizes(m) - {p};
  }

  lemma TotalUpdate(m: map<Addr, PendingMap>, p: Addr, v: PendingMap)
    ensures Total(m[p := v]) == Total(m) - |PendingOf(m, p)| + |v|
  {
    SumUpdate(Sizes(m), p, |v|);
    assert Sizes(m[p := v]) == Sizes(m)[p := |v|];
  }

  lemma TotalSweep(m: map<Addr, PendingMap>)
    ensures Total(NonEmpty(m)) == Total(m)
  {
    SumNonZero(Sizes(m));
    assert Sizes(NonEmpty(m)) == NonZero(Sizes(m));
  }

  // ---- Invariants ----

  /** Per-peer state exists only for current peers, and every pending number was issued. */
  ghost predicate Shape(n: Node) {
    && |Elements(n.peers)| <= MAX_PEERS
    && n.pending.Keys <= n.counters.Keys <= Elements(n.peers)
    && n.seen.Keys <= Elements(n.peers)
    && (forall p :: p in n.counters ==> n.counters[p] < UINT32)
    && forall p :: p in n.pending ==> AtMost(n.pending[p], n.counters[p])
  }

  ghost predicate AtMost(m: PendingMap, bound: nat) { forall q :: q in m ==> q <= bound }

  ghost predicate Counted(n: Node) {
    n.pendingCount == Total(n.pending) && n.pendingCount <= MAX_PENDING_ACKS
  }

  ghost predicate Deduped(c: Config, n: Node, history: map<Addr, seq<nat>>) {
    && history.Keys == n.windows.Keys == n.seen.Keys
    && forall p :: p in history ==> PeerDeduped(c, n.windows[p], n.seen[p], history[p])
  }

  ghost predicate PeerDeduped(c: Config, w: seq<nat>, seen: set<nat>, h: seq<nat>) {
    WindowOk(c, w, seen) && w == Last(h, c.dedupWindow)
  }

  lemma KeysFit(n: Node)
    requires Shape(n)
    ensures |n.counters| <= MAX_PEERS && |n.seen| <= MAX_PEERS
  {
    SubsetSize(n.counters.Keys, Elements(n.peers));
    SubsetSize(n.seen.Keys, Elements(n.peers));
  }

  /** The number the next send to p carries. */
  function Issue(n: Node, p: Addr): nat { if p in n.counters then n.counters[p] + 1 else 1 }

  /** The cap in next_seq_num is never met, and numbers go up by one. */
  lemma NextSeqIsNext(n: Node, p: Addr)
    requires Shape(n) && p in n.peers && (p in n.counters ==> n.counters[p] + 1 < UINT32)
    ensures NextSeq(n.counters, n.peers, p) ==
            (n.counters[p := Issue(n, p)], Issue(n, p))
  {
    KeysFit(n);
    if p in n.counters { SmallMod(n.counters[p] + 1, UINT32); }
  }

  lemma SmallMod(x: nat, m: nat)
    requires x < m
    ensures x % m == x
  {}

  function Track(n: Node, p: Addr, q: nat, e: Pending): Node {
    n.(counters := n.counters[p := q],
       pending := n.pending[p := PendingOf(n.pending, p)[q := e]], pendingCount := n.pendingCount + 1)
  }

  /** Under the invariant a send is a plain counter step and, below the limit, one new entry. */
  lemma SendMeaning(c: Config, n: Node, p: Addr, packet: Packet, now: int, tag: nat)
    requires Shape(n) && p in n.peers && (p in n.counters ==> n.counters[p] + 1 < UINT32)
    ensures var q := Issue(n, p);
            Send(c, n, p, packet, now, tag) ==
            (if n.pendingCount >= MAX_PENDING_ACKS then n.(counters := n.counters[p := q])
             else Track(n, p, q, Fresh(c, packet, now, tag)), q)
  {
    NextSeqIsNext(n, p);
  }

  lemma CountStepShape(n: Node, p: Addr)
    requires Shape(n) && p in n.peers && (p in n.counters ==> n.counters[p] + 1 < UINT32)
    ensures Shape(n.(counters := n.counters[p := Issue(n, p)]))
  {}

  lemma TrackShape(n: Node, p: Addr, e: Pending)
    requires Shape(n) && p in n.peers && (p in n.counters ==> n.counters[p] + 1 < UINT32)
    ensures Shape(Track(n, p, Issue(n, p), e))
  {
    CountStepShape(n, p);
  }

  lemma TrackCounted(n: Node, p: Addr, e: Pending)
    requires Shape(n) && Counted(n) && n.pendingCount < MAX_PENDING_ACKS
    ensures Counted(Track(n, p, Issue(n, p), e))
  {
    var q, was := Issue(n, p), PendingOf(n.pending, p);
    AddSize(was, q, e);
    TotalUpdate(n.pending, p, was[q := e]);
  }

  lemma AddSize(m: PendingMap, q: nat, e: Pending)
    requires q !in m
    ensures |m[q := e]| == |m| + 1
  {
    assert m[q := e].Keys == m.Keys + {q};
  }

  lemma RemoveSize(m: PendingMap, q: nat)
    requires q in m
    ensures |m - {q}| == |m| - 1
  {
    assert (m - {q}).Keys == m.Keys - {q};
  }

  lemma AckShape(n: Node, p: Addr, q: nat)
    requires Shape(n)
    ensures Shape(HandleAck(n, p, q))
  {}

  lemma AckCounted(n: Node, p: Addr, q: nat)
    requires Counted(n)
    ensures Counted(HandleAck(n, p, q))
  {
    if p in n.pending && q in n.pending[p] {
      var rest := n.pending[p] - {q};
      RemoveSize(n.pending[p], q);
      if rest == map[] { TotalRemove(n.pending, p); } else { TotalUpdate(n.pending, p, rest); }
    }
  }

  lemma RetryKeeps(c: Config, n: Node, p: Addr, now: int)
    requires Shape(n) && Counted(n)
    ensures Shape(RetryBlock(c, n, p, now)) && Counted(RetryBlock(c, n, p, now))
  {
    if p in n.pending {
      var after := RetryMap(c, n.pending[p], now);
      SubsetSize(after.Keys, n.pending[p].Keys);
      TotalUpdate(n.pending, p, after);
    }
  }

  lemma SweepKeeps(n: Node)
    requires Shape(n) && Counted(n)
    ensures Shape(Sweep(n)) && Counted(Sweep(n))
  {
    TotalSweep(n.pending);
  }

  /** Cleaning up a list of peers removes exactly their state, and counts it off. */
  lemma {:induction false} CleanupPending(n: Node, gone: seq<Addr>)
    ensures CleanupAll(n, gone).pending == n.pending - Elements(gone)
  {
    if gone == [] {
      assert Elements(gone) == {};
    } else {
      CleanupPending(n, gone[..|gone| - 1]);
      MinusLast(n.pending, gone);
    }
  }

  lemma {:induction false} CleanupCounters(n: Node, gone: seq<Addr>)
    ensures CleanupAll(n, gone).counters == n.counters - Elements(gone)
  {
    if gone == [] {
      assert Elements(gone) == {};
    } else {
      CleanupCounters(n, gone[..|gone| - 1]);
      MinusLast(n.counters, gone);
    }
  }

  lemma {:induction false} CleanupWindows(n: Node, gone: seq<Addr>)
    ensures CleanupAll(n, gone).windows == n.windows - Elements(gone)
  {
    if gone == [] {
      assert Elements(gone) == {};
    } else {
      CleanupWindows(n, gone[..|gone| - 1]);
      MinusLast(n.windows, gone);
    }
  }

  lemma {:induction false} CleanupSeen(n: Node, gone: seq<Addr>)
    ensures CleanupAll(n, gone).seen == n.seen - Elements(gone)
  {
    if gone == [] {
      assert Elements(gone) == {};
    } else {
      CleanupSeen(n, gone[..|gone| - 1]);
      MinusLast(n.seen, gone);
    }
  }

  lemma {:induction false} CleanupCount(n: Node, gone: seq<Addr>)
    ensures var m := CleanupAll(n, gone);
            && m.peers == n.peers && m.pendingCount <= n.pendingCount
            && m.pendingCount - Total(m.pending) == n.pendingCount - Total(n.pending)
  {
    if gone != [] {
      CleanupCount(n, gone[..|gone| - 1]);
      TotalRemove(CleanupAll(n, gone[..|gone| - 1]).pending, gone[|gone| - 1]);
    }
  }

  lemma MinusLast<V>(m: map<Addr, V>, gone: seq<Addr>)
    requires gone != []
    ensures m - Elements(gone[..|gone| - 1]) - {gone[|gone| - 1]} == m - Elements(gone)
  {
    assert gone == gone[..|gone| - 1] + [gone[|gone| - 1]];
  }

  lemma {:induction false} GoneMeaning(peers: seq<Addr>, kept: seq<Addr>)
    ensures Elements(Gone(peers, kept)) == Elements(peers) - Elements(kept)
  {
    if peers != [] {
      GoneMeaning(peers[..|peers| - 1], kept);
      assert peers == peers[..|peers| - 1] + [peers[|peers| - 1]];
      var g := Gone(peers[..|peers| - 1], kept);
      assert Elements(g + [peers[|peers| - 1]]) == Elements(g) + {peers[|peers| - 1]};
    }
  }

  lemma {:induction false} ElementsSize(s: seq<Addr>)
    ensures |Elements(s)| <= |s|
  {
    if s != [] {
      ElementsSize(s[..|s| - 1]);
      assert s == s[..|s| - 1] + [s[|s| - 1]];
      assert Elements(s) == Elements(s[..|s| - 1]) + {s[|s| - 1]};
    }
  }

  lemma RefreshShape(n: Node, statics: seq<Addr>, discovered: seq<Addr>)
    requires Shape(n)
    ensures Shape(Refresh(n, statics, discovered))
  {
    if discovered != [] {
      var next := NewPeers(statics, discovered);
      var gone := Gone(n.peers, next);
      GoneMeaning(n.peers, next);
      CleanupPending(n, gone);
      CleanupCounters(n, gone);
      CleanupSeen(n, gone);
      ElementsSize(next);
    }
  }

  lemma RefreshCounted(n: Node, statics: seq<Addr>, discovered: seq<Addr>)
    requires Counted(n)
    ensures Counted(Refresh(n, statics, discovered))
  {
    if discovered != [] {
      var gone := Gone(n.peers, NewPeers(statics, discovered));
      CleanupCount(n, gone);
    }
  }

  // ---- The duplicate window is a view of the history ----

  lemma Slide(c: Config, w: seq<nat>, seen: set<nat>, h: seq<nat>, q: nat)
    requires c.Valid() && PeerDeduped(c, w, seen, h) && q !in seen
    ensures var v := Last(w + [q], c.dedupWindow); PeerDeduped(c, v, Elements(v), h + [q])
  {}

  lemma FirstWindow(c: Config, q: nat)
    requires c.Valid()
    ensures PeerDeduped(c, [q], {q}, [] + [q])
  {
    assert Elements([q]) == {q};
  }

  lemma DuplicateMeaning(c: Config, n: Node, history: map<Addr, seq<nat>>, p: Addr, q: nat)
    requires Deduped(c, n, history)
    ensures Accept(c, n, p, q).1 <==> p in history && q in Last(history[p], c.dedupWindow)
  {
    if p in history { assert PeerDeduped(c, n.windows[p], n.seen[p], history[p]); }
  }

  lemma AcceptDeduped(c: Config, n: Node, history: map<Addr, seq<nat>>, p: Addr, q: nat)
    requires c.Valid() && Shape(n) && Deduped(c, n, history) && !Accept(c, n, p, q).1
    ensures Deduped(c, Accept(c, n, p, q).0, history[p := (if p in history then history[p] else []) + [q]])
  {
    KeysFit(n);
    if p in history {
      Slide(c, n.windows[p], n.seen[p], history[p], q);
    } else {
      FirstWindow(c, q);
    }
  }

  // ---- Retries and their timing ----

  /** How long after its birth an entry's k-th retry may be due. */
  function Deadline(c: Config, d: nat, k: nat): nat {
    if k == 0 then c.ackTimeout else Deadline(c, d, k - 1) + d + Backoff(c, k)
  }

  function Multipliers(k: nat): nat { if k == 0 then 0 else Multipliers(k - 1) + Multiplier(k) }

  lemma {:induction false} DeadlineClosedForm(c: Config, d: nat, k: nat)
    ensures Deadline(c, d, k) == c.ackTimeout * (1 + Multipliers(k)) + k * d
  {
    if k != 0 {
      DeadlineClosedForm(c, d, k - 1);
      assert Backoff(c, k) == c.ackTimeout * Multiplier(k);
      assert k * d == (k - 1) * d + d;
    }
  }

  lemma BackoffPositive(c: Config, k: nat)
    requires c.Valid()
    ensures Backoff(c, k) >= 10
  {}

  ghost predicate Has(n: Node, p: Addr, q: nat) { p in n.pending && q in n.pending[p] }

  ghost function Entry(n: Node, p: Addr, q: nat): Pending
    requires Has(n, p, q)
  { n.pending[p][q] }

  ghost predicate EntryOk(c: Config, d: nat, l: Local, p: Addr, e: Pending) {
    && e.retries <= c.maxRetries && e.tag < l.nextTag && l.sentTags[e.tag] == 1 + e.retries
    && LastPass(l, p) < e.nextRetry && l.clock < e.nextRetry + d
    && e.nextRetry <= e.born + Deadline(c, d, e.retries)
  }

  ghost predicate OwnTags(n: Node) {
    forall p, q, p', q' :: Has(n, p, q) && Has(n, p', q') && Entry(n, p, q).tag == Entry(n, p', q').tag
                           ==> p == p' && q == q'
  }

  ghost predicate TagsBounded(c: Config, l: Local) {
    forall t :: l.sentTags[t] <= 1 + c.maxRetries && (t >= l.nextTag ==> l.sentTags[t] == 0)
  }

  ghost predicate Retrying(c: Config, d: nat, l: Local) {
    && 0 <= l.clock && (forall p :: p in l.passes ==> l.passes[p] <= l.clock)
    && (forall p, q :: Has(l.node, p, q) ==> EntryOk(c, d, l, p, Entry(l.node, p, q)))
    && OwnTags(l.node)
    && TagsBounded(c, l)
  }

  /** Removing entries, and nothing else, keeps the retry invariant. */
  lemma Fewer(c: Config, d: nat, l: Local, m: Local)
    requires Retrying(c, d, l)
    requires m.clock == l.clock && m.passes == l.passes && m.sentTags == l.sentTags && m.nextTag == l.nextTag
    requires forall p, q :: Has(m.node, p, q) ==> Has(l.node, p, q) && Entry(m.node, p, q) == Entry(l.node, p, q)
    ensures Retrying(c, d, m)
  {}

  lemma SendRetrying(c: Config, d: nat, l: Local, p: Addr, q: nat, packet: Packet)
    requires c.Valid() && Retrying(c, d, l) && !Has(l.node, p, q)
    ensures var m := Track(l.node, p, q, Fresh(c, packet, l.clock, l.nextTag));
            Retrying(c, d, l.(node := m, sentTags := l.sentTags + multiset{l.nextTag}, nextTag := l.nextTag + 1))
  {
    var m := Track(l.node, p, q, Fresh(c, packet, l.clock, l.nextTag));
    forall a, b | Has(m, a, b) && (a != p || b != q)
      ensures Has(l.node, a, b) && Entry(m, a, b) == Entry(l.node, a, b)
    {}
    assert LastPass(l, p) <= l.clock;
  }

  lemma TickRetrying(c: Config, d: nat, l: Local, t: nat)
    requires Retrying(c, d, l) && Enabled(d, l, Tick(t))
    ensures Retrying(c, d, l.(clock := l.clock + t))
  {}

  function PassDone(c: Config, l: Local, p: Addr): Local {
    l.(node := RetryBlock(c, l.node, p, l.clock), passes := l.passes[p := l.clock],
       sentTags := l.sentTags + multiset(ResentTags(c, PendingOf(l.node.pending, p), l.clock)))
  }

  lemma RetriedOk(c: Config, d: nat, l: Local, p: Addr, q: nat)
    requires c.Valid() && Retrying(c, d, l) && Has(l.node, p, q) && !Expires(c, Entry(l.node, p, q), l.clock)
    ensures EntryOk(c, d, PassDone(c, l, p), p, Retried(c, Entry(l.node, p, q), l.clock))
  {
    var e, m := Entry(l.node, p, q), l.node.pending[p];
    assert EntryOk(c, d, l, p, e);
    BackoffPositive(c, e.retries + 1);
    if e.tag in ResentTags(c, m, l.clock) {
      var r :| r in m && Resends(c, m[r], l.clock) && m[r].tag == e.tag;
      assert Has(l.node, p, r);
    }
  }

  lemma OtherOk(c: Config, d: nat, l: Local, p: Addr, a: Addr, b: nat)
    requires Retrying(c, d, l) && a != p && Has(l.node, a, b)
    ensures EntryOk(c, d, PassDone(c, l, p), a, Entry(l.node, a, b))
  {
    var e, m := Entry(l.node, a, b), PendingOf(l.node.pending, p);
    assert EntryOk(c, d, l, a, e);
    if e.tag in ResentTags(c, m, l.clock) {
      var r :| r in m && Resends(c, m[r], l.clock) && m[r].tag == e.tag;
      assert Has(l.node, p, r);
    }
  }

  lemma PassTags(c: Config, d: nat, l: Local, p: Addr)
    requires Retrying(c, d, l)
    ensures TagsBounded(c, PassDone(c, l, p))
  {
    var m := PendingOf(l.node.pending, p);
    forall t | t in ResentTags(c, m, l.clock)
      ensures l.sentTags[t] <= c.maxRetries && t < l.nextTag
    {
      var r :| r in m && Resends(c, m[r], l.clock) && m[r].tag == t;
      assert Has(l.node, p, r) && EntryOk(c, d, l, p, Entry(l.node, p, r));
    }
  }

  lemma PassRetrying(c: Config, d: nat, l: Local, p: Addr)
    requires c.Valid() && Retrying(c, d, l)
    ensures Retrying(c, d, PassDone(c, l, p))
  {
    var m := PassDone(c, l, p);
    PassTags(c, d, l, p);
    forall a, b | Has(m.node, a, b)
      ensures Has(l.node, a, b) && EntryOk(c, d, m, a, Entry(m.node, a, b))
      ensures Entry(m.node, a, b).tag == Entry(l.node, a, b).tag
    {
      if a == p { RetriedOk(c, d, l, p, b); } else { OtherOk(c, d, l, p, a, b); }
    }
  }

  // ---- Every step keeps everything ----

  ghost predicate Inv(c: Config, d: nat, l: Local) {
    Shape(l.node) && Counted(l.node) && Deduped(c, l.node, l.history) && Retrying(c, d, l)
  }

  lemma SendInv(c: Config, d: nat, l: Local, p: Addr, packet: Packet)
    requires c.Valid() && Inv(c, d, l) && Enabled(d, l, SendTo(p, packet))
    ensures Inv(c, d, Next(c, l, SendTo(p, packet)))
  {
    var n, q, e := l.node, Issue(l.node, p), Fresh(c, packet, l.clock, l.nextTag);
    SendMeaning(c, n, p, packet, l.clock, l.nextTag);
    CountStepShape(n, p);
    if n.pendingCount < MAX_PENDING_ACKS {
      TrackShape(n, p, e);
      TrackCounted(n, p, e);
      assert !Has(n, p, q);
      SendRetrying(c, d, l, p, q, packet);
    } else {
      Fewer(c, d, l, l.(node := n.(counters := n.counters[p := q])));
    }
  }

  lemma PacketInv(c: Config, d: nat, l: Local, p: Addr, q: nat, packet: Packet, reject: bool)
    requires c.Valid() && Inv(c, d, l)
    ensures Inv(c, d, Next(c, l, Packet(p, q, packet, reject)))
  {
    if p in l.node.peers {
      var m := Accept(c, l.node, p, q).0;
      KeysFit(l.node);
      if !Accept(c, l.node, p, q).1 { AcceptDeduped(c, l.node, l.history, p, q); }
      Fewer(c, d, l, Next(c, l, Packet(p, q, packet, reject)));
    }
  }

  lemma RefreshRemoves(n: Node, statics: seq<Addr>, discovered: seq<Addr>)
    requires Shape(n)
    ensures var m := Refresh(n, statics, discovered);
            && (forall p :: p in m.pending ==> p in n.pending && m.pending[p] == n.pending[p])
            && m.windows.Keys == n.windows.Keys - (Elements(n.peers) - Elements(m.peers))
            && m.seen.Keys == n.seen.Keys - (Elements(n.peers) - Elements(m.peers))
            && (forall p :: p in m.windows ==> m.windows[p] == n.windows[p])
            && (forall p :: p in m.seen ==> m.seen[p] == n.seen[p])
  {
    if discovered != [] {
      var next := NewPeers(statics, discovered);
      var gone := Gone(n.peers, next);
      GoneMeaning(n.peers, next);
      CleanupPending(n, gone);
      CleanupWindows(n, gone);
      CleanupSeen(n, gone);
    }
  }

  lemma RefreshDeduped(c: Config, l: Local, statics: seq<Addr>, discovered: seq<Addr>)
    requires Shape(l.node) && Deduped(c, l.node, l.history)
    ensures var m := Refresh(l.node, statics, discovered);
            Deduped(c, m, map p | p in l.history && p in m.peers :: l.history[p])
  {
    RefreshRemoves(l.node, statics, discovered);
    var m := Refresh(l.node, statics, discovered);
    var h := map p | p in l.history && p in m.peers :: l.history[p];
    assert h.Keys == m.windows.Keys;
    forall p | p in h ensures PeerDeduped(c, m.windows[p], m.seen[p], h[p]) {
      assert PeerDeduped(c, l.node.windows[p], l.node.seen[p], l.history[p]);
    }
  }

  lemma RefreshInv(c: Config, d: nat, l: Local, statics: seq<Addr>, discovered: seq<Addr>)
    requires Inv(c, d, l)
    ensures Inv(c, d, Next(c, l, RefreshPeers(statics, discovered)))
  {
    RefreshShape(l.node, statics, discovered);
    RefreshCounted(l.node, statics, discovered);
    RefreshDeduped(c, l, statics, discovered);
    RefreshRemoves(l.node, statics, discovered);
    Fewer(c, d, l, Next(c, l, RefreshPeers(statics, discovered)));
  }

  lemma RetryInv(c: Config, d: nat, l: Local, p: Addr)
    requires c.Valid() && Inv(c, d, l)
    ensures Inv(c, d, Next(c, l, RetryPass(p)))
  {
    RetryKeeps(c, l.node, p, l.clock);
    PassRetrying(c, d, l, p);
    assert Next(c, l, RetryPass(p)) == PassDone(c, l, p);
  }

  lemma AckInv(c: Config, d: nat, l: Local, p: Addr, q: nat)
    requires Inv(c, d, l)
    ensures Inv(c, d, Next(c, l, Ack(p, q)))
  {
    hide Shape, Counted, Deduped, Retrying;
    AckShape(l.node, p, q);
    AckCounted(l.node, p, q);
    SameWindows(c, l.node, HandleAck(l.node, p, q), l.history);
    Fewer(c, d, l, l.(node := HandleAck(l.node, p, q)));
  }

  lemma SweepInv(c: Config, d: nat, l: Local)
    requires Inv(c, d, l)
    ensures Inv(c, d, Next(c, l, SweepEmpty))
  {
    hide Shape, Counted, Deduped, Retrying;
    SweepKeeps(l.node);
    SameWindows(c, l.node, Sweep(l.node), l.history);
    Fewer(c, d, l, l.(node := Sweep(l.node)));
  }

  lemma ClearInv(c: Config, d: nat, l: Local)
    requires Inv(c, d, l)
    ensures Inv(c, d, Next(c, l, ClearAcks))
  {
    hide Shape, Counted, Deduped, Retrying;
    ClearKeeps(l.node);
    SameWindows(c, l.node, ClearPending(l.node), l.history);
    Fewer(c, d, l, l.(node := ClearPending(l.node)));
  }

  lemma ClearKeeps(n: Node)
    requires Shape(n)
    ensures Shape(ClearPending(n)) && Counted(ClearPending(n))
  {
    assert Sizes(map[]) == map[];
  }

  lemma SameWindows(c: Config, n: Node, m: Node, history: map<Addr, seq<nat>>)
    requires Deduped(c, n, history) && m.windows == n.windows && m.seen == n.seen
    ensures Deduped(c, m, history)
  {}

  lemma NextInv(c: Config, d: nat, l: Local, e: Event)
    requires c.Valid() && Inv(c, d, l) && Enabled(d, l, e)
    ensures Inv(c, d, Next(c, l, e))
  {
    match e
    case SendTo(p, packet) => SendInv(c, d, l, p, packet);
    case Packet(p, q, packet, reject) => PacketInv(c, d, l, p, q, packet, reject);
    case RefreshPeers(statics, discovered) => RefreshInv(c, d, l, statics, discovered);
    case RetryPass(p) => RetryInv(c, d, l, p);
    case Tick(t) => TickRetrying(c, d, l, t);
    case Ack(p, q) => AckInv(c, d, l, p, q);
    case SweepEmpty => SweepInv(c, d, l);
    case ClearAcks => ClearInv(c, d, l);
  }

  lemma {:induction false} RunInvariant(c: Config, d: nat, peers: seq<Addr>, trace: seq<Event>)
    requires c.Valid() && |Elements(peers)| <= MAX_PEERS
    ensures Inv(c, d, Run(c, d, Init(peers), trace))
  {
    if trace == [] {
      assert Sizes(map[]) == map[];
    } else {
      var l := Run(c, d, Init(peers), trace[..|trace| - 1]);
      RunInvariant(c, d, peers, trace[..|trace| - 1]);
      if Enabled(d, l, trace[|trace| - 1]) { NextInv(c, d, l, trace[|trace| - 1]); }
    }
  }

  // ---- Results over every run ----

  /** The pending counter is exact and capped in every reachable state. */
  lemma PendingCountExact(c: Config, d: nat, peers: seq<Addr>, trace: seq<Event>)
    requires c.Valid() && |Elements(peers)| <= MAX_PEERS
    ensures var n := Run(c, d, Init(peers), trace).node;
            n.pendingCount == Total(n.pending) && 0 <= n.pendingCount <= MAX_PENDING_ACKS
  {
    RunInvariant(c, d, peers, trace);
  }

  /** The capacity branches of next_seq_num and is_duplicate are never taken: numbers count
      up from one, and every number that is not a duplicate enters the window. */
  lemma OverflowUnreachable(c: Config, d: nat, peers: seq<Addr>, trace: seq<Event>, p: Addr, q: nat)
    requires c.Valid() && |Elements(peers)| <= MAX_PEERS
    ensures var l := Run(c, d, Init(peers), trace);
            p in l.node.peers ==>
              && (Enabled(d, l, SendTo(p, Eviction(0, 0))) ==>
                    NextSeq(l.node.counters, l.node.peers, p).1 == Issue(l.node, p) >= 1)
              && p in Accept(c, l.node, p, q).0.seen && q in Accept(c, l.node, p, q).0.seen[p]
  {
    RunInvariant(c, d, peers, trace);
    var l := Run(c, d, Init(peers), trace);
    if p in l.node.peers {
      if Enabled(d, l, SendTo(p, Eviction(0, 0))) { NextSeqIsNext(l.node, p); }
      AcceptRecords(c, l.node, l.history, p, q);
    }
  }

  lemma AcceptRecords(c: Config, n: Node, history: map<Addr, seq<nat>>, p: Addr, q: nat)
    requires c.Valid() && Shape(n) && Deduped(c, n, history)
    ensures var m := Accept(c, n, p, q).0; p in m.seen && q in m.seen[p]
  {
    KeysFit(n);
    if p in history && q !in n.seen[p] {
      var w := Last(n.windows[p] + [q], c.dedupWindow);
      assert w[|w| - 1] == q;
    }
  }

  /** A number is judged a duplicate exactly when it is among the last `dedupWindow` accepted
      from that peer since its state was cleaned; the set and the deque never disagree. */
  lemma DuplicateIffRecent(c: Config, d: nat, peers: seq<Addr>, trace: seq<Event>, p: Addr, q: nat)
    requires c.Valid() && |Elements(peers)| <= MAX_PEERS
    ensures var l := Run(c, d, Init(peers), trace);
            && (Accept(c, l.node, p, q).1 <==> q in Last(HistoryOf(l, p), c.dedupWindow))
            && WindowsOk(c, l.node)
  {
    RunInvariant(c, d, peers, trace);
    var l := Run(c, d, Init(peers), trace);
    DuplicateMeaning(c, l.node, l.history, p, q);
    forall a | a in l.node.windows ensures WindowOk(c, l.node.windows[a], l.node.seen[a]) {
      assert PeerDeduped(c, l.node.windows[a], l.node.seen[a], l.history[a]);
    }
  }

  /** Every tracked packet is transmitted at most once plus the retry limit. */
  lemma RetriesBounded(c: Config, d: nat, peers: seq<Addr>, trace: seq<Event>, tag: nat)
    requires c.Valid() && |Elements(peers)| <= MAX_PEERS
    ensures Run(c, d, Init(peers), trace).sentTags[tag] <= 1 + c.maxRetries
  {
    RunInvariant(c, d, peers, trace);
  }

  /** With retry passes at least every `d`, no packet stays pending longer than the backoff
      schedule allows. */
  lemma PendingLeavesInTime(c: Config, d: nat, peers: seq<Addr>, trace: seq<Event>, p: Addr, q: nat)
    requires c.Valid() && |Elements(peers)| <= MAX_PEERS
    requires Has(Run(c, d, Init(peers), trace).node, p, q)
    ensures var l := Run(c, d, Init(peers), trace);
            l.clock - Entry(l.node, p, q).born
              < c.ackTimeout * (1 + Multipliers(c.maxRetries)) + (c.maxRetries + 1) * d
  {
    hide Run, Shape, Counted, Deduped, Deadline, Multipliers;
    RunInvariant(c, d, peers, trace);
    var l := Run(c, d, Init(peers), trace);
    var e := Entry(l.node, p, q);
    assert EntryOk(c, d, l, p, e);
    DeadlineGrows(c, d, e.retries, c.maxRetries);
    LastDeadline(c, d, c.maxRetries);
  }

  lemma LastDeadline(c: Config, d: nat, k: nat)
    ensures Deadline(c, d, k) + d == c.ackTimeout * (1 + Multipliers(k)) + (k + 1) * d
  {
    DeadlineClosedForm(c, d, k);
    assert (k + 1) * d == k * d + d;
  }

  lemma {:induction false} DeadlineGrows(c: Config, d: nat, j: nat, k: nat)
    requires j <= k
    ensures Deadline(c, d, j) <= Deadline(c, d, k)
  {
    if j < k { DeadlineGrows(c, d, j, k - 1); }
  }
}
