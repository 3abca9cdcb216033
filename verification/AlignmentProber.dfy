/** The alignment prober (src/alignment_prober.cpp): one state per tracked backend, broadcast to
    the shards only when what they act on changes. */
module AlignmentProber {
  import opened Alignment
  import opened Common
  import opened Sums

  type BackendId = nat

  const MAX_TRACKED := 256
  const MAX_BACKOFF := 8

  datatype BackendState = BackendState(hasVerdict: bool, epoch: nat, result: Result, failures: nat, nextAttempt: nat)
  datatype Stream = Stream(live: bool, epoch: nat)

  /** What every shard holds for a backend. */
  datatype Shard = Pending | Shard(verdict: Verdict, firstDivergence: nat, quarantined: bool)

  /** One recorded probe: its result, the stream epoch it was for and the cycle it ran in. */
  datatype Outcome = Outcome(result: Result, epoch: nat, cycle: nat)

  const FRESH := BackendState(false, 0, Result(FAILED, 0, 0, -1, -1, 0), 0, 0)

  /** Cycles to wait after the k-th failure in a row. */
  function Backoff(k: nat): nat
    requires k > 0
  {
    Min(Pow2(Min(k - 1, 3)), MAX_BACKOFF)
  }

  lemma BackoffSchedule(k: nat)
    requires k > 0
    ensures Backoff(k) == if k == 1 then 1 else if k == 2 then 2 else if k == 3 then 4 else 8
  {
    assert Pow2(1) == 2 && Pow2(2) == 4 && Pow2(3) == 8;
  }

  // ---- A backend's state as a function of what was recorded for it ----

  function Advance(st: BackendState, o: Outcome): BackendState {
    if o.result.verdict == FAILED then
      st.(failures := st.failures + 1, nextAttempt := o.cycle + Backoff(st.failures + 1))
    else BackendState(true, o.epoch, o.result, 0, 0)
  }

  function Fold(h: seq<Outcome>): BackendState {
    if h == [] then FRESH else Advance(Fold(h[..|h| - 1]), h[|h| - 1])
  }

  /** How many of the latest outcomes are failures. */
  function Trailing(h: seq<Outcome>): nat {
    if h == [] || h[|h| - 1].result.verdict != FAILED then 0 else 1 + Trailing(h[..|h| - 1])
  }

  /** The last outcome that was not a failure is the k-th one. */
  ghost predicate LatestVerdict(h: seq<Outcome>, k: nat) {
    k < |h| && h[k].result.verdict != FAILED && forall i :: k < i < |h| ==> h[i].result.verdict == FAILED
  }

  lemma {:induction false} FoldVerdict(h: seq<Outcome>)
    ensures Fold(h).hasVerdict <==> exists k: nat :: LatestVerdict(h, k)
    ensures forall k: nat :: LatestVerdict(h, k) ==> Fold(h).result == h[k].result && Fold(h).epoch == h[k].epoch
  {
    if h != [] {
      var n := |h| - 1;
      FoldVerdict(h[..n]);
      if h[n].result.verdict == FAILED {
        forall k: nat ensures LatestVerdict(h, k) <==> LatestVerdict(h[..n], k) { SameLatest(h, k); }
      } else {
        assert LatestVerdict(h, n);
        assert forall k: nat :: LatestVerdict(h, k) ==> k == n;
      }
    }
  }

  lemma SameLatest(h: seq<Outcome>, k: nat)
    requires h != [] && h[|h| - 1].result.verdict == FAILED
    ensures LatestVerdict(h, k) <==> LatestVerdict(h[..|h| - 1], k)
  {
    var g := h[..|h| - 1];
    if LatestVerdict(g, k) {
      forall i | k < i < |h| ensures h[i].result.verdict == FAILED {
        if i < |g| { assert g[i].result.verdict == FAILED; }
      }
    }
    if LatestVerdict(h, k) { assert forall i :: k < i < |g| ==> g[i] == h[i]; }
  }

  /** Failures count up from the last verdict and only move the next attempt. */
  lemma {:induction false} FoldFailures(h: seq<Outcome>)
    ensures Fold(h).failures == Trailing(h)
    ensures Fold(h).nextAttempt == if Trailing(h) == 0 then 0 else h[|h| - 1].cycle + Backoff(Trailing(h))
  {
    if h != [] { FoldFailures(h[..|h| - 1]); }
  }

  // ---- What the shards are told ----

  function Saturate(n: nat): nat { Min(n, 0xFFFF_FFFF) }

  function MessageOf(quarantine: bool, st: BackendState): Shard {
    if !st.hasVerdict || st.result.verdict == FAILED then Pending
    else if st.result.verdict == MISALIGNED then Shard(MISALIGNED, Saturate(st.result.firstDivergence), quarantine)
    else Shard(st.result.verdict, 0, false)
  }

  /** What publish would send for a backend now. */
  function Message(quarantine: bool, state: map<BackendId, BackendState>, id: BackendId): Shard {
    if id in state then MessageOf(quarantine, state[id]) else Pending
  }

  function Held(sent: map<BackendId, Shard>, id: BackendId): Shard { if id in sent then sent[id] else Pending }

  /** Broadcasting replaces what the shards hold; Pending erases it. */
  function Broadcast(sent: map<BackendId, Shard>, id: BackendId, s: Shard): map<BackendId, Shard> {
    if s == Pending then sent - {id} else sent[id := s]
  }

  /** The shards hold what publish would send, for every backend outside `stale`. */
  ghost predicate Synced(quarantine: bool, sent: map<BackendId, Shard>, state: map<BackendId, BackendState>,
                         stale: set<BackendId>) {
    forall id: BackendId :: id !in stale ==> Held(sent, id) == Message(quarantine, state, id)
  }

  predicate ShardChanged(st: BackendState, r: Result) {
    !st.hasVerdict || st.result.verdict != r.verdict || st.result.firstDivergence != r.firstDivergence
  }

  /** The suppression is safe: an unchanged verdict and divergence make the same message. */
  lemma SuppressedIsSame(quarantine: bool, st: BackendState, o: Outcome)
    requires o.result.verdict == FAILED || !ShardChanged(st, o.result)
    ensures MessageOf(quarantine, Advance(st, o)) == MessageOf(quarantine, st)
  {}

  // ---- Bookkeeping ----

  function HistoryOf(hist: map<BackendId, seq<Outcome>>, id: BackendId): seq<Outcome> {
    if id in hist then hist[id] else []
  }

  ghost predicate Tracked(state: map<BackendId, BackendState>, hist: map<BackendId, seq<Outcome>>) {
    && state.Keys == hist.Keys && |state.Keys| <= MAX_TRACKED
    && forall id :: id in state ==> state[id] == Fold(hist[id])
  }

  function StateOf(state: map<BackendId, BackendState>, id: BackendId): BackendState {
    if id in state then state[id] else FRESH
  }

  /** The tracking cap turns away a backend with no entry. */
  predicate Dropped(state: map<BackendId, BackendState>, id: BackendId) { id !in state && |state.Keys| >= MAX_TRACKED }

  /** A cycle probes a backend with a live stream, unless its verdict is current or it is backing off. */
  predicate Due(state: map<BackendId, BackendState>, s: Stream, id: BackendId, cycle: nat) {
    && s.live
    && (id in state ==>
          && !(state[id].hasVerdict && state[id].epoch == s.epoch && state[id].failures == 0)
          && !(state[id].failures > 0 && cycle < state[id].nextAttempt))
  }

  lemma SameKeys(state: map<BackendId, BackendState>, hist: map<BackendId, seq<Outcome>>)
    requires Tracked(state, hist)
    ensures state.Keys == hist.Keys
  {}

  lemma RecordTracked(state: map<BackendId, BackendState>, hist: map<BackendId, seq<Outcome>>, id: BackendId, o: Outcome)
    requires Tracked(state, hist) && !Dropped(state, id)
    ensures Tracked(state[id := Advance(StateOf(state, id), o)], hist[id := HistoryOf(hist, id) + [o]])
  {
    hide Advance, Fold;
    var h, next := HistoryOf(hist, id) + [o], Advance(StateOf(state, id), o);
    FoldMore(state, hist, id, o);
    CapKept(state, id, next);
    assert hist[id := h].Keys == hist.Keys + {id};
  }

  lemma FoldMore(state: map<BackendId, BackendState>, hist: map<BackendId, seq<Outcome>>, id: BackendId, o: Outcome)
    requires Tracked(state, hist)
    ensures Fold(HistoryOf(hist, id) + [o]) == Advance(StateOf(state, id), o)
  {
    var h := HistoryOf(hist, id) + [o];
    assert h[..|h| - 1] == HistoryOf(hist, id);
  }

  lemma CapKept(state: map<BackendId, BackendState>, id: BackendId, next: BackendState)
    requires |state.Keys| <= MAX_TRACKED && !Dropped(state, id)
    ensures state[id := next].Keys == state.Keys + {id} && |state[id := next].Keys| <= MAX_TRACKED
  {
    assert state[id := next].Keys == state.Keys + {id};
    assert id in state ==> state.Keys + {id} == state.Keys;
  }

  lemma BroadcastSyncs(quarantine: bool, sent: map<BackendId, Shard>, state: map<BackendId, BackendState>,
                       stale: set<BackendId>, id: BackendId)
    requires Synced(quarantine, sent, state, stale)
    ensures Synced(quarantine, Broadcast(sent, id, Message(quarantine, state, id)), state, stale - {id})
  {
    forall j: BackendId | j !in stale - {id}
      ensures Held(Broadcast(sent, id, Message(quarantine, state, id)), j) == Message(quarantine, state, j)
    {
      if j != id { assert Held(sent, j) == Message(quarantine, state, j); }
    }
  }

  lemma RecordSyncs(quarantine: bool, sent: map<BackendId, Shard>, state: map<BackendId, BackendState>, id: BackendId,
                    st: BackendState)
    requires Synced(quarantine, sent, state, {})
    ensures Synced(quarantine, sent, state[id := st], {id})
    ensures MessageOf(quarantine, st) == Message(quarantine, state, id) ==> Synced(quarantine, sent, state[id := st], {})
  {
    assert Held(sent, id) == Message(quarantine, state, id);
    forall j: BackendId | j != id ensures Held(sent, j) == Message(quarantine, state[id := st], j) {
      assert Held(sent, j) == Message(quarantine, state, j);
    }
  }

  // ---- Pruning ----

  function Restrict<T>(m: map<BackendId, T>, listed: set<BackendId>): map<BackendId, T> {
    map id | id in m && id in listed :: m[id]
  }

  /** The unlisted backends that hold a verdict. */
  function Cleared(state: map<BackendId, BackendState>, listed: set<BackendId>): set<BackendId> {
    set id | id in state && id !in listed && state[id].hasVerdict
  }

  method EraseUnlisted(state: map<BackendId, BackendState>, listed: set<BackendId>)
    returns (kept: map<BackendId, BackendState>, pruned: set<BackendId>)
    ensures kept == Restrict(state, listed) && pruned == Cleared(state, listed)
  {
    kept, pruned := state, {};
    var todo := state.Keys;
    while todo != {}
      invariant todo <= state.Keys
      invariant forall id :: id in kept <==> id in state && (id in todo || id in listed)
      invariant forall id :: id in kept ==> kept[id] == state[id]
      invariant pruned == set id | id in state && id !in todo && id !in listed && state[id].hasVerdict
      decreases todo
    {
      var id :| id in todo;
      todo := todo - {id};
      if id !in listed {
        if kept[id].hasVerdict { pruned := pruned + {id}; }
        kept := kept - {id};
      }
    }
  }

  lemma PruneTracked(state: map<BackendId, BackendState>, hist: map<BackendId, seq<Outcome>>, listed: set<BackendId>)
    requires Tracked(state, hist)
    ensures Tracked(Restrict(state, listed), Restrict(hist, listed))
  {
    assert Restrict(state, listed).Keys == state.Keys * listed == Restrict(hist, listed).Keys;
    SubsetSize(state.Keys * listed, state.Keys);
  }

  lemma PruneMeaning(state: map<BackendId, BackendState>, hist: map<BackendId, seq<Outcome>>, listed: set<BackendId>)
    requires Tracked(state, hist)
    ensures forall id :: id in Restrict(state, listed) <==> id in state && id in listed
    ensures forall id :: id in Restrict(state, listed) ==>
              && id in state && Restrict(state, listed)[id] == state[id]
              && id in hist && id in Restrict(hist, listed) && Restrict(hist, listed)[id] == hist[id]
  {}

  lemma PruneSyncs(quarantine: bool, sent: map<BackendId, Shard>, state: map<BackendId, BackendState>, listed: set<BackendId>)
    requires Synced(quarantine, sent, state, {})
    ensures Synced(quarantine, sent, Restrict(state, listed), Cleared(state, listed))
  {
    forall id: BackendId | id !in Cleared(state, listed)
      ensures Held(sent, id) == Message(quarantine, Restrict(state, listed), id)
    {
      assert Held(sent, id) == Message(quarantine, state, id);
    }
  }

  // ---- Selection ----

  function DueList(state: map<BackendId, BackendState>, streams: BackendId -> Stream, ids: seq<BackendId>, cycle: nat):
      seq<BackendId> {
    if ids == [] then []
    else
      var n := |ids| - 1;
      DueList(state, streams, ids[..n], cycle) + if Due(state, streams(ids[n]), ids[n], cycle) then [ids[n]] else []
  }

  lemma {:induction false} DueListMeaning(state: map<BackendId, BackendState>, streams: BackendId -> Stream,
                                          ids: seq<BackendId>, cycle: nat, id: BackendId)
    ensures multiset(DueList(state, streams, ids, cycle))[id] ==
            if Due(state, streams(id), id, cycle) then multiset(ids)[id] else 0
  {
    if ids != [] {
      var n := |ids| - 1;
      DueListMeaning(state, streams, ids[..n], cycle, id);
      assert ids == ids[..n] + [ids[n]];
    }
  }

  /** A backend is due when its stream is live and nothing was recorded for it yet, or its last
      outcome is a failure that is past its backoff, or a verdict for another stream. */
  lemma DueIff(state: map<BackendId, BackendState>, hist: map<BackendId, seq<Outcome>>, id: BackendId, s: Stream, cycle: nat)
    requires Tracked(state, hist)
    ensures Due(state, s, id, cycle) <==>
            && s.live
            && (var h := HistoryOf(hist, id);
                || h == []
                || (h[|h| - 1].result.verdict == FAILED && cycle >= h[|h| - 1].cycle + Pow2(Min(Trailing(h) - 1, 3)))
                || (h[|h| - 1].result.verdict != FAILED && h[|h| - 1].epoch != s.epoch))
  {
    var h := HistoryOf(hist, id);
    if h != [] {
      FoldFailures(h);
      if Trailing(h) > 0 { BackoffSchedule(Trailing(h)); EightAtMost(Trailing(h) - 1); }
      if Trailing(h) == 0 { FoldVerdict(h); assert LatestVerdict(h, |h| - 1); }
    }
  }

  lemma EightAtMost(k: nat)
    ensures Pow2(Min(k, 3)) == if k == 0 then 1 else if k == 1 then 2 else if k == 2 then 4 else 8
  {
    assert Pow2(1) == 2 && Pow2(2) == 4 && Pow2(3) == 8;
  }

  class Prober {
    const quarantine: bool
    var state: map<BackendId, BackendState>
    var cycle: nat
    var drops: nat
    ghost var sent: map<BackendId, Shard>
    ghost var hist: map<BackendId, seq<Outcome>>

    ghost predicate Valid() reads this { Tracked(state, hist) && Synced(quarantine, sent, state, {}) }

    constructor (quarantine: bool)
      ensures Valid() && this.quarantine == quarantine && state == map[] && cycle == 0 && hist == map[]
    {
      this.quarantine := quarantine;
      state, cycle, drops, sent, hist := map[], 0, 0, map[], map[];
    }

    method Publish(id: BackendId, ghost stale: set<BackendId>)
      requires Synced(quarantine, sent, state, stale)
      modifies this`sent
      ensures Synced(quarantine, sent, state, stale - {id})
    {
      hide Synced, MessageOf;
      BroadcastSyncs(quarantine, sent, state, stale, id);
      sent := Broadcast(sent, id, Message(quarantine, state, id));
    }

    /** Stores an outcome; false means the shards need not hear of it. */
    method Record(id: BackendId, epoch: nat, r: Result) returns (changed: bool)
      requires Valid()
      modifies this`state, this`hist, this`drops
      ensures Tracked(state, hist) && Synced(quarantine, sent, state, if changed then {id} else {})
      ensures id !in old(state) && |old(state).Keys| >= 256 ==>
                id !in hist && state == old(state) && hist == old(hist) && !changed && drops == old(drops) + 1
      ensures id in old(state) || |old(state).Keys| < 256 ==>
                && (changed <==>
                      var st := StateOf(old(state), id);
                      r.verdict != FAILED
                      && (!st.hasVerdict || st.result.verdict != r.verdict || st.result.firstDivergence != r.firstDivergence))
                && hist == old(hist)[id := HistoryOf(old(hist), id) + [Outcome(r, epoch, cycle)]]
                && state == old(state)[id := Advance(StateOf(old(state), id), Outcome(r, epoch, cycle))]
                && drops == old(drops)
    {
      hide Tracked, Synced, Fold, Advance, MessageOf;
      ghost var o := Outcome(r, epoch, cycle);
      if id !in state && |state.Keys| >= MAX_TRACKED {
        SameKeys(state, hist);
        drops := drops + 1;
        return false;
      }
      var st := StateOf(state, id);
      RecordTracked(state, hist, id, o);
      RecordSyncs(quarantine, sent, state, id, Advance(st, o));
      MessageOfState(quarantine, state, id);
      var next;
      next, changed := Outcomes(st, epoch, r, cycle, quarantine);
      state := state[id := next];
      hist := hist[id := HistoryOf(hist, id) + [o]];
    }

    method ProbeOne(id: BackendId, epoch: nat, r: Result)
      requires Valid()
      modifies this`state, this`hist, this`drops, this`sent
      ensures Valid()
      ensures id !in old(state) && |old(state).Keys| >= 256 ==> id !in hist && state == old(state) && hist == old(hist)
      ensures id in old(state) || |old(state).Keys| < 256 ==>
                hist == old(hist)[id := HistoryOf(old(hist), id) + [Outcome(r, epoch, cycle)]]
    {
      hide Tracked, Synced, Advance, MessageOf;
      var changed := Record(id, epoch, r);
      if changed {
        Publish(id, {id});
        assert {id} - {id} == {};
      }
    }

    /** Forgets the backends that left, and clears them on the shards. */
    method Prune(listed: set<BackendId>)
      requires Valid()
      modifies this`state, this`hist, this`sent
      ensures Valid() && state == Restrict(old(state), listed) && hist == Restrict(old(hist), listed)
      ensures forall id :: id in state <==> id in old(state) && id in listed
      ensures forall id :: id in state ==> state[id] == old(state)[id] && id in hist && hist[id] == old(hist)[id]
    {
      hide Tracked, Synced, Restrict, Cleared;
      PruneTracked(state, hist, listed);
      PruneMeaning(state, hist, listed);
      PruneSyncs(quarantine, sent, state, listed);
      var pruned;
      state, pruned := EraseUnlisted(state, listed);
      hist := Restrict(hist, listed);
      while pruned != {}
        invariant Tracked(state, hist) && Synced(quarantine, sent, state, pruned)
        decreases pruned
        modifies this`sent
      {
        var id :| id in pruned;
        Publish(id, pruned);
        pruned := pruned - {id};
      }
    }

    method SelectDue(ids: seq<BackendId>, streams: BackendId -> Stream) returns (due: seq<BackendId>)
      ensures due == DueList(state, streams, ids, cycle)
    {
      due := [];
      for i := 0 to |ids|
        invariant due == DueList(state, streams, ids[..i], cycle)
      {
        assert ids[..i + 1][..i] == ids[..i];
        var id, stream := ids[i], streams(ids[i]);
        if !stream.live { continue; }
        if id in state {
          var st := state[id];
          if st.hasVerdict && st.epoch == stream.epoch && st.failures == 0 { continue; }
          if st.failures > 0 && cycle < st.nextAttempt { continue; }
        }
        due := due + [id];
      }
      assert ids[..|ids|] == ids;
    }

    /** The due backends are probed concurrently: any order of completion. */
    method ProbeAll(due: seq<BackendId>, streams: BackendId -> Stream, answers: BackendId -> Result)
      requires Valid()
      modifies this`state, this`hist, this`drops, this`sent
      ensures Valid() && Probed(old(hist), hist, multiset(due), streams, answers, cycle)
    {
      hide Tracked, Synced, Probed;
      var left := due;
      ghost var seen: multiset<BackendId> := multiset{};
      NoneProbed(hist, streams, answers, cycle);
      while left != []
        invariant Valid() && Probed(old(hist), hist, seen, streams, answers, cycle)
        invariant multiset(due) == seen + multiset(left)
        decreases |left|
      {
        var i: nat :| i < |left|;
        var id := left[i];
        ghost var before := hist;
        SameKeys(state, hist);
        ProbeOne(id, streams(id).epoch, answers(id));
        ProbedOne(old(hist), before, hist, seen, id, streams, answers, cycle);
        TakeOut(left, i);
        left, seen := left[..i] + left[i + 1..], seen + multiset{id};
      }
      assert seen == multiset(due);
    }

    /** One health cycle: after it, what the shards hold is what publish would send, for every
        backend there is; and every due backend's history has grown by exactly its probes of this
        cycle, unless it has no entry and the tracking table is full. */
    method RunCycle(ids: seq<BackendId>, streams: BackendId -> Stream, answers: BackendId -> Result, ready: bool)
      returns (due: seq<BackendId>)
      requires Valid()
      modifies this
      ensures Valid() && cycle == old(cycle) + 1
      ensures var listed := Elements(ids);
              && due == DueList(Restrict(old(state), listed), streams, ids, cycle)
              && (ready ==> Probed(Restrict(old(hist), listed), hist, multiset(due), streams, answers, cycle))
              && (!ready ==> hist == Restrict(old(hist), listed))
              && (ready ==> forall id: BackendId ::
                    Shown(quarantine, sent, state, Restrict(old(hist), listed), due, streams, answers, id))
    {
      hide Tracked, Synced, DueList, Restrict, Probed, Shown;
      cycle := cycle + 1;
      var listed := Elements(ids);
      Prune(listed);
      due := SelectDue(ids, streams);
      ghost var was := hist;
      if ready {
        ProbeAll(due, streams, answers);
        forall id: BackendId ensures Shown(quarantine, sent, state, was, due, streams, answers, id) {
          CycleOutcome(quarantine, sent, state, was, hist, due, streams, answers, cycle, id);
        }
      }
    }
  }

  function Copies(o: Outcome, n: nat): seq<Outcome> { if n == 0 then [] else Copies(o, n - 1) + [o] }

  /** A probed backend's history gained its outcome once per probe; or it has no entry, before or
      after, because the table is full. */
  ghost predicate Grown(was: map<BackendId, seq<Outcome>>, hist: map<BackendId, seq<Outcome>>, id: BackendId,
                        o: Outcome, n: nat) {
    || (id in hist && hist[id] == HistoryOf(was, id) + Copies(o, n))
    || (id !in was && id !in hist && |hist.Keys| >= MAX_TRACKED)
  }

  ghost predicate Probed(was: map<BackendId, seq<Outcome>>, hist: map<BackendId, seq<Outcome>>, seen: multiset<BackendId>,
                         streams: BackendId -> Stream, answers: BackendId -> Result, cycle: nat) {
    && was.Keys <= hist.Keys
    && (forall id :: id !in seen ==> (id in hist <==> id in was) && HistoryOf(hist, id) == HistoryOf(was, id))
    && (forall id :: id in seen ==> Grown(was, hist, id, Outcome(answers(id), streams(id).epoch, cycle), seen[id]))
  }

  lemma NoneProbed(hist: map<BackendId, seq<Outcome>>, streams: BackendId -> Stream, answers: BackendId -> Result, cycle: nat)
    ensures Probed(hist, hist, multiset{}, streams, answers, cycle)
  {}

  lemma TakeOut(left: seq<BackendId>, i: nat)
    requires i < |left|
    ensures multiset(left) == multiset{left[i]} + multiset(left[..i] + left[i + 1..])
  {
    assert left == left[..i] + [left[i]] + left[i + 1..];
  }

  lemma GrownMore(was: map<BackendId, seq<Outcome>>, before: map<BackendId, seq<Outcome>>, hist: map<BackendId, seq<Outcome>>,
                  id: BackendId, o: Outcome, n: nat)
    requires if n > 0 then Grown(was, before, id, o, n)
             else (id in before <==> id in was) && HistoryOf(before, id) == HistoryOf(was, id)
    requires was.Keys <= before.Keys
    requires hist == before[id := HistoryOf(before, id) + [o]]
             || (id !in before && |before.Keys| >= MAX_TRACKED && hist == before)
    requires n > 0 && id !in before ==> hist == before
    ensures Grown(was, hist, id, o, n + 1)
  {
    assert HistoryOf(was, id) + Copies(o, n) + [o] == HistoryOf(was, id) + Copies(o, n + 1);
    assert n == 0 ==> HistoryOf(was, id) + Copies(o, n) == HistoryOf(was, id);
  }

  lemma GrownStill(was: map<BackendId, seq<Outcome>>, before: map<BackendId, seq<Outcome>>, hist: map<BackendId, seq<Outcome>>,
                   id: BackendId, h: seq<Outcome>, j: BackendId, o: Outcome, n: nat)
    requires Grown(was, before, j, o, n) && j != id && (hist == before || hist == before[id := h])
    ensures Grown(was, hist, j, o, n)
  {
    SubsetSize(before.Keys, hist.Keys);
  }

  lemma ProbedOne(was: map<BackendId, seq<Outcome>>, before: map<BackendId, seq<Outcome>>, hist: map<BackendId, seq<Outcome>>,
                  seen: multiset<BackendId>, id: BackendId, streams: BackendId -> Stream, answers: BackendId -> Result, cycle: nat)
    requires Probed(was, before, seen, streams, answers, cycle)
    requires if id !in before && |before.Keys| >= MAX_TRACKED then hist == before
             else hist == before[id := HistoryOf(before, id) + [Outcome(answers(id), streams(id).epoch, cycle)]]
    ensures Probed(was, hist, seen + multiset{id}, streams, answers, cycle)
  {
    hide Grown, Copies;
    var o := Outcome(answers(id), streams(id).epoch, cycle);
    if id in seen { FullStays(was, before, id, o, seen[id]); }
    GrownMore(was, before, hist, id, o, seen[id]);
    forall j | j in seen + multiset{id}
      ensures Grown(was, hist, j, Outcome(answers(j), streams(j).epoch, cycle), (seen + multiset{id})[j])
    {
      if j != id {
        GrownStill(was, before, hist, id, HistoryOf(before, id) + [o], j, Outcome(answers(j), streams(j).epoch, cycle), seen[j]);
      }
    }
  }

  /** A backend once turned away stays away for the rest of the cycle. */
  lemma FullStays(was: map<BackendId, seq<Outcome>>, before: map<BackendId, seq<Outcome>>, id: BackendId, o: Outcome, n: nat)
    requires Grown(was, before, id, o, n)
    ensures id !in before ==> |before.Keys| >= MAX_TRACKED
  {}

  lemma MessageOfState(quarantine: bool, state: map<BackendId, BackendState>, id: BackendId)
    ensures Message(quarantine, state, id) == MessageOf(quarantine, StateOf(state, id))
  {}

  /** The state update of record, and whether the shards must hear of it. */
  method Outcomes(was: BackendState, epoch: nat, r: Result, cycle: nat, ghost quarantine: bool)
    returns (st: BackendState, changed: bool)
    ensures st == Advance(was, Outcome(r, epoch, cycle))
    ensures !changed ==> MessageOf(quarantine, st) == MessageOf(quarantine, was)
    ensures changed <==>
              && r.verdict != FAILED
              && (!was.hasVerdict || was.result.verdict != r.verdict || was.result.firstDivergence != r.firstDivergence)
  {
    st := was;
    if r.verdict == FAILED {
      st := st.(failures := st.failures + 1);
      var backoff := Pow2(Min(st.failures - 1, 3));
      backoff := Min(backoff, MAX_BACKOFF);
      st := st.(nextAttempt := cycle + backoff);
      return st, false;
    }
    changed := !st.hasVerdict || st.result.verdict != r.verdict || st.result.firstDivergence != r.firstDivergence;
    st := st.(hasVerdict := true, epoch := epoch, result := r, failures := 0, nextAttempt := 0);
  }

  // ---- What it comes to ----

  /** Before its first verdict the shards hold nothing for a backend. From then on they hold the
      latest verdict recorded since it was last pruned; with a misalignment, where the tokens part,
      cut to 32 bits, and whether the mode is on. */
  lemma HeldIs(quarantine: bool, sent: map<BackendId, Shard>, state: map<BackendId, BackendState>,
               hist: map<BackendId, seq<Outcome>>, id: BackendId)
    requires Tracked(state, hist) && Synced(quarantine, sent, state, {})
    ensures (forall k: nat :: !LatestVerdict(HistoryOf(hist, id), k)) ==> Held(sent, id) == Pending
    ensures forall k: nat :: LatestVerdict(HistoryOf(hist, id), k) ==>
              var r := HistoryOf(hist, id)[k].result;
              Held(sent, id) == if r.verdict == MISALIGNED then Shard(MISALIGNED, Min(r.firstDivergence, 0xFFFF_FFFF), quarantine)
                                else Shard(r.verdict, 0, false)
  {
    var h := HistoryOf(hist, id);
    FoldVerdict(h);
    assert Held(sent, id) == Message(quarantine, state, id);
    forall k: nat | LatestVerdict(h, k) ensures Fold(h).hasVerdict && Fold(h).result == h[k].result {}
  }

  /** So a backend is quarantined exactly when quarantine mode is on and the latest verdict recorded
      for it is a misalignment. */
  lemma QuarantinedIff(quarantine: bool, sent: map<BackendId, Shard>, state: map<BackendId, BackendState>,
                       hist: map<BackendId, seq<Outcome>>, id: BackendId)
    requires Tracked(state, hist) && Synced(quarantine, sent, state, {})
    ensures Held(sent, id).Shard? && Held(sent, id).quarantined <==>
            quarantine && exists k: nat :: LatestVerdict(HistoryOf(hist, id), k)
                                           && HistoryOf(hist, id)[k].result.verdict == MISALIGNED
  {
    hide Tracked, Synced;
    HeldIs(quarantine, sent, state, hist, id);
    var h := HistoryOf(hist, id);
    if k: nat :| LatestVerdict(h, k) {
      forall j: nat | LatestVerdict(h, j) ensures j == k { assert !(j < k || k < j); }
    }
  }

  /** A backend whose last probes failed is left alone until its backoff has passed, and is due
      again from then on while its stream is live. */
  lemma BackoffHolds(state: map<BackendId, BackendState>, hist: map<BackendId, seq<Outcome>>, id: BackendId,
                     s: Stream, cycle: nat)
    requires Tracked(state, hist) && id in hist && Trailing(hist[id]) > 0 && s.live
    ensures hist[id] != []
    ensures Due(state, s, id, cycle) <==> cycle >= hist[id][|hist[id]| - 1].cycle + Backoff(Trailing(hist[id]))
  {
    FoldFailures(hist[id]);
  }

  lemma {:induction false} FoldCopies(h: seq<Outcome>, o: Outcome, n: nat)
    requires n > 0
    ensures o.result.verdict != FAILED ==> Fold(h + Copies(o, n)) == BackendState(true, o.epoch, o.result, 0, 0)
    ensures o.result.verdict == FAILED ==>
              && Fold(h + Copies(o, n)).hasVerdict == Fold(h).hasVerdict
              && Fold(h + Copies(o, n)).result == Fold(h).result && Fold(h + Copies(o, n)).epoch == Fold(h).epoch
  {
    var g := h + Copies(o, n);
    assert g[..|g| - 1] == h + Copies(o, n - 1) && g[|g| - 1] == o;
    if n == 1 {
      assert h + Copies(o, 0) == h;
    } else {
      FoldCopies(h, o, n - 1);
    }
  }

  /** After a cycle that probed: a due backend that has an entry shows its answer on the shards, so
      it is quarantined exactly when it was found misaligned and the mode is on; a failed answer
      or none leaves what the earlier history says; and a due backend without an entry means the
      table is full. */
  ghost predicate Shown(quarantine: bool, sent: map<BackendId, Shard>, state: map<BackendId, BackendState>,
                        was: map<BackendId, seq<Outcome>>, due: seq<BackendId>,
                        streams: BackendId -> Stream, answers: BackendId -> Result, id: BackendId) {
    && (id in due && id !in state ==> |state.Keys| == MAX_TRACKED && id !in was)
    && (id in due && id in state && answers(id).verdict != FAILED ==>
          && Held(sent, id) == MessageOf(quarantine, BackendState(true, streams(id).epoch, answers(id), 0, 0))
          && (Held(sent, id).Shard? && Held(sent, id).quarantined <==> quarantine && answers(id).verdict == MISALIGNED))
    && (id !in due || answers(id).verdict == FAILED ==>
          Held(sent, id) == MessageOf(quarantine, Fold(HistoryOf(was, id))))
  }

  lemma CycleOutcome(quarantine: bool, sent: map<BackendId, Shard>, state: map<BackendId, BackendState>,
                     was: map<BackendId, seq<Outcome>>, hist: map<BackendId, seq<Outcome>>, due: seq<BackendId>,
                     streams: BackendId -> Stream, answers: BackendId -> Result, cycle: nat, id: BackendId)
    requires Tracked(state, hist) && Synced(quarantine, sent, state, {})
    requires Probed(was, hist, multiset(due), streams, answers, cycle)
    ensures Shown(quarantine, sent, state, was, due, streams, answers, id)
  {
    var o := Outcome(answers(id), streams(id).epoch, cycle);
    assert Held(sent, id) == Message(quarantine, state, id);
    if id in due {
      assert Grown(was, hist, id, o, multiset(due)[id]);
      if id in hist { FoldCopies(HistoryOf(was, id), o, multiset(due)[id]); }
    }
  }

  /** A misaligned backend beyond the tracked ones is neither recorded nor quarantined. */
  method CapDropsVerdict() returns (p: Prober)
    ensures fresh(p) && p.Valid() && p.quarantine && Held(p.sent, MAX_TRACKED) == Pending
  {
    hide Tracked, Synced;
    p := new Prober(true);
    for i := 0 to MAX_TRACKED
      invariant fresh(p) && p.Valid() && p.quarantine
      invariant p.hist.Keys == Range(0, i)
      modifies p
    {
      SameKeys(p.state, p.hist);
      ghost var before := p.hist;
      p.ProbeOne(i, 0, Result(ALIGNED, 1, 1, -1, -1, 1));
      assert p.hist.Keys == before.Keys + {i};
    }
    SameKeys(p.state, p.hist);
    p.ProbeOne(MAX_TRACKED, 0, Result(MISALIGNED, 1, 0, 5, 6, 1));
    SameKeys(p.state, p.hist);
    NeverHeld(p.quarantine, p.sent, p.state, MAX_TRACKED);
  }

  lemma NeverHeld(quarantine: bool, sent: map<BackendId, Shard>, state: map<BackendId, BackendState>, id: BackendId)
    requires Synced(quarantine, sent, state, {}) && id !in state
    ensures Held(sent, id) == Pending
  {
    assert Held(sent, id) == Message(quarantine, state, id);
  }
}
