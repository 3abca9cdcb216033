/** When a requested clear reaches the ring, and what becomes of the queue when it does not. */
module PersistenceRoom {
  import opened PersistenceStore
  import opened PersistenceQueue

  // ---- Enough room ----

  ghost predicate Room(c: Config, s: State) {
    s.uncounted <= Clears(s.pushed) && s.reserved + |s.ring| <= c.maxDepth + Clears(s.pushed)
  }

  lemma RoomStep(c: Config, s: State, e: Step)
    requires Accounting(c, s) && Room(c, s)
    ensures Room(c, Next(c, s, e))
  {
    if e.Push? { ClearsConcat(s.pushed, [e.op]); }
    if e.PushClear? { ClearsConcat(s.pushed, [ClearAll]); }
  }

  lemma {:induction false} RoomKept(c: Config, store: Store, trace: seq<Step>)
    requires c.Valid()
    ensures Room(c, Run(c, Init(store), trace))
  {
    if trace != [] {
      RoomKept(c, store, trace[..|trace| - 1]);
      RunInvariant(c, store, trace[..|trace| - 1]);
      RoomStep(c, Run(c, Init(store), trace[..|trace| - 1]), trace[|trace| - 1]);
    }
  }

  /** With a slot to spare for every clear requested, none is lost. */
  lemma {:induction false} ClearsKept(c: Config, store: Store, trace: seq<Step>)
    requires c.Valid() && c.capacity >= c.maxDepth + Bumps(trace)
    ensures Run(c, Init(store), trace).lost == 0
  {
    if trace != [] {
      var before := trace[..|trace| - 1];
      ClearsKept(c, store, before);
      RunInvariant(c, store, before);
      RoomKept(c, store, before);
      GenerationIsBumps(c, store, before);
    }
  }

  // ---- Not enough room ----

  function Copies(op: Op, n: nat): (r: seq<Op>)
    ensures |r| == n
  {
    if n == 0 then [] else Copies(op, n - 1) + [op]
  }

  function Fill(op: Op, n: nat): seq<Step> { if n == 0 then [] else Fill(op, n - 1) + [Reserve] + [Push(op)] }

  function Filled(store: Store, op: Op, n: nat): State {
    State(Copies(op, n), n, 0, 0, 0, 0, 0, Idle, 0, store, Copies(op, n), [], [], 0, 0)
  }

  lemma {:induction false} FillRun(c: Config, store: Store, op: Op, n: nat)
    requires c.Valid() && !op.ClearAll? && n <= c.maxDepth
    ensures Run(c, Init(store), Fill(op, n)) == Filled(store, op, n) && Bumps(Fill(op, n)) == 0
  {
    hide Run;
    if n == 0 {
      NoSteps(c, Init(store));
    } else {
      var t, s := Fill(op, n - 1), Filled(store, op, n - 1);
      FillRun(c, store, op, n - 1);
      var reserved := s.(queueSize := n, reserved := 1);
      Extend(c, Init(store), t, s, Reserve, reserved);
      Extend(c, Init(store), t + [Reserve], reserved, Push(op), Filled(store, op, n));
      BumpsSnoc(t, Reserve);
      BumpsSnoc(t + [Reserve], Push(op));
    }
  }

  lemma BumpsSnoc(trace: seq<Step>, e: Step)
    ensures Bumps(trace + [e]) == Bumps(trace) + if e.Bump? then 1 else 0
  {
    assert (trace + [e])[..|trace|] == trace;
  }

  /** The full queue with m clears pushed behind it and not yet counted. */
  function Piled(c: Config, store: Store, op: Op, m: nat): State {
    var ops := Copies(op, c.maxDepth) + Copies(ClearAll, m);
    State(ops, c.maxDepth, m, 0, 0, 0, m, Idle, 0, store, ops, [], [], 0, m)
  }

  function Pile(c: Config, op: Op, m: nat): seq<Step> {
    if m == 0 then Fill(op, c.maxDepth) else Pile(c, op, m - 1) + [Bump] + [PushClear]
  }

  lemma {:induction false} PileRun(c: Config, store: Store, op: Op, m: nat)
    requires c.Valid() && !op.ClearAll? && c.maxDepth + m <= c.capacity
    ensures Run(c, Init(store), Pile(c, op, m)) == Piled(c, store, op, m) && Bumps(Pile(c, op, m)) == m
  {
    hide Run;
    if m == 0 {
      FillRun(c, store, op, c.maxDepth);
      assert Copies(op, c.maxDepth) + [] == Copies(op, c.maxDepth);
    } else {
      var t, s := Pile(c, op, m - 1), Piled(c, store, op, m - 1);
      PileRun(c, store, op, m - 1);
      var bumped := s.(generation := m, bumped := 1);
      assert s.ring + [ClearAll] == Copies(op, c.maxDepth) + Copies(ClearAll, m);
      Extend(c, Init(store), t, s, Bump, bumped);
      Extend(c, Init(store), t + [Bump], bumped, PushClear, Piled(c, store, op, m));
      BumpsSnoc(t, Bump);
      BumpsSnoc(t + [Bump], PushClear);
    }
  }

  /** For every configuration, one clear more than the ring has spare slots can be lost. */
  lemma LostClearHappens(c: Config, store: Store, op: Op) returns (trace: seq<Step>)
    requires c.Valid() && !op.ClearAll?
    ensures Bumps(trace) == c.capacity - c.maxDepth + 1
    ensures Run(c, Init(store), trace).lost == 1
    ensures c.capacity == c.maxDepth ==> Stuck(Run(c, Init(store), trace))
  {
    hide Run;
    var m := c.capacity - c.maxDepth;
    var t, s := Pile(c, op, m), Piled(c, store, op, m);
    PileRun(c, store, op, m);
    var bumped := s.(generation := m + 1, bumped := 1);
    var lost := bumped.(bumped := 0, lost := 1);
    Extend(c, Init(store), t, s, Bump, bumped);
    Extend(c, Init(store), t + [Bump], bumped, PushClear, lost);
    BumpsSnoc(t, Bump);
    BumpsSnoc(t + [Bump], PushClear);
    trace := t + [Bump] + [PushClear];
    if m == 0 {
      assert s.ring == Copies(op, c.maxDepth);
      NoClearsInCopies(op, c.maxDepth);
      assert lost.worker.Hand() == [];
    }
  }

  lemma {:induction false} NoClearsInCopies(op: Op, n: nat)
    requires !op.ClearAll?
    ensures Clears(Copies(op, n)) == 0
  {
    if n > 0 {
      NoClearsInCopies(op, n - 1);
      ClearsConcat(Copies(op, n - 1), [op]);
    }
  }

  /** The exact condition: no run with at most b clears loses one if and only if the ring has b
      slots beyond the admission limit. */
  lemma RoomExact(c: Config, store: Store, b: nat)
    requires c.Valid() && b > 0
    ensures (forall trace :: Bumps(trace) <= b ==> Run(c, Init(store), trace).lost == 0)
       <==> c.capacity >= c.maxDepth + b
  {
    if c.capacity >= c.maxDepth + b {
      forall trace | Bumps(trace) <= b ensures Run(c, Init(store), trace).lost == 0 { ClearsKept(c, store, trace); }
    } else {
      var trace := LostClearHappens(c, store, RemoveBackend(0));
      assert Bumps(trace) <= b;
    }
  }

  // ---- After a loss ----

  /** A clear was requested, none is left to arrive, and no processed batch accounts for it. */
  ghost predicate Doomed(s: State) {
    s.lastGen < s.generation && s.bumped == 0 && Clears(s.ring) == 0 && Clears(s.worker.Hand()) == 0
  }

  /** Doomed, and no batch loaded before the clear was requested is still to run. */
  ghost predicate Stuck(s: State) { Doomed(s) && (s.worker.Loaded? ==> s.worker.gen != s.lastGen) }

  lemma StuckRun(s: State)
    requires Stuck(s) && s.worker.Loaded?
    ensures Stuck(RunBatch(s)) && RunBatch(s).store == s.store
  {
    ClearHeadsTheRest(s.worker.batch);
  }

  lemma DoomedStep(c: Config, s: State, e: Step)
    requires Doomed(s) && !e.Bump? && !e.Process?
    ensures var t := Next(c, s, e);
            && Doomed(t) && t.store == s.store && (Stuck(s) ==> Stuck(t)) && (Stuck(t) || t.worker == s.worker)
  {
    if e.Push? { ClearsConcat(s.ring, [e.op]); }
    if e.Drain? && e.n <= |s.ring| {
      assert s.ring == s.ring[..e.n] + s.ring[e.n..];
      ClearsConcat(s.ring[..e.n], s.ring[e.n..]);
    }
  }

  /** What a doomed queue may still do to the store: run the one batch it had loaded before. */
  ghost predicate OnlyTheLoadedBatch(s: State, t: State) {
    || (t.store == s.store && (Stuck(t) || t.worker == s.worker))
    || (!Stuck(s) && Stuck(t) && s.worker.Loaded? && t.store == ExecAll(s.worker.batch, s.store))
  }

  /** Until the next clear is requested, nothing enqueued reaches the store of a doomed queue: it
      never changes, except that a batch whose generation was read before the lost clear was
      requested still runs, once. */
  lemma {:induction false} LostClearFreezesStore(c: Config, s: State, trace: seq<Step>)
    requires Doomed(s) && Bump !in trace
    ensures Doomed(Run(c, s, trace)) && OnlyTheLoadedBatch(s, Run(c, s, trace))
    ensures Stuck(s) ==> Run(c, s, trace).store == s.store && Stuck(Run(c, s, trace))
  {
    if trace != [] {
      var before, e := trace[..|trace| - 1], trace[|trace| - 1];
      LostClearFreezesStore(c, s, before);
      var t := Run(c, s, before);
      if !e.Process? {
        DoomedStep(c, t, e);
      } else if t.worker.Loaded? {
        if Stuck(t) { StuckRun(t); }
      }
    }
  }

  /** Losing the only outstanding clear dooms the queue exactly when no batch loaded since it was
      requested has consumed another one. */
  lemma LossDooms(c: Config, store: Store, trace: seq<Step>)
    requires c.Valid()
    requires var s := Run(c, Init(store), trace);
             s.bumped == 1 && |s.ring| >= c.capacity && Clears(s.ring) == 0 && Clears(s.worker.Hand()) == 0
    ensures var s, t := Run(c, Init(store), trace), Run(c, Init(store), trace + [PushClear]);
            && t.lost == s.lost + 1
            && (Doomed(t) <==> !CaughtUp(c, store, trace))
            && (Stuck(t) <==> Doomed(t) && !(s.worker.Loaded? && s.worker.gen == s.lastGen))
  {
    assert (trace + [PushClear])[..|trace|] == trace;
    RunInvariant(c, store, trace);
    CaughtUpIff(c, store, trace);
  }

  // ---- Which batches account for a clear ----

  /** The batch loaded by step j held a clear, step k ran it, and no clear was requested since j. */
  ghost predicate Caught(c: Config, store: Store, trace: seq<Step>, j: nat, k: nat) {
    && j < k < |trace| && trace[j].Load? && trace[k].Process?
    && Run(c, Init(store), trace[..j]).worker.Settled? && Clears(Run(c, Init(store), trace[..j]).worker.batch) > 0
    && Process !in trace[j..k] && Bump !in trace[j..]
  }

  /** Some batch accounts for every clear requested. */
  ghost predicate CaughtUp(c: Config, store: Store, trace: seq<Step>) {
    exists j: nat, k: nat :: Caught(c, store, trace, j, k)
  }

  ghost predicate LoadedAt(c: Config, store: Store, trace: seq<Step>, j: nat) {
    && j < |trace| && trace[j].Load? && Process !in trace[j..]
    && var w := Run(c, Init(store), trace[..j]).worker;
       w.Settled? && Run(c, Init(store), trace).worker == Loaded(w.batch, Bumps(trace[..j]))
  }

  lemma {:induction false} BumpsGrow(trace: seq<Step>, j: nat)
    requires j <= |trace|
    ensures Bumps(trace[..j]) <= Bumps(trace) && (Bumps(trace[..j]) == Bumps(trace) <==> Bump !in trace[j..])
  {
    if j == |trace| {
      assert trace[..j] == trace;
    } else {
      var before := trace[..|trace| - 1];
      BumpsGrow(before, j);
      assert before[..j] == trace[..j] && trace[j..] == before[j..] + [trace[|trace| - 1]];
    }
  }

  lemma {:induction false} StaysLoaded(c: Config, store: Store, trace: seq<Step>, j: nat)
    requires j < |trace| && trace[j].Load? && Run(c, Init(store), trace[..j]).worker.Settled? && Process !in trace[j..]
    ensures LoadedAt(c, store, trace, j)
  {
    hide Next;
    var before, e := trace[..|trace| - 1], trace[|trace| - 1];
    assert trace[j..] == before[j..] + [e];
    LoadStep(c, Run(c, Init(store), before), e);
    if j == |trace| - 1 {
      GenerationIsBumps(c, store, before);
    } else {
      assert before[..j] == trace[..j];
      StaysLoaded(c, store, before, j);
    }
  }

  lemma LoadStep(c: Config, s: State, e: Step)
    ensures s.worker.Loaded? && !e.Process? ==> Next(c, s, e).worker == s.worker
    ensures s.worker.Settled? && e.Load? ==> Next(c, s, e).worker == Loaded(s.worker.batch, s.generation)
    ensures Next(c, s, e).worker.Loaded? ==>
              if s.worker.Loaded? then !e.Process? && Next(c, s, e).worker == s.worker
              else e.Load? && s.worker.Settled? && Next(c, s, e).worker == Loaded(s.worker.batch, s.generation)
  {}

  lemma {:induction false} LoadedSomewhere(c: Config, store: Store, trace: seq<Step>) returns (j: nat)
    requires Run(c, Init(store), trace).worker.Loaded?
    ensures LoadedAt(c, store, trace, j)
  {
    var before, e := trace[..|trace| - 1], trace[|trace| - 1];
    var s := Run(c, Init(store), before);
    hide Next;
    LoadStep(c, s, e);
    if s.worker.Loaded? {
      j := LoadedSomewhere(c, store, before);
      assert trace[j..] == before[j..] + [e] && before[..j] == trace[..j];
    } else {
      j := |before|;
      assert trace[j..] == [e];
      GenerationIsBumps(c, store, before);
    }
  }

  lemma CaughtEarlier(c: Config, store: Store, trace: seq<Step>, j: nat, k: nat)
    requires trace != [] && k < |trace| - 1
    ensures Caught(c, store, trace, j, k) <==>
            Caught(c, store, trace[..|trace| - 1], j, k) && !trace[|trace| - 1].Bump?
  {
    var before := trace[..|trace| - 1];
    if j < k {
      assert before[..j] == trace[..j] && before[j..k] == trace[j..k];
      assert trace[j..] == before[j..] + [trace[|trace| - 1]];
    }
  }

  lemma CaughtNow(c: Config, store: Store, trace: seq<Step>, j: nat)
    requires c.Valid() && trace != [] && Caught(c, store, trace, j, |trace| - 1)
    ensures Run(c, Init(store), trace).lastGen == Run(c, Init(store), trace).generation
  {
    var before := trace[..|trace| - 1];
    assert before[..j] == trace[..j] && before[j..] == trace[j..|trace| - 1] && trace[j..] == before[j..] + [Process];
    StaysLoaded(c, store, before, j);
    BumpsGrow(before, j);
    GenerationIsBumps(c, store, before);
  }

  lemma CatchesNow(c: Config, store: Store, trace: seq<Step>) returns (j: nat)
    requires c.Valid() && trace != [] && trace[|trace| - 1].Process?
    requires var s := Run(c, Init(store), trace[..|trace| - 1]);
             s.worker.Loaded? && Clears(s.worker.batch) > 0 && s.worker.gen == s.generation
    ensures Caught(c, store, trace, j, |trace| - 1)
  {
    var before := trace[..|trace| - 1];
    j := LoadedSomewhere(c, store, before);
    BumpsGrow(before, j);
    GenerationIsBumps(c, store, before);
    assert before[..j] == trace[..j] && before[j..] == trace[j..|trace| - 1] && trace[j..] == before[j..] + [Process];
  }

  /** The worker is up to date exactly when no clear was ever requested or a batch that held one
      was loaded after the last request and has run. */
  lemma {:induction false} CaughtUpIff(c: Config, store: Store, trace: seq<Step>)
    requires c.Valid()
    ensures var s := Run(c, Init(store), trace);
            s.lastGen == s.generation <==> s.generation == 0 || CaughtUp(c, store, trace)
  {
    if trace != [] {
      CaughtUpIff(c, store, trace[..|trace| - 1]);
      RunInvariant(c, store, trace[..|trace| - 1]);
      CaughtUpStep(c, store, trace);
    }
  }

  lemma CaughtUpStep(c: Config, store: Store, trace: seq<Step>)
    requires c.Valid() && trace != []
    requires var before := trace[..|trace| - 1];
             var s := Run(c, Init(store), before);
             Consistent(s) && (s.lastGen == s.generation <==> s.generation == 0 || CaughtUp(c, store, before))
    ensures var s := Run(c, Init(store), trace);
            s.lastGen == s.generation <==> s.generation == 0 || CaughtUp(c, store, trace)
  {
    hide Next, Consistent;
    var n := |trace| - 1;
    var s, t := Run(c, Init(store), trace[..n]), Run(c, Init(store), trace);
    ZeroIsZero(c, store, trace);
    GenerationStep(c, s, trace[n]);
    if t.lastGen == t.generation > 0 {
      if s.lastGen != s.generation {
        var j := CatchesNow(c, store, trace);
        assert Caught(c, store, trace, j, n);
      } else {
        var j: nat, k: nat :| Caught(c, store, trace[..n], j, k);
        CaughtEarlier(c, store, trace, j, k);
        assert Caught(c, store, trace, j, k);
      }
    }
    forall j: nat, k: nat | Caught(c, store, trace, j, k) ensures t.lastGen == t.generation {
      CaughtBackward(c, store, trace, j, k);
    }
  }

  lemma ZeroIsZero(c: Config, store: Store, trace: seq<Step>)
    requires c.Valid()
    ensures var s := Run(c, Init(store), trace); s.generation == 0 ==> s.lastGen == 0
  {
    RunInvariant(c, store, trace);
  }

  lemma CaughtBackward(c: Config, store: Store, trace: seq<Step>, j: nat, k: nat)
    requires c.Valid() && trace != [] && Caught(c, store, trace, j, k)
    requires var before := trace[..|trace| - 1];
             var s := Run(c, Init(store), before);
             Consistent(s) && (CaughtUp(c, store, before) ==> s.lastGen == s.generation)
    ensures Run(c, Init(store), trace).lastGen == Run(c, Init(store), trace).generation
  {
    hide Next, Consistent;
    if k == |trace| - 1 {
      CaughtNow(c, store, trace, j);
    } else {
      CaughtEarlier(c, store, trace, j, k);
      GenerationStep(c, Run(c, Init(store), trace[..|trace| - 1]), trace[|trace| - 1]);
    }
  }

  /** Only a request outdates the worker, and only a batch with a clear brings it up to date. */
  lemma GenerationStep(c: Config, s: State, e: Step)
    requires Consistent(s)
    ensures var t := Next(c, s, e);
            && (e.Bump? ==> t.lastGen < t.generation)
            && (!e.Bump? ==> t.generation == s.generation)
            && (!e.Bump? && s.lastGen == s.generation ==> t.lastGen == t.generation)
            && (t.lastGen == s.lastGen || (e.Process? && s.worker.Loaded? && Clears(s.worker.batch) > 0
                                           && t.lastGen == s.worker.gen))
  {}

  // ---- A drained queue is frozen exactly when it is not up to date ----

  function Times(e: Step, n: nat): seq<Step> { if n == 0 then [] else Times(e, n - 1) + [e] }

  lemma {:induction false} CountRun(c: Config, s: State, n: nat)
    requires n <= s.uncounted
    ensures Run(c, s, Times(CountClear, n)) == s.(uncounted := s.uncounted - n, queueSize := s.queueSize + n)
    ensures Bump !in Times(CountClear, n)
  {
    hide Run;
    if n == 0 {
      NoSteps(c, s);
    } else {
      CountRun(c, s, n - 1);
      Extend(c, s, Times(CountClear, n - 1), s.(uncounted := s.uncounted - (n - 1), queueSize := s.queueSize + n - 1),
             CountClear, s.(uncounted := s.uncounted - n, queueSize := s.queueSize + n));
    }
  }

  lemma {:induction false} UndoRun(c: Config, s: State, n: nat)
    requires n <= s.refused
    ensures Run(c, s, Times(Undo, n)) == s.(refused := s.refused - n, queueSize := s.queueSize - n)
    ensures Bump !in Times(Undo, n)
  {
    hide Run;
    if n == 0 {
      NoSteps(c, s);
    } else {
      UndoRun(c, s, n - 1);
      Extend(c, s, Times(Undo, n - 1), s.(refused := s.refused - (n - 1), queueSize := s.queueSize - (n - 1)),
             Undo, s.(refused := s.refused - n, queueSize := s.queueSize - n));
    }
  }

  /** With an empty ring and no unsettled batch, a slot can be had. */
  lemma GetsSlot(c: Config, s: State) returns (trace: seq<Step>, t: State)
    requires c.Valid() && Accounting(c, s) && s.ring == [] && s.worker.Idle?
    ensures Bump !in trace && Run(c, s, trace) == t && t.reserved > 0
    ensures t.ring == [] && t.worker == s.worker && t.store == s.store && t.lastGen == s.lastGen && t.generation == s.generation
  {
    hide Run;
    if s.reserved > 0 {
      NoSteps(c, s);
      return [], s;
    }
    var counted := s.(uncounted := 0, queueSize := s.queueSize + s.uncounted);
    var settled := counted.(refused := 0, queueSize := 0);
    CountRun(c, s, s.uncounted);
    UndoRun(c, counted, s.refused);
    RunConcat(c, s, Times(CountClear, s.uncounted), Times(Undo, s.refused));
    trace := Times(CountClear, s.uncounted) + Times(Undo, s.refused);
    t := settled.(queueSize := 1, reserved := 1);
    Extend(c, s, trace, settled, Reserve, t);
    trace := trace + [Reserve];
  }

  /** A queue that is up to date executes what is enqueued next. */
  lemma Executes(c: Config, s: State, op: Op) returns (trace: seq<Step>)
    requires c.Valid() && Accounting(c, s) && s.ring == [] && s.worker.Idle? && s.lastGen == s.generation && !op.ClearAll?
    ensures Bump !in trace && Run(c, s, trace).store == Exec(op, s.store)
  {
    hide Run, Accounting, ExecAll, Exec;
    var a, t := GetsSlot(c, s);
    var s1 := t.(reserved := t.reserved - 1, ring := [op], pushed := t.pushed + [op]);
    var s2 := s1.(worker := Drained([op]), ring := []);
    var s3 := s2.(worker := Settled([op]), queueSize := s2.queueSize - 1);
    var s4 := s3.(worker := Loaded([op], s.generation));
    assert [] + [op] == [op] && [op][..1] == [op] && [op][1..] == [];
    Extend(c, s, a, t, Push(op), s1);
    Extend(c, s, a + [Push(op)], s1, Drain(1), s2);
    Extend(c, s, a + [Push(op)] + [Drain(1)], s2, Settle, s3);
    Extend(c, s, a + [Push(op)] + [Drain(1)] + [Settle], s3, Load, s4);
    Extend(c, s, a + [Push(op)] + [Drain(1)] + [Settle] + [Load], s4, Process, RunBatch(s4));
    trace := a + [Push(op)] + [Drain(1)] + [Settle] + [Load] + [Process];
    OneOp(op, s.store);
  }

  lemma OneOp(op: Op, s: Store)
    ensures ExecAll([op], s) == Exec(op, s)
  {
    assert [op][..0] == [];
  }

  /** A drained queue whose clears have all been pushed or lost is frozen until the next clear
      exactly when none of its batches accounts for the last one; without a loss it never is. */
  lemma FrozenIff(c: Config, store: Store, trace: seq<Step>)
    requires c.Valid()
    requires var s := Run(c, Init(store), trace); s.ring == [] && s.worker.Idle? && s.bumped == 0
    ensures var s := Run(c, Init(store), trace);
            && ((forall more :: Bump !in more ==> Run(c, s, more).store == s.store) <==>
                  s.generation > 0 && !CaughtUp(c, store, trace))
            && (s.lost == 0 ==> s.generation == 0 || CaughtUp(c, store, trace))
  {
    var s := Run(c, Init(store), trace);
    RunInvariant(c, store, trace);
    CaughtUpIff(c, store, trace);
    assert s.done + [] + [] == s.done;
    if s.lastGen < s.generation {
      forall more | Bump !in more ensures Run(c, s, more).store == s.store { LostClearFreezesStore(c, s, more); }
    } else {
      var row := LogRow("", "", 0, 0, 0);
      var more := Executes(c, s, LogRequest(row));
      assert |Run(c, s, more).store.log| == |s.store.log| + 1;
    }
  }
}
