/** The request log under skipping: clearing leaves it alone, so a skipped row is lost. */
module PersistenceLog {
  import opened PersistenceStore
  import opened PersistenceQueue

  // ---- Exactly which runs keep the log ----

  /** This batch, if run now, drops no log row: its generation is the processed one, or no row
      stands before its first clear. */
  ghost predicate SkipsNoRow(s: State) {
    s.worker.Loaded? ==> s.worker.gen == s.lastGen || Logs(BeforeFirstClear(s.worker.batch)) == []
  }

  ghost predicate KeepsRows(c: Config, store: Store, trace: seq<Step>) {
    forall k :: 0 <= k < |trace| && trace[k].Process? ==> SkipsNoRow(Run(c, Init(store), trace[..k]))
  }

  lemma KeepsRowsSnoc(c: Config, store: Store, trace: seq<Step>)
    requires trace != []
    ensures var before := trace[..|trace| - 1];
            KeepsRows(c, store, trace) <==>
            KeepsRows(c, store, before) && (trace[|trace| - 1].Process? ==> SkipsNoRow(Run(c, Init(store), before)))
  {
    var before := trace[..|trace| - 1];
    forall k | 0 <= k < |before| ensures before[..k] == trace[..k] && before[k] == trace[k] {}
    if KeepsRows(c, store, before) && (trace[|trace| - 1].Process? ==> SkipsNoRow(Run(c, Init(store), before))) {
      forall k | 0 <= k < |trace| && trace[k].Process? ensures SkipsNoRow(Run(c, Init(store), trace[..k])) {
        if k < |before| { assert before[k].Process?; }
      }
    }
    if KeepsRows(c, store, trace) {
      forall k | 0 <= k < |before| && before[k].Process? ensures SkipsNoRow(Run(c, Init(store), before[..k])) {
        assert trace[k].Process?;
      }
    }
  }

  lemma SkippedStep(c: Config, s: State, e: Step)
    ensures Logs(Next(c, s, e).skipped) == [] <==> Logs(s.skipped) == [] && (e.Process? ==> SkipsNoRow(s))
  {
    if e.Process? && s.worker.Loaded? {
      LogsConcat(s.skipped, Skipped(s.worker.batch, s.worker.gen != s.lastGen));
    } else {
      Frame(c, s, e);
    }
  }

  lemma {:induction false} SkippedIff(c: Config, store: Store, trace: seq<Step>)
    ensures Logs(Run(c, Init(store), trace).skipped) == [] <==> KeepsRows(c, store, trace)
  {
    hide Next, SkipsNoRow;
    if trace != [] {
      SkippedIff(c, store, trace[..|trace| - 1]);
      KeepsRowsSnoc(c, store, trace);
      SkippedStep(c, Run(c, Init(store), trace[..|trace| - 1]), trace[|trace| - 1]);
    }
  }

  /** The log is that of plain execution if and only if every batch that ran was loaded at the
      processed generation or had no log row before its first clear. */
  lemma LogMatchesFifoIff(c: Config, store: Store, trace: seq<Step>)
    requires c.Valid()
    ensures var s := Run(c, Init(store), trace);
            s.store.log == ExecAll(s.done, store).log <==> KeepsRows(c, store, trace)
  {
    RunInvariant(c, store, trace);
    LogIsLogs(Run(c, Init(store), trace).done, store);
    SkippedIff(c, store, trace);
  }

  // ---- What producers can do about it ----

  function Waiting(s: State): seq<Op> { s.worker.Hand() + s.ring }

  /** A clear is requested only while no log row waits, and a log row is pushed only while every
      requested clear is in the ring or past it. */
  ghost predicate Careful(s: State, e: Step) {
    && (e.Bump? ==> Logs(Waiting(s)) == [])
    && (e.Push? && e.op.LogRequest? ==> s.bumped == 0 && s.lost == 0)
  }

  ghost predicate CarefulRun(c: Config, store: Store, trace: seq<Step>) {
    forall k :: 0 <= k < |trace| ==> Careful(Run(c, Init(store), trace[..k]), trace[k])
  }

  function FromFirstRow(ops: seq<Op>): seq<Op> {
    if ops == [] || ops[0].LogRequest? then ops else FromFirstRow(ops[1..])
  }

  lemma {:induction false} FromFirstRowConcat(a: seq<Op>, b: seq<Op>)
    ensures FromFirstRow(a + b) == if Logs(a) != [] then FromFirstRow(a) + b else FromFirstRow(b)
  {
    if a == [] {
      assert a + b == b;
    } else {
      assert (a + b)[1..] == a[1..] + b;
      FromFirstRowConcat(a[1..], b);
    }
  }

  /** While a log row waits, every requested clear was pushed before it. */
  ghost predicate RowsFollowClears(s: State) {
    Logs(Waiting(s)) == [] || (s.generation == Clears(s.pushed) && Clears(FromFirstRow(Waiting(s))) == 0)
  }

  lemma Enqueued(ops: seq<Op>, op: Op)
    ensures Logs(ops + [op]) == Logs(ops) + if op.LogRequest? then [op.entry] else []
    ensures Clears(FromFirstRow(ops + [op])) ==
            if Logs(ops) != [] then Clears(FromFirstRow(ops)) + Clears([op])
            else if op.LogRequest? then Clears([op]) else 0
  {
    LogsConcat(ops, [op]);
    FromFirstRowConcat(ops, [op]);
    if Logs(ops) != [] { ClearsConcat(FromFirstRow(ops), [op]); }
  }

  lemma WaitingPush(s: State, op: Op)
    ensures s.worker.Hand() + (s.ring + [op]) == Waiting(s) + [op]
  {}

  lemma PushFollows(c: Config, s: State, e: Step)
    requires Consistent(s) && RowsFollowClears(s) && Careful(s, e) && (e.Push? || e.PushClear?)
    ensures RowsFollowClears(Next(c, s, e))
  {
    hide FromFirstRow;
    var op := if e.Push? then e.op else ClearAll;
    WaitingPush(s, op);
    Enqueued(Waiting(s), op);
    ClearsConcat(s.pushed, [op]);
  }

  lemma ProcessFollows(s: State)
    requires RowsFollowClears(s) && s.worker.Loaded?
    ensures RowsFollowClears(RunBatch(s))
  {
    var batch := s.worker.batch;
    LogsConcat(batch, s.ring);
    FromFirstRowConcat(batch, s.ring);
    assert [] + s.ring == s.ring;
    if Logs(batch) != [] && Logs(s.ring) != [] {
      ClearsConcat(FromFirstRow(batch), s.ring);
      SuffixClears(s.ring);
    }
  }

  lemma {:induction false} SuffixClears(ops: seq<Op>)
    ensures Clears(FromFirstRow(ops)) <= Clears(ops)
  {
    if ops != [] { SuffixClears(ops[1..]); }
  }

  lemma FollowsStep(c: Config, s: State, e: Step)
    requires Consistent(s) && RowsFollowClears(s) && Careful(s, e)
    ensures RowsFollowClears(Next(c, s, e))
  {
    hide FromFirstRow;
    if e.Push? || e.PushClear? {
      PushFollows(c, s, e);
    } else if e.Process? && s.worker.Loaded? {
      ProcessFollows(s);
    } else if e.Drain? && e.n <= |s.ring| && s.worker.Idle? {
      assert [] + s.ring == s.ring[..e.n] + s.ring[e.n..];
    }
  }

  /** No log row can then stand in a stale batch before its first clear. */
  lemma FollowsKeeps(s: State)
    requires Consistent(s) && RowsFollowClears(s)
    ensures SkipsNoRow(s)
  {
    hide FromFirstRow, Logs, Clears;
    if s.worker.Loaded? && Logs(BeforeFirstClear(s.worker.batch)) != [] {
      EarlyRow(BeforeFirstClear(s.worker.batch), FromFirstClear(s.worker.batch), s.ring);
      PushedIs(s.done, s.worker.batch, s.ring);
      ClearsConcat(s.done, Waiting(s));
    }
  }

  lemma PushedIs(done: seq<Op>, batch: seq<Op>, ring: seq<Op>)
    ensures done + batch + ring == done + (batch + ring)
  {}

  /** A row before a batch's first clear, with no clear after it, means no clear waits at all. */
  lemma EarlyRow(early: seq<Op>, rest: seq<Op>, ring: seq<Op>)
    requires Logs(early) != [] && Clears(early) == 0
    ensures Logs(early + rest + ring) != []
    ensures Clears(early + rest + ring) == Clears(FromFirstRow(early + rest + ring))
  {
    hide Logs, Clears, FromFirstRow;
    PushedIs(early, rest, ring);
    var late := rest + ring;
    LogsConcat(early, late);
    FromFirstRowConcat(early, late);
    ClearsConcat(FromFirstRow(early), late);
    ClearsConcat(early, late);
    SuffixClears(early);
  }

  lemma {:induction false} CarefulFollows(c: Config, store: Store, trace: seq<Step>)
    requires c.Valid() && CarefulRun(c, store, trace)
    ensures RowsFollowClears(Run(c, Init(store), trace)) && KeepsRows(c, store, trace)
  {
    hide Next, SkipsNoRow, RowsFollowClears;
    if trace == [] {
      StartFollows(store);
    } else {
      var before := trace[..|trace| - 1];
      forall k | 0 <= k < |before| ensures Careful(Run(c, Init(store), before[..k]), before[k]) {
        assert before[..k] == trace[..k] && before[k] == trace[k];
      }
      CarefulFollows(c, store, before);
      RunInvariant(c, store, before);
      FollowsStep(c, Run(c, Init(store), before), trace[|trace| - 1]);
      FollowsKeeps(Run(c, Init(store), before));
      KeepsRowsSnoc(c, store, trace);
    }
  }

  lemma StartFollows(store: Store)
    ensures RowsFollowClears(Init(store))
  {
    assert Waiting(Init(store)) == [];
  }

  /** Producers that are careful in this sense lose no log row. */
  lemma CarefulProducersKeepLog(c: Config, store: Store, trace: seq<Step>)
    requires c.Valid() && CarefulRun(c, store, trace)
    ensures var s := Run(c, Init(store), trace); s.store.log == ExecAll(s.done, store).log
  {
    CarefulFollows(c, store, trace);
    LogMatchesFifoIff(c, store, trace);
  }

  // ---- A run that loses a row ----

  /** Under every configuration a log row still queued when a clear is requested can be dropped,
      although clearing keeps the log. */
  lemma LogLossHappens(c: Config, store: Store, row: LogRow) returns (trace: seq<Step>)
    requires c.Valid()
    ensures var s := Run(c, Init(store), trace); s.done == [LogRequest(row)] && s.store.log == store.log
  {
    hide Run, ExecAll, Effective, Skipped;
    var s0, ops := Init(store), [LogRequest(row)];
    var s1 := s0.(queueSize := 1, reserved := 1);
    var s2 := s1.(reserved := 0, ring := ops, pushed := ops);
    var s3 := s2.(generation := 1, bumped := 1);
    var s4 := s3.(worker := Drained(ops), ring := []);
    var s5 := s4.(worker := Settled(ops), queueSize := 0);
    var s6 := s5.(worker := Loaded(ops, 1));
    assert [] + ops == ops && ops[..1] == ops && ops[1..] == [];
    NoSteps(c, s0);
    Extend(c, s0, [], s0, Reserve, s1);
    Extend(c, s0, [] + [Reserve], s1, Push(LogRequest(row)), s2);
    Extend(c, s0, [] + [Reserve] + [Push(LogRequest(row))], s2, Bump, s3);
    Extend(c, s0, [] + [Reserve] + [Push(LogRequest(row))] + [Bump], s3, Drain(1), s4);
    trace := [] + [Reserve] + [Push(LogRequest(row))] + [Bump] + [Drain(1)];
    Extend(c, s0, trace, s4, Settle, s5);
    Extend(c, s0, trace + [Settle], s5, Load, s6);
    Extend(c, s0, trace + [Settle] + [Load], s6, Process, RunBatch(s6));
    trace := trace + [Settle] + [Load] + [Process];
    DropsRow(s6, row);
  }

  lemma DropsRow(s: State, row: LogRow)
    requires s.worker == Loaded([LogRequest(row)], 1) && s.lastGen == 0
    ensures RunBatch(s).store.log == s.store.log && RunBatch(s).done == s.done + [LogRequest(row)]
  {
    var ops := [LogRequest(row)];
    ClearHeadsTheRest(ops);
    assert Clears(ops) == 0 && Effective(ops, true) == [];
  }
}
