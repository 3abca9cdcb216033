/** The asynchronous persistence queue (src/async_persistence.cpp).

    Producers on every shard reserve a slot, then push; one worker drains batches,
    accumulates route saves, and skips operations that a requested clear makes stale.
    The store is modelled by the three tables the SQLite back end keeps, and its calls
    succeed. */
module PersistenceStore {

  datatype RouteRecord = RouteRecord(tokens: seq<int>, backend: int)
  datatype BackendRow = BackendRow(ip: string, port: int, weight: int, priority: int, kind: string, role: string)
  datatype LogRow = LogRow(requestId: string, apiKeyId: string, timestampMs: int, statusCode: int, latencyMs: int)

  datatype Op =
    | SaveRoute(route: RouteRecord)
    | SaveBackend(id: int, row: BackendRow)
    | RemoveBackend(id: int)
    | RemoveRoutesFor(backend: int)
    | ClearAll
    | LogRequest(entry: LogRow)

  datatype Store = Store(routes: map<seq<int>, int>, backends: map<int, BackendRow>, log: seq<LogRow>)

  /** What one operation does to the store when it is executed on its own. */
  function Exec(op: Op, s: Store): Store {
    match op
    case SaveRoute(r) => s.(routes := s.routes[r.tokens := r.backend])
    case SaveBackend(id, row) => s.(backends := s.backends[id := row])
    case RemoveBackend(id) => s.(backends := s.backends - {id})
    case RemoveRoutesFor(b) => s.(routes := map t | t in s.routes && s.routes[t] != b :: s.routes[t])
    case ClearAll => s.(routes := map[], backends := map[])
    case LogRequest(e) => s.(log := s.log + [e])
  }

  /** Plain first-in first-out execution: the reference meaning of a queue. */
  function ExecAll(ops: seq<Op>, s: Store): Store {
    if ops == [] then s else Exec(ops[|ops| - 1], ExecAll(ops[..|ops| - 1], s))
  }

  function SaveBatch(routes: seq<RouteRecord>, s: Store): Store {
    if routes == [] then s
    else Exec(SaveRoute(routes[|routes| - 1]), SaveBatch(routes[..|routes| - 1], s))
  }

  /** The part of a batch that runs when a clear is outstanding. */
  function FromFirstClear(ops: seq<Op>): seq<Op> {
    if ops == [] || ops[0].ClearAll? then ops else FromFirstClear(ops[1..])
  }

  /** The operations a stale pass drops. */
  function BeforeFirstClear(ops: seq<Op>): (r: seq<Op>)
    ensures r + FromFirstClear(ops) == ops && Clears(r) == 0
  {
    if ops == [] || ops[0].ClearAll? then [] else [ops[0]] + BeforeFirstClear(ops[1..])
  }

  function Effective(ops: seq<Op>, stale: bool): seq<Op> {
    if stale then FromFirstClear(ops) else ops
  }

  function Skipped(ops: seq<Op>, stale: bool): seq<Op> {
    if stale then BeforeFirstClear(ops) else []
  }

  function Clears(ops: seq<Op>): nat {
    if ops == [] then 0 else (if ops[0].ClearAll? then 1 else 0) + Clears(ops[1..])
  }

  function Logs(ops: seq<Op>): seq<LogRow> {
    if ops == [] then [] else (if ops[0].LogRequest? then [ops[0].entry] else []) + Logs(ops[1..])
  }

  ghost predicate SameTables(s: Store, t: Store) { s.routes == t.routes && s.backends == t.backends }

  lemma {:induction false} ClearsConcat(a: seq<Op>, b: seq<Op>)
    ensures Clears(a + b) == Clears(a) + Clears(b)
  {
    if a == [] { assert a + b == b; }
    else { ClearsConcat(a[1..], b); assert (a + b)[1..] == a[1..] + b; }
  }

  lemma {:induction false} LogsConcat(a: seq<Op>, b: seq<Op>)
    ensures Logs(a + b) == Logs(a) + Logs(b)
  {
    if a == [] {
      assert a + b == b;
    } else {
      var first := if a[0].LogRequest? then [a[0].entry] else [];
      LogsConcat(a[1..], b);
      assert (a + b)[1..] == a[1..] + b;
      assert first + (Logs(a[1..]) + Logs(b)) == (first + Logs(a[1..])) + Logs(b);
    }
  }

  lemma {:induction false} ExecAllConcat(a: seq<Op>, b: seq<Op>, s: Store)
    ensures ExecAll(a + b, s) == ExecAll(b, ExecAll(a, s))
  {
    if b == [] { assert a + b == a; }
    else {
      ExecAllConcat(a, b[..|b| - 1], s);
      assert (a + b)[..|a + b| - 1] == a + b[..|b| - 1];
    }
  }

  lemma {:induction false} ClearHeadsTheRest(ops: seq<Op>)
    ensures Clears(FromFirstClear(ops)) == Clears(ops)
    ensures Clears(ops) == 0 ==> FromFirstClear(ops) == []
  {
    if ops != [] && !ops[0].ClearAll? { ClearHeadsTheRest(ops[1..]); }
  }

  /** Appending one operation to a batch, in the three cases of the worker's loop. */
  lemma {:induction false} FromFirstClearAppend(ops: seq<Op>, op: Op)
    ensures Clears(ops) > 0 ==> FromFirstClear(ops + [op]) == FromFirstClear(ops) + [op]
    ensures Clears(ops) == 0 ==> FromFirstClear(ops + [op]) == (if op.ClearAll? then [op] else [])
  {
    ClearHeadsTheRest(ops);
    if ops != [] {
      assert (ops + [op])[1..] == ops[1..] + [op];
      FromFirstClearAppend(ops[1..], op);
    }
  }

  /** The two tables never depend on the log, and a clear makes any two stores agree. */
  lemma {:induction false} TablesFollowTables(ops: seq<Op>, s: Store, t: Store)
    requires SameTables(s, t) || Clears(ops) > 0
    ensures SameTables(ExecAll(ops, s), ExecAll(ops, t))
  {
    if ops != [] {
      var last := ops[|ops| - 1];
      assert ops == ops[..|ops| - 1] + [last];
      ClearsConcat(ops[..|ops| - 1], [last]);
      if !last.ClearAll? { TablesFollowTables(ops[..|ops| - 1], s, t); }
    }
  }

  lemma {:induction false} LogIsLogs(ops: seq<Op>, s: Store)
    ensures ExecAll(ops, s).log == s.log + Logs(ops)
  {
    if ops != [] {
      var last := ops[|ops| - 1];
      LogIsLogs(ops[..|ops| - 1], s);
      LogsConcat(ops[..|ops| - 1], [last]);
      assert ops == ops[..|ops| - 1] + [last];
    }
  }

  /** Skipping a stale prefix is invisible in the route and backend tables as soon as the
      batch itself holds the clear. */
  lemma SkipIsAbsorbed(ops: seq<Op>, s: Store, t: Store)
    requires Clears(ops) > 0
    ensures SameTables(ExecAll(FromFirstClear(ops), s), ExecAll(ops, t))
  {
    var dropped, kept := BeforeFirstClear(ops), FromFirstClear(ops);
    ExecAllConcat(dropped, kept, t);
    ClearHeadsTheRest(ops);
    TablesFollowTables(kept, s, ExecAll(dropped, t));
  }

  /** Nothing from the k-th operation on overwrites or removes this route. */
  ghost predicate RouteKept(ops: seq<Op>, k: nat, tokens: seq<int>, backend: int) {
    forall j :: k <= j < |ops| ==>
      && !(ops[j].SaveRoute? && ops[j].route.tokens == tokens)
      && ops[j] != RemoveRoutesFor(backend) && !ops[j].ClearAll?
  }

  ghost predicate RouteSaved(ops: seq<Op>, k: nat, tokens: seq<int>, backend: int) {
    k < |ops| && ops[k] == SaveRoute(RouteRecord(tokens, backend)) && RouteKept(ops, k + 1, tokens, backend)
  }

  ghost predicate Routes(s: Store, tokens: seq<int>, backend: int) { tokens in s.routes && s.routes[tokens] == backend }

  lemma RouteKeptSnoc(ops: seq<Op>, k: nat, tokens: seq<int>, backend: int)
    requires ops != [] && k < |ops|
    ensures var n := |ops| - 1;
            RouteKept(ops, k, tokens, backend) <==> RouteKept(ops[..n], k, tokens, backend) && RouteKept(ops, n, tokens, backend)
  {
    var n := |ops| - 1;
    assert forall j :: k <= j < n ==> ops[..n][j] == ops[j];
  }

  /** The routes of plain execution: the last save wins, unless its backend's routes or everything
      was removed after it. */
  lemma {:induction false} RouteStoredIff(ops: seq<Op>, s: Store, tokens: seq<int>, backend: int)
    ensures Routes(ExecAll(ops, s), tokens, backend) <==>
            || (exists k: nat :: RouteSaved(ops, k, tokens, backend))
            || (Routes(s, tokens, backend) && RouteKept(ops, 0, tokens, backend))
  {
    if ops != [] {
      hide RouteKept;
      var n := |ops| - 1;
      var before := ops[..n];
      RouteStoredIff(before, s, tokens, backend);
      RouteStep(ops[n], ExecAll(before, s), ops, tokens, backend);
      RouteKeptSnoc(ops, 0, tokens, backend);
      forall k: nat | k < n
        ensures RouteSaved(ops, k, tokens, backend) <==> RouteSaved(before, k, tokens, backend) && RouteKept(ops, n, tokens, backend)
      {
        RouteKeptSnoc(ops, k + 1, tokens, backend);
      }
      assert RouteSaved(ops, n, tokens, backend) <==> ops[n] == SaveRoute(RouteRecord(tokens, backend)) by {
        NothingAfter(ops, tokens, backend);
      }
      if exists k: nat :: RouteSaved(before, k, tokens, backend) {
        var k: nat :| RouteSaved(before, k, tokens, backend);
        assert RouteSaved(ops, k, tokens, backend) <==> RouteKept(ops, n, tokens, backend);
      }
    }
  }

  lemma NothingAfter(ops: seq<Op>, tokens: seq<int>, backend: int)
    ensures RouteKept(ops, |ops|, tokens, backend)
  {}

  lemma RouteStep(op: Op, s: Store, ops: seq<Op>, tokens: seq<int>, backend: int)
    requires ops != [] && ops[|ops| - 1] == op
    ensures Routes(Exec(op, s), tokens, backend) <==>
            || op == SaveRoute(RouteRecord(tokens, backend))
            || (Routes(s, tokens, backend) && RouteKept(ops, |ops| - 1, tokens, backend))
  {}

  ghost predicate BackendKept(ops: seq<Op>, k: nat, id: int) {
    forall j :: k <= j < |ops| ==>
      !(ops[j].SaveBackend? && ops[j].id == id) && ops[j] != RemoveBackend(id) && !ops[j].ClearAll?
  }

  ghost predicate BackendSaved(ops: seq<Op>, k: nat, id: int, row: BackendRow) {
    k < |ops| && ops[k] == SaveBackend(id, row) && BackendKept(ops, k + 1, id)
  }

  ghost predicate Stores(s: Store, id: int, row: BackendRow) { id in s.backends && s.backends[id] == row }

  lemma BackendKeptSnoc(ops: seq<Op>, k: nat, id: int)
    requires ops != [] && k < |ops|
    ensures var n := |ops| - 1; BackendKept(ops, k, id) <==> BackendKept(ops[..n], k, id) && BackendKept(ops, n, id)
  {
    var n := |ops| - 1;
    assert forall j :: k <= j < n ==> ops[..n][j] == ops[j];
  }

  /** The backends of plain execution: the last save wins, unless the backend or everything was
      removed after it. */
  lemma {:induction false} BackendStoredIff(ops: seq<Op>, s: Store, id: int, row: BackendRow)
    ensures Stores(ExecAll(ops, s), id, row) <==>
            || (exists k: nat :: BackendSaved(ops, k, id, row))
            || (Stores(s, id, row) && BackendKept(ops, 0, id))
  {
    if ops != [] {
      hide BackendKept;
      var n := |ops| - 1;
      var before := ops[..n];
      BackendStoredIff(before, s, id, row);
      BackendStep(ops[n], ExecAll(before, s), ops, id, row);
      BackendKeptSnoc(ops, 0, id);
      forall k: nat | k < n
        ensures BackendSaved(ops, k, id, row) <==> BackendSaved(before, k, id, row) && BackendKept(ops, n, id)
      {
        BackendKeptSnoc(ops, k + 1, id);
      }
      assert BackendSaved(ops, n, id, row) <==> ops[n] == SaveBackend(id, row) by { NothingFollows(ops, id); }
      if exists k: nat :: BackendSaved(before, k, id, row) {
        var k: nat :| BackendSaved(before, k, id, row);
        assert BackendSaved(ops, k, id, row) <==> BackendKept(ops, n, id);
      }
    }
  }

  lemma NothingFollows(ops: seq<Op>, id: int)
    ensures BackendKept(ops, |ops|, id)
  {}

  lemma BackendStep(op: Op, s: Store, ops: seq<Op>, id: int, row: BackendRow)
    requires ops != [] && ops[|ops| - 1] == op
    ensures Stores(Exec(op, s), id, row) <==>
            op == SaveBackend(id, row) || (Stores(s, id, row) && BackendKept(ops, |ops| - 1, id))
  {}

  /** Clearing leaves the attribution log alone, so a skipped log row is lost: one batch
      keeps the log of plain execution exactly when it is not stale or holds no log row
      before its first clear. */
  lemma BatchKeepsLogIff(ops: seq<Op>, stale: bool, s: Store)
    ensures ExecAll(Effective(ops, stale), s).log == ExecAll(ops, s).log
       <==> Logs(Skipped(ops, stale)) == []
  {
    LogsConcat(BeforeFirstClear(ops), FromFirstClear(ops));
    LogIsLogs(ops, s);
    LogIsLogs(Effective(ops, stale), s);
  }
}

/** The worker side: the route accumulator and the batch loop, as the source runs them. */
module PersistenceWorker {
  import opened PersistenceStore

  class Manager {
    var store: Store
    var lastProcessedGeneration: nat

    constructor (initial: Store)
      ensures store == initial && lastProcessedGeneration == 0
    {
      store, lastProcessedGeneration := initial, 0;
    }

    /** Processes one batch against the generation read at its start. */
    method ProcessBatch(batch: seq<Op>, genBefore: nat)
      modifies this
      ensures store == ExecAll(Effective(batch, genBefore != old(lastProcessedGeneration)), old(store))
      ensures lastProcessedGeneration ==
              if genBefore != old(lastProcessedGeneration) && Clears(batch) > 0 then genBefore
              else old(lastProcessedGeneration)
    {
      var routes := new RouteAccumulator(this);
      var seenClear := false;
      ghost var stale := genBefore != lastProcessedGeneration;
      ghost var was := store;
      for i := 0 to |batch|
        invariant routes.manager == this && fresh(routes)
        invariant SaveBatch(routes.routes, store) == ExecAll(Effective(batch[..i], stale), was)
        invariant seenClear == (stale && Clears(batch[..i]) > 0)
        invariant lastProcessedGeneration == if seenClear then genBefore else old(lastProcessedGeneration)
      {
        var op := batch[i];
        assert batch[..i + 1] == batch[..i] + [op];
        ClearsConcat(batch[..i], [op]);
        FromFirstClearAppend(batch[..i], op);
        ClearHeadsTheRest(batch[..i]);
        if genBefore != lastProcessedGeneration && !seenClear {
          if op.ClearAll? {
            seenClear := true;
            lastProcessedGeneration := genBefore;
          } else {
            continue;
          }
        }
        ghost var run := Effective(batch[..i], stale);
        assert Effective(batch[..i + 1], stale) == run + [op];
        assert (run + [op])[..|run|] == run;
        routes.Execute(op);
      }
      assert batch[..|batch|] == batch;
      routes.Flush();
    }
  }

  class RouteAccumulator {
    const manager: Manager
    var routes: seq<RouteRecord>

    constructor (manager: Manager)
      ensures this.manager == manager && routes == []
    {
      this.manager := manager;
      routes := [];
    }

    method Add(r: RouteRecord)
      modifies this
      ensures routes == old(routes) + [r]
    {
      routes := routes + [r];
    }

    method Flush()
      modifies this, manager`store
      ensures routes == [] && manager.store == SaveBatch(old(routes), old(manager.store))
    {
      if routes == [] { return; }
      manager.store := SaveBatch(routes, manager.store);
      routes := [];
    }

    method Discard()
      modifies this
      ensures routes == []
    {
      routes := [];
    }

    /** The execute overloads. What is stored plus what is still accumulated always adds up
        to executing the operations one by one. */
    method Execute(op: Op)
      modifies this, manager`store
      ensures SaveBatch(routes, manager.store) == Exec(op, SaveBatch(old(routes), old(manager.store)))
      ensures !op.SaveRoute? ==> routes == []
    {
      match op
      case SaveRoute(r) =>
        Add(r);
        assert routes[..|routes| - 1] == old(routes);
      case ClearAll =>
        ghost var pending := routes;
        LogSurvivesSaves(pending, manager.store);
        Discard();
        manager.store := Exec(op, manager.store);
      case SaveBackend(_, _) => Flush(); manager.store := Exec(op, manager.store);
      case RemoveBackend(_) => Flush(); manager.store := Exec(op, manager.store);
      case RemoveRoutesFor(_) => Flush(); manager.store := Exec(op, manager.store);
      case LogRequest(_) => Flush(); manager.store := Exec(op, manager.store);
    }
  }

  lemma {:induction false} LogSurvivesSaves(routes: seq<RouteRecord>, s: Store)
    ensures SaveBatch(routes, s).log == s.log && SaveBatch(routes, s).backends == s.backends
  {
    if routes != [] { LogSurvivesSaves(routes[..|routes| - 1], s); }
  }
}

/** Every interleaving of producers and the worker. Each atomic access is one step. */
module PersistenceQueue {
  import opened PersistenceStore

  datatype Config = Config(maxDepth: nat, capacity: nat, maxBatch: nat) {
    // The ring rounds the depth up to a power of two, so it never holds less.
    predicate Valid() { 0 < maxDepth <= capacity && 0 < maxBatch }
  }

  /** Where the worker is: between extract_batch's drain and its size update, between that
      and the generation load, or about to run the batch. */
  datatype Worker = Idle | Drained(batch: seq<Op>) | Settled(batch: seq<Op>) | Loaded(batch: seq<Op>, gen: nat) {
    function Hand(): seq<Op> { if Idle? then [] else batch }
    function Unsettled(): seq<Op> { if Drained? then batch else [] }
  }

  /** queueSize is the 64-bit counter read as a signed number: a negative value is what the
      source sees as a huge one. The last four fields record the history of the run. */
  datatype State = State(
    ring: seq<Op>, queueSize: int, generation: nat,
    reserved: nat,   // try_enqueue calls admitted and not yet pushed
    refused: nat,    // try_enqueue calls that have yet to undo their reservation
    bumped: nat,     // queue_clear_all calls between the bump and the push
    uncounted: nat,  // queue_clear_all calls between the push and the size update
    worker: Worker, lastGen: nat, store: Store,
    pushed: seq<Op>, done: seq<Op>, skipped: seq<Op>, lost: nat, peak: nat)

  datatype Step =
    | Reserve | Push(op: Op) | Undo
    | Bump | PushClear | CountClear
    | Drain(n: nat) | Settle | Load | Process

  function Init(store: Store): State {
    State([], 0, 0, 0, 0, 0, 0, Idle, 0, store, [], [], [], 0, 0)
  }

  /** One atomic step; a step that is not enabled changes nothing. */
  function Next(c: Config, s: State, e: Step): State {
    match e
    case Reserve =>
      var t := s.(queueSize := s.queueSize + 1);
      if s.queueSize < 0 || s.queueSize >= c.maxDepth then t.(refused := s.refused + 1)
      else t.(reserved := s.reserved + 1)
    case Push(op) =>
      if s.reserved == 0 || op.ClearAll? then s
      else if |s.ring| >= c.capacity then s.(reserved := s.reserved - 1, refused := s.refused + 1)
      else s.(reserved := s.reserved - 1, ring := s.ring + [op], pushed := s.pushed + [op])
    case Undo =>
      if s.refused == 0 then s else s.(refused := s.refused - 1, queueSize := s.queueSize - 1)
    case Bump => s.(generation := s.generation + 1, bumped := s.bumped + 1)
    case PushClear =>
      if s.bumped == 0 then s
      else if |s.ring| >= c.capacity then s.(bumped := s.bumped - 1, lost := s.lost + 1)
      else s.(bumped := s.bumped - 1, ring := s.ring + [ClearAll], pushed := s.pushed + [ClearAll],
              uncounted := s.uncounted + 1, peak := if s.peak > s.uncounted then s.peak else s.uncounted + 1)
    case CountClear =>
      if s.uncounted == 0 then s else s.(uncounted := s.uncounted - 1, queueSize := s.queueSize + 1)
    case Drain(n) =>
      if !s.worker.Idle? || n == 0 || n > c.maxBatch || n > |s.ring| then s
      else s.(worker := Drained(s.ring[..n]), ring := s.ring[n..])
    case Settle =>
      if !s.worker.Drained? then s
      else s.(worker := Settled(s.worker.batch), queueSize := s.queueSize - |s.worker.batch|)
    case Load =>
      if !s.worker.Settled? then s else s.(worker := Loaded(s.worker.batch, s.generation))
    case Process => if s.worker.Loaded? then RunBatch(s) else s
  }

  /** What ProcessBatch does with the batch in hand. */
  function RunBatch(s: State): State
    requires s.worker.Loaded?
  {
    var batch, stale := s.worker.batch, s.worker.gen != s.lastGen;
    s.(worker := Idle,
       store := ExecAll(Effective(batch, stale), s.store),
       lastGen := if stale && Clears(batch) > 0 then s.worker.gen else s.lastGen,
       done := s.done + batch, skipped := s.skipped + Skipped(batch, stale))
  }

  function Run(c: Config, s: State, trace: seq<Step>): State {
    if trace == [] then s else Next(c, Run(c, s, trace[..|trace| - 1]), trace[|trace| - 1])
  }

  /** Operations admitted by try_enqueue whose slots the worker has not given back. */
  function Admitted(s: State): int {
    s.reserved + Plain(s.ring) + Plain(s.worker.Unsettled())
  }

  function Plain(ops: seq<Op>): int { |ops| - Clears(ops) }

  ghost predicate Consistent(s: State) {
    && s.pushed == s.done + s.worker.Hand() + s.ring
    && Clears(s.pushed) + s.bumped + s.lost == s.generation
    && s.lastGen <= s.generation
    && Clears(s.done) <= s.lastGen
    && (s.worker.Loaded? ==>
          && s.lastGen <= s.worker.gen <= s.generation
          && Clears(s.done) + Clears(s.worker.batch) <= s.worker.gen)
  }

  /** The tables may lag plain execution only while a clear is still outstanding. */
  ghost predicate TablesInv(store: Store, s: State) {
    SameTables(s.store, ExecAll(s.done, store)) || Clears(s.done) < s.generation
  }

  ghost predicate LogInv(store: Store, s: State) {
    && |s.store.log| + |Logs(s.skipped)| == |store.log| + |Logs(s.done)|
    && (Logs(s.skipped) == [] ==> s.store.log == store.log + Logs(s.done))
  }

  ghost predicate Accounting(c: Config, s: State) {
    && s.queueSize == s.reserved + s.refused + |s.ring| + |s.worker.Unsettled()| - s.uncounted
    && s.uncounted <= s.peak
    && Admitted(s) <= c.maxDepth + s.peak
    && |s.ring| <= c.capacity
  }

  /** Only running a batch touches the store or the processed history. */
  lemma Frame(c: Config, s: State, e: Step)
    requires !(e.Process? && s.worker.Loaded?)
    ensures var t := Next(c, s, e);
            && t.store == s.store && t.done == s.done && t.skipped == s.skipped && t.lastGen == s.lastGen
            && t.generation >= s.generation
  {}

  lemma ConsistentProducer(c: Config, s: State, e: Step)
    requires Consistent(s)
    requires e.Reserve? || e.Push? || e.Undo? || e.Bump? || e.PushClear? || e.CountClear?
    ensures Consistent(Next(c, s, e))
  {
    if e.Push? {
      if !e.op.ClearAll? { ConsistentPush(s, e.op, Next(c, s, e)); }
    } else if e.PushClear? {
      if s.bumped > 0 && |s.ring| < c.capacity { ConsistentPush(s.(bumped := s.bumped - 1), ClearAll, Next(c, s, e)); }
    } else {
      ConsistentCounts(s, Next(c, s, e));
    }
  }

  /** Counters that the pushed operations do not show. */
  lemma ConsistentCounts(s: State, t: State)
    requires Consistent(s) && t.generation - t.bumped == s.generation - s.bumped && t.generation >= s.generation
    requires t == s.(queueSize := t.queueSize, generation := t.generation, reserved := t.reserved, refused := t.refused,
                     bumped := t.bumped, uncounted := t.uncounted)
    ensures Consistent(t)
  {}

  /** One operation more at the end of the ring; a clear is no longer outstanding then. */
  lemma ConsistentPush(s: State, op: Op, t: State)
    requires Clears(s.pushed) + s.bumped + s.lost + (if op.ClearAll? then 1 else 0) == s.generation
    requires Consistent(s.(bumped := s.bumped + if op.ClearAll? then 1 else 0))
    requires || t == s.(queueSize := t.queueSize, reserved := t.reserved, refused := t.refused, ring := s.ring + [op],
                        pushed := s.pushed + [op], uncounted := t.uncounted, peak := t.peak)
             || (!op.ClearAll? && t == s.(queueSize := t.queueSize, reserved := t.reserved, refused := t.refused))
    ensures Consistent(t)
  {
    hide Clears;
    ClearsConcat(s.pushed, [op]);
    OneClear(op);
    assert s.done + s.worker.Hand() + s.ring + [op] == s.done + s.worker.Hand() + (s.ring + [op]);
  }

  lemma OneClear(op: Op)
    ensures Clears([op]) == if op.ClearAll? then 1 else 0
  {}

  lemma ConsistentWorker(c: Config, s: State, e: Step)
    requires Consistent(s)
    requires e.Drain? || e.Settle? || e.Load?
    ensures Consistent(Next(c, s, e))
  {
    var hand := s.worker.Hand();
    if e.Drain? {
      if e.n <= |s.ring| { assert s.done + [] + s.ring == s.done + s.ring[..e.n] + s.ring[e.n..]; }
    } else if e.Load? {
      ClearsConcat(s.done + hand, s.ring);
      ClearsConcat(s.done, hand);
    }
  }

  lemma ConsistentRun(s: State)
    requires Consistent(s) && s.worker.Loaded?
    ensures Consistent(RunBatch(s))
  {
    ClearsConcat(s.done, s.worker.batch);
    assert s.done + s.worker.batch + [] == s.done + s.worker.batch;
  }

  lemma TablesRun(store: Store, s: State)
    requires Consistent(s) && TablesInv(store, s) && s.worker.Loaded?
    ensures TablesInv(store, RunBatch(s))
  {
    var batch, fifo := s.worker.batch, ExecAll(s.done, store);
    ClearsConcat(s.done, batch);
    ExecAllConcat(s.done, batch, store);
    if Clears(batch) > 0 {
      SkipIsAbsorbed(batch, s.store, fifo);
      TablesFollowTables(batch, s.store, fifo);
    } else if s.worker.gen == s.lastGen && SameTables(s.store, fifo) {
      TablesFollowTables(batch, s.store, fifo);
    }
  }

  lemma LogRun(store: Store, s: State)
    requires LogInv(store, s) && s.worker.Loaded?
    ensures LogInv(store, RunBatch(s))
  {
    var batch, stale := s.worker.batch, s.worker.gen != s.lastGen;
    var run, skip := Effective(batch, stale), Skipped(batch, stale);
    LogsConcat(s.done, batch);
    LogsConcat(s.skipped, skip);
    LogsOfBatch(batch, stale);
    LogIsLogs(run, s.store);
    LogAlgebra(store.log, s.store.log, Logs(s.done), Logs(s.skipped), Logs(skip), Logs(run));
  }

  lemma LogAlgebra(base: seq<LogRow>, log: seq<LogRow>, done: seq<LogRow>, skipped: seq<LogRow>,
                   skip: seq<LogRow>, run: seq<LogRow>)
    requires |log| + |skipped| == |base| + |done|
    requires skipped == [] ==> log == base + done
    ensures |log + run| + |skipped + skip| == |base| + |done + (skip + run)|
    ensures skipped + skip == [] ==> log + run == base + (done + (skip + run))
  {}

  lemma LogsOfBatch(batch: seq<Op>, stale: bool)
    ensures Logs(batch) == Logs(Skipped(batch, stale)) + Logs(Effective(batch, stale))
  {
    LogsConcat(BeforeFirstClear(batch), FromFirstClear(batch));
  }

  lemma AccountingStep(c: Config, s: State, e: Step)
    requires c.Valid() && Accounting(c, s)
    ensures Accounting(c, Next(c, s, e))
  {
    if e.Drain? {
      AccountingDrain(c, s, e.n);
    } else if e.Push? {
      AccountingPush(c, s, e.op, Next(c, s, e));
    } else if e.PushClear? {
      AccountingPush(c, s, ClearAll, Next(c, s, e));
    } else {
      hide Clears;
      ClearsAtMost(s.ring);
      ClearsAtMost(s.worker.Unsettled());
    }
  }

  lemma AccountingDrain(c: Config, s: State, n: nat)
    requires Accounting(c, s)
    ensures Accounting(c, Next(c, s, Drain(n)))
  {
    hide Clears;
    if s.worker.Idle? && n <= |s.ring| {
      assert s.ring == s.ring[..n] + s.ring[n..];
      ClearsConcat(s.ring[..n], s.ring[n..]);
      NoClearsInNothing();
    }
  }

  lemma NoClearsInNothing()
    ensures Clears([]) == 0
  {}

  lemma AccountingPush(c: Config, s: State, op: Op, t: State)
    requires Accounting(c, s) && (t == s || t == Next(c, s, if op.ClearAll? then PushClear else Push(op)))
    ensures Accounting(c, t)
  {
    hide Clears;
    ClearsConcat(s.ring, [op]);
    OneClear(op);
  }

  lemma {:induction false} ClearsAtMost(ops: seq<Op>)
    ensures Clears(ops) <= |ops|
  {
    if ops != [] { ClearsAtMost(ops[1..]); }
  }

  lemma {:induction false} RunInvariant(c: Config, store: Store, trace: seq<Step>)
    requires c.Valid()
    ensures var s := Run(c, Init(store), trace);
            Consistent(s) && TablesInv(store, s) && LogInv(store, s) && Accounting(c, s)
  {
    if trace != [] {
      var before, e := trace[..|trace| - 1], trace[|trace| - 1];
      RunInvariant(c, store, before);
      var s := Run(c, Init(store), before);
      AccountingStep(c, s, e);
      if e.Process? && s.worker.Loaded? {
        ConsistentRun(s);
        TablesRun(store, s);
        LogRun(store, s);
      } else {
        Frame(c, s, e);
        if e.Drain? || e.Settle? || e.Load? { ConsistentWorker(c, s, e); }
        else if !e.Process? { ConsistentProducer(c, s, e); }
      }
    }
  }

  /** Batching, accumulation and skipping preserve meaning: whatever the interleaving and
      the batch boundaries, once the ring is drained and every requested clear has been
      pushed, the tables are those of executing the pushed operations one by one. */
  lemma StoreMatchesFifo(c: Config, store: Store, trace: seq<Step>)
    requires c.Valid()
    ensures var s := Run(c, Init(store), trace);
            s.ring == [] && s.worker.Idle? && s.bumped == 0 && s.lost == 0
            ==> SameTables(s.store, ExecAll(s.pushed, store))
  {
    RunInvariant(c, store, trace);
    var s := Run(c, Init(store), trace);
    assert s.done + [] + [] == s.done;
  }

  /** Concurrent producers never overshoot the depth: the excess is at most the number of
      clears that were ever in the ring before being counted, so none without clears. */
  lemma AdmissionBound(c: Config, store: Store, trace: seq<Step>)
    requires c.Valid()
    ensures var s := Run(c, Init(store), trace);
            && Admitted(s) <= c.maxDepth + s.peak
            && (Bump !in trace ==> Admitted(s) <= c.maxDepth)
            && (s.reserved == s.refused == s.uncounted == 0 && !s.worker.Drained? ==> s.queueSize == |s.ring|)
  {
    RunInvariant(c, store, trace);
    if Bump !in trace { NoClears(c, store, trace); }
  }

  lemma {:induction false} NoClears(c: Config, store: Store, trace: seq<Step>)
    requires Bump !in trace
    ensures var s := Run(c, Init(store), trace); s.bumped == 0 && s.peak == 0
  {
    if trace != [] { NoClears(c, store, trace[..|trace| - 1]); }
  }

  lemma NoSteps(c: Config, s: State)
    ensures Run(c, s, []) == s
  {}

  lemma Extend(c: Config, s: State, trace: seq<Step>, t: State, e: Step, u: State)
    requires Run(c, s, trace) == t && Next(c, t, e) == u
    ensures Run(c, s, trace + [e]) == u
  {
    assert (trace + [e])[..|trace|] == trace;
  }

  lemma {:induction false} RunConcat(c: Config, s: State, a: seq<Step>, b: seq<Step>)
    ensures Run(c, s, a + b) == Run(c, Run(c, s, a), b)
  {
    if b == [] {
      assert a + b == a;
    } else {
      assert (a + b)[..|a + b| - 1] == a + b[..|b| - 1];
      RunConcat(c, s, a, b[..|b| - 1]);
    }
  }

  /** The clears requested so far. */
  function Bumps(trace: seq<Step>): nat {
    if trace == [] then 0 else Bumps(trace[..|trace| - 1]) + if trace[|trace| - 1].Bump? then 1 else 0
  }

  lemma {:induction false} GenerationIsBumps(c: Config, store: Store, trace: seq<Step>)
    ensures Run(c, Init(store), trace).generation == Bumps(trace)
  {
    if trace != [] { GenerationIsBumps(c, store, trace[..|trace| - 1]); }
  }
}
