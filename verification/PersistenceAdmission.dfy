/** The admission bound is sharp: late counting of clears lets in exactly that many too many. */
module PersistenceAdmission {
  import opened PersistenceStore
  import opened PersistenceQueue

  function Reserves(n: nat): seq<Step> { if n == 0 then [] else Reserves(n - 1) + [Reserve] }

  lemma {:induction false} ReservesRun(c: Config, store: Store, n: nat)
    requires n <= c.maxDepth
    ensures Run(c, Init(store), Reserves(n)) == Init(store).(queueSize := n, reserved := n)
  {
    hide Run;
    if n == 0 {
      NoSteps(c, Init(store));
    } else {
      ReservesRun(c, store, n - 1);
      Extend(c, Init(store), Reserves(n - 1), Init(store).(queueSize := n - 1, reserved := n - 1),
             Reserve, Init(store).(queueSize := n, reserved := n));
    }
  }

  /** The queue is full of reservations, k clears have passed through it uncounted, and k
      operations too many have been admitted. */
  ghost predicate Over(c: Config, s: State, k: nat) {
    && s.ring == [] && s.queueSize == c.maxDepth && s.generation == s.lastGen == k && s.reserved == c.maxDepth + k
    && s.refused == s.bumped == s.lost == 0 && s.uncounted == s.peak == k && s.worker.Idle?
  }

  function Passing(): seq<Step> { [] + [Bump] + [PushClear] + [Drain(1)] + [Settle] }
  function Admitting(): seq<Step> { [] + [Load] + [Process] + [Reserve] }
  function Round(): seq<Step> { Passing() + Admitting() }

  /** The state in the middle of a round: the clear is out of the ring and its slot given back. */
  function Passed(c: Config, s: State, k: nat): State {
    s.(generation := k + 1, pushed := s.pushed + [ClearAll], uncounted := k + 1, peak := k + 1,
       worker := Settled([ClearAll]), queueSize := c.maxDepth - 1)
  }

  lemma PassingRun(c: Config, s: State, k: nat)
    requires c.Valid() && Over(c, s, k)
    ensures Run(c, s, Passing()) == Passed(c, s, k)
  {
    hide Run;
    var one := [ClearAll];
    var s1 := s.(generation := k + 1, bumped := 1);
    var s2 := s1.(bumped := 0, ring := one, pushed := s.pushed + one, uncounted := k + 1, peak := k + 1);
    var s3 := s2.(worker := Drained(one), ring := []);
    assert [] + one == one && one[..1] == one && one[1..] == [];
    NoSteps(c, s);
    Extend(c, s, [], s, Bump, s1);
    Extend(c, s, [] + [Bump], s1, PushClear, s2);
    Extend(c, s, [] + [Bump] + [PushClear], s2, Drain(1), s3);
    Extend(c, s, [] + [Bump] + [PushClear] + [Drain(1)], s3, Settle, Passed(c, s, k));
  }

  lemma AdmittingRun(c: Config, s: State, k: nat)
    requires c.Valid() && Over(c, s, k)
    ensures Over(c, Run(c, Passed(c, s, k), Admitting()), k + 1)
  {
    hide Run, ExecAll;
    var p := Passed(c, s, k);
    var p1 := p.(worker := Loaded([ClearAll], k + 1));
    var p2 := RunBatch(p1);
    assert Clears([ClearAll]) == 1;
    NoSteps(c, p);
    Extend(c, p, [], p, Load, p1);
    Extend(c, p, [] + [Load], p1, Process, p2);
    Extend(c, p, [] + [Load] + [Process], p2, Reserve, p2.(queueSize := c.maxDepth, reserved := p2.reserved + 1));
  }

  /** A clear passes through before it is counted, and its slot goes to one more operation. */
  lemma RoundRun(c: Config, s: State, k: nat)
    requires c.Valid() && Over(c, s, k)
    ensures Over(c, Run(c, s, Round()), k + 1)
  {
    hide Over, Passing, Admitting, Passed;
    PassingRun(c, s, k);
    AdmittingRun(c, s, k);
    RunConcat(c, s, Passing(), Admitting());
  }

  function Rounds(k: nat): seq<Step> { if k == 0 then [] else Rounds(k - 1) + Round() }

  lemma {:induction false} RoundsRun(c: Config, store: Store, k: nat)
    requires c.Valid()
    ensures Over(c, Run(c, Init(store), Reserves(c.maxDepth) + Rounds(k)), k)
  {
    hide Run, Over, Round;
    if k == 0 {
      FullOver(c, store);
      assert Reserves(c.maxDepth) + [] == Reserves(c.maxDepth);
    } else {
      var before := Reserves(c.maxDepth) + Rounds(k - 1);
      RoundsRun(c, store, k - 1);
      RunConcat(c, Init(store), before, Round());
      RoundRun(c, Run(c, Init(store), before), k - 1);
      assert Reserves(c.maxDepth) + Rounds(k) == before + Round();
    }
  }

  lemma FullOver(c: Config, store: Store)
    ensures Over(c, Run(c, Init(store), Reserves(c.maxDepth)), 0)
  {
    ReservesRun(c, store, c.maxDepth);
  }

  /** For every configuration and every k, a run in which at most k clears were in the ring
      uncounted admits k operations beyond the depth: the bound is reached, whatever the depth. */
  lemma BoundAttained(c: Config, store: Store, k: nat) returns (trace: seq<Step>)
    requires c.Valid()
    ensures var s := Run(c, Init(store), trace); s.peak == k && Admitted(s) == c.maxDepth + k
  {
    trace := Reserves(c.maxDepth) + Rounds(k);
    RoundsRun(c, store, k);
  }

  /** The exact excess: it never passes the peak of uncounted clears, and k is reached. */
  lemma AdmissionExact(c: Config, store: Store, k: nat, limit: int)
    requires c.Valid()
    ensures (forall trace :: Run(c, Init(store), trace).peak <= k ==> Admitted(Run(c, Init(store), trace)) <= limit)
       <==> limit >= c.maxDepth + k
  {
    if limit >= c.maxDepth + k {
      forall trace | Run(c, Init(store), trace).peak <= k ensures Admitted(Run(c, Init(store), trace)) <= limit {
        AdmissionBound(c, store, trace);
      }
    } else {
      var trace := BoundAttained(c, store, k);
    }
  }
}
