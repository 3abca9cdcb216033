/** The circuit breaker's state in closed form: a history read as a sequence of phases, each
    described by the events in it and nothing else. */
module CircuitPhases {
  import opened CircuitBreaker

  /** A phase starts with the history or right after event k; `prev` is the phase before it. */
  datatype Phases =
    | Start
    | Opened(prev: Phases, k: nat)
    | HalfOpened(prev: Phases, k: nat)
    | Reclosed(prev: Phases, k: nat)

  function Kind(ps: Phases): State {
    match ps
    case Start => CLOSED
    case Opened(_, _) => OPEN
    case HalfOpened(_, _) => HALF_OPEN
    case Reclosed(_, _) => CLOSED
  }

  function Begin(ps: Phases): nat { if ps.Start? then 0 else ps.k + 1 }

  /** When event k happened. */
  function TimeOf(h: seq<Event>, k: nat): int { if k < |h| && !h[k].Success? then h[k].t else 0 }

  function OpenedAt(h: seq<Event>, ps: Phases): int { if ps.Opened? then TimeOf(h, ps.k) else 0 }

  /** The events of the current phase, up to n. */
  function Segment(h: seq<Event>, ps: Phases, n: nat): seq<Event>
    requires Begin(ps) <= n <= |h|
  {
    h[Begin(ps)..n]
  }

  /** Nothing up to n ends the phase: a closed one never has a full count of failures without a
      success among them, an open one only failures and early requests, a half-open one no failure
      and too few successes. */
  ghost predicate Lasts(cfg: Config, h: seq<Event>, ps: Phases, n: nat) {
    Begin(ps) <= n <= |h| &&
    match Kind(ps)
    case CLOSED => forall i :: Begin(ps) <= i <= n ==> FailuresSince(Segment(h, ps, i)) < AtLeastOne(cfg.failureThreshold)
    case OPEN => forall i :: Begin(ps) <= i < n ==> Quiet(cfg, OpenedAt(h, ps), h[i])
    case HALF_OPEN =>
      && (forall i :: Begin(ps) <= i < n ==> !h[i].Failure?)
      && Successes(Segment(h, ps, n)) < AtLeastOne(cfg.successThreshold)
  }

  /** Event k ends the previous phase and begins this one. */
  ghost predicate Enters(cfg: Config, h: seq<Event>, ps: Phases)
    requires !ps.Start? && Begin(ps.prev) <= ps.k < |h|
  {
    var seg, e := Segment(h, ps.prev, ps.k), h[ps.k];
    match ps
    case Opened(prev, _) =>
      e.Failure? && (Kind(prev) == HALF_OPEN
                     || (Kind(prev) == CLOSED && FailuresSince(seg) + 1 == AtLeastOne(cfg.failureThreshold)))
    case HalfOpened(prev, _) => e.Allow? && Kind(prev) == OPEN && e.t - OpenedAt(h, prev) >= cfg.recoveryTimeout
    case Reclosed(prev, _) =>
      e.Success? && (Kind(prev) == OPEN
                     || (Kind(prev) == HALF_OPEN && Successes(seg) + 1 == AtLeastOne(cfg.successThreshold)))
  }

  /** These phases are a reading of the first n events. */
  ghost predicate Describes(cfg: Config, h: seq<Event>, ps: Phases, n: nat)
    decreases ps
  {
    Lasts(cfg, h, ps, n) &&
    (ps.Start? || (ps.k < |h| && Describes(cfg, h, ps.prev, ps.k) && Enters(cfg, h, ps)))
  }

  // ---- Phases determine the machine ----

  ghost predicate Matches(c: Circuit, h: seq<Event>, ps: Phases, n: nat)
    requires Begin(ps) <= n <= |h|
  {
    c.state == Kind(ps) &&
    match Kind(ps)
    case CLOSED => c.failures == FailuresSince(Segment(h, ps, n))
    case OPEN => c.openedAt == OpenedAt(h, ps)
    case HALF_OPEN => c.successes == Successes(Segment(h, ps, n))
  }

  lemma SegmentSnoc(h: seq<Event>, ps: Phases, n: nat)
    requires Begin(ps) <= n < |h|
    ensures Segment(h, ps, n + 1) == Segment(h, ps, n) + [h[n]]
    ensures FailuresSince(Segment(h, ps, n + 1)) ==
            if h[n].Success? then 0 else FailuresSince(Segment(h, ps, n)) + if h[n].Failure? then 1 else 0
    ensures Successes(Segment(h, ps, n + 1)) == Successes(Segment(h, ps, n)) + if h[n].Success? then 1 else 0
  {
    var s := Segment(h, ps, n + 1);
    assert s[..|s| - 1] == Segment(h, ps, n) && s[|s| - 1] == h[n];
  }

  lemma LastsShorter(cfg: Config, h: seq<Event>, ps: Phases, n: nat)
    requires Begin(ps) <= n < |h| && Lasts(cfg, h, ps, n + 1)
    ensures Lasts(cfg, h, ps, n)
  {
    SegmentSnoc(h, ps, n);
  }

  lemma FoldNext(cfg: Config, h: seq<Event>, n: nat)
    requires n < |h|
    ensures Fold(cfg, h[..n + 1]) == Step(cfg, Fold(cfg, h[..n]), h[n])
  {
    assert h[..n + 1][..n] == h[..n];
  }

  lemma StaysMatched(cfg: Config, c: Circuit, h: seq<Event>, ps: Phases, n: nat)
    requires Begin(ps) <= n < |h| && Lasts(cfg, h, ps, n + 1) && Matches(c, h, ps, n)
    ensures Matches(Step(cfg, c, h[n]), h, ps, n + 1)
  {
    SegmentSnoc(h, ps, n);
    if Kind(ps) == CLOSED {
      assert FailuresSince(Segment(h, ps, n + 1)) < AtLeastOne(cfg.failureThreshold);
    }
  }

  lemma EntersMatched(cfg: Config, c: Circuit, h: seq<Event>, ps: Phases)
    requires !ps.Start? && Begin(ps.prev) <= ps.k < |h| && Enters(cfg, h, ps) && Matches(c, h, ps.prev, ps.k)
    ensures Matches(Step(cfg, c, h[ps.k]), h, ps, ps.k + 1)
  {
    assert Segment(h, ps, ps.k + 1) == [];
  }

  lemma {:induction false} PhasesDetermine(cfg: Config, h: seq<Event>, ps: Phases, n: nat)
    requires Describes(cfg, h, ps, n)
    ensures Matches(Fold(cfg, h[..n]), h, ps, n)
    decreases ps, n
  {
    hide Matches, Fold, Step, Lasts, Enters;
    LastsWithin(cfg, h, ps, n);
    if n > Begin(ps) {
      LastsShorter(cfg, h, ps, n - 1);
      PhasesDetermine(cfg, h, ps, n - 1);
      FoldNext(cfg, h, n - 1);
      StaysMatched(cfg, Fold(cfg, h[..n - 1]), h, ps, n - 1);
    } else if ps.Start? {
      StartMatches(cfg, h);
    } else {
      LastsWithin(cfg, h, ps.prev, ps.k);
      PhasesDetermine(cfg, h, ps.prev, ps.k);
      FoldNext(cfg, h, ps.k);
      EntersMatched(cfg, Fold(cfg, h[..ps.k]), h, ps);
    }
  }

  lemma LastsWithin(cfg: Config, h: seq<Event>, ps: Phases, n: nat)
    requires Lasts(cfg, h, ps, n)
    ensures Begin(ps) <= n <= |h|
  {}

  lemma StartMatches(cfg: Config, h: seq<Event>)
    ensures Matches(Fold(cfg, h[..0]), h, Start, 0)
  {
    assert h[..0] == [] && Segment(h, Start, 0) == [];
  }

  // ---- Every history has phases ----

  /** The phase after one more event. */
  ghost function Advance(cfg: Config, h: seq<Event>, ps: Phases, n: nat): Phases
    requires Begin(ps) <= n < |h|
  {
    var seg, e := Segment(h, ps, n), h[n];
    match Kind(ps)
    case CLOSED =>
      if e.Failure? && FailuresSince(seg) + 1 == AtLeastOne(cfg.failureThreshold) then Opened(ps, n) else ps
    case OPEN =>
      if e.Success? then Reclosed(ps, n)
      else if e.Allow? && e.t - OpenedAt(h, ps) >= cfg.recoveryTimeout then HalfOpened(ps, n)
      else ps
    case HALF_OPEN =>
      if e.Failure? then Opened(ps, n)
      else if e.Success? && Successes(seg) + 1 == AtLeastOne(cfg.successThreshold) then Reclosed(ps, n)
      else ps
  }

  lemma AdvanceDescribes(cfg: Config, h: seq<Event>, ps: Phases, n: nat)
    requires Describes(cfg, h, ps, n) && n < |h|
    ensures Begin(ps) <= n && Describes(cfg, h, Advance(cfg, h, ps, n), n + 1)
  {
    LastsWithin(cfg, h, ps, n);
    SegmentSnoc(h, ps, n);
    var next := Advance(cfg, h, ps, n);
    if next == ps {
      LastsLonger(cfg, h, ps, n);
    } else {
      BeginsFresh(cfg, h, next);
    }
  }

  lemma LastsLonger(cfg: Config, h: seq<Event>, ps: Phases, n: nat)
    requires Lasts(cfg, h, ps, n) && n < |h| && Advance(cfg, h, ps, n) == ps
    ensures Lasts(cfg, h, ps, n + 1)
  {
    SegmentSnoc(h, ps, n);
    assert FailuresSince(Segment(h, ps, n)) < AtLeastOne(cfg.failureThreshold) || Kind(ps) != CLOSED;
  }

  lemma BeginsFresh(cfg: Config, h: seq<Event>, ps: Phases)
    requires !ps.Start? && ps.k < |h|
    ensures Lasts(cfg, h, ps, ps.k + 1)
  {
    assert Segment(h, ps, ps.k + 1) == [];
  }

  lemma {:induction false} Decompose(cfg: Config, h: seq<Event>, n: nat) returns (ps: Phases)
    requires n <= |h|
    ensures Describes(cfg, h, ps, n)
  {
    if n == 0 {
      ps := Start;
      assert Segment(h, Start, 0) == [];
    } else {
      ps := Decompose(cfg, h, n - 1);
      AdvanceDescribes(cfg, h, ps, n - 1);
      ps := Advance(cfg, h, ps, n - 1);
    }
  }

  /** The breaker is in a state exactly when the history reads as phases ending in that state: its
      behaviour is fixed by counts and times of events, with no reference to the machine. */
  lemma StateIffPhases(cfg: Config, h: seq<Event>, st: State)
    ensures Fold(cfg, h).state == st <==> exists ps :: Describes(cfg, h, ps, |h|) && Kind(ps) == st
  {
    assert h[..|h|] == h;
    var ps := Decompose(cfg, h, |h|);
    PhasesDetermine(cfg, h, ps, |h|);
    forall qs | Describes(cfg, h, qs, |h|) ensures Kind(qs) == Fold(cfg, h).state {
      PhasesDetermine(cfg, h, qs, |h|);
    }
  }
}
