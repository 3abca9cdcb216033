/** The circuit breaker (src/circuit_breaker.hpp): one clocked state machine per backend, proved to
    be a function of the backend's history. */
module CircuitBreaker {

  type BackendId = nat

  const MAX_CIRCUITS := 10000

  datatype Config = Config(failureThreshold: nat, successThreshold: nat, recoveryTimeout: int, enabled: bool)
  datatype State = CLOSED | OPEN | HALF_OPEN
  datatype Circuit = Circuit(state: State, failures: nat, successes: nat, openedAt: int)

  /** What a backend's circuit goes through, with the clock reading where one is taken. */
  datatype Event = Allow(t: int) | Failure(t: int) | Success

  const FRESH := Circuit(CLOSED, 0, 0, 0)

  /** Whether a request at time t gets through. */
  predicate Allowed(cfg: Config, c: Circuit, t: int) { c.state != OPEN || t - c.openedAt >= cfg.recoveryTimeout }

  function OnAllow(cfg: Config, c: Circuit, t: int): Circuit {
    if c.state == OPEN && t - c.openedAt >= cfg.recoveryTimeout then c.(state := HALF_OPEN, successes := 0) else c
  }

  function OnSuccess(cfg: Config, c: Circuit): Circuit {
    match c.state
    case CLOSED => c.(failures := 0)
    case OPEN => c.(state := CLOSED, failures := 0)
    case HALF_OPEN =>
      if c.successes + 1 >= cfg.successThreshold then c.(state := CLOSED, failures := 0, successes := 0)
      else c.(successes := c.successes + 1)
  }

  function OnFailure(cfg: Config, c: Circuit, t: int): Circuit {
    var d := c.(failures := c.failures + 1);
    match c.state
    case CLOSED => if d.failures >= cfg.failureThreshold then d.(state := OPEN, openedAt := t) else d
    case OPEN => d
    case HALF_OPEN => d.(state := OPEN, openedAt := t, successes := 0)
  }

  function Step(cfg: Config, c: Circuit, e: Event): Circuit {
    match e
    case Allow(t) => OnAllow(cfg, c, t)
    case Failure(t) => OnFailure(cfg, c, t)
    case Success => OnSuccess(cfg, c)
  }

  function Fold(cfg: Config, h: seq<Event>): Circuit {
    if h == [] then FRESH else Step(cfg, Fold(cfg, h[..|h| - 1]), h[|h| - 1])
  }

  // ---- Counting events ----

  /** Failures since the last success, or since the start. */
  function FailuresSince(h: seq<Event>): nat {
    if h == [] || h[|h| - 1].Success? then 0
    else FailuresSince(h[..|h| - 1]) + if h[|h| - 1].Failure? then 1 else 0
  }

  function Successes(h: seq<Event>): nat {
    if h == [] then 0 else Successes(h[..|h| - 1]) + if h[|h| - 1].Success? then 1 else 0
  }

  /** Thresholds of zero act like thresholds of one. */
  function AtLeastOne(n: nat): nat { if n == 0 then 1 else n }

  /** A closed circuit's count is the failures since the last success, and it is below the threshold. */
  lemma {:induction false} ClosedCounts(cfg: Config, h: seq<Event>)
    ensures Fold(cfg, h).state == CLOSED ==>
              Fold(cfg, h).failures == FailuresSince(h) < AtLeastOne(cfg.failureThreshold)
  {
    if h != [] { ClosedCounts(cfg, h[..|h| - 1]); }
  }

  /** Successes are counted only while half-open, and from zero each time. */
  lemma {:induction false} CountedWhileHalfOpen(cfg: Config, h: seq<Event>)
    ensures Fold(cfg, h).state != HALF_OPEN ==> Fold(cfg, h).successes == 0
  {
    if h != [] { CountedWhileHalfOpen(cfg, h[..|h| - 1]); }
  }

  // ---- When it is open ----

  /** The k-th event opens the circuit: the threshold-th failure since the last success, or any
      failure while half-open. */
  ghost predicate Opens(cfg: Config, h: seq<Event>, k: nat)
    requires k < |h|
  {
    && h[k].Failure?
    && (Fold(cfg, h[..k]).state == HALF_OPEN
        || (Fold(cfg, h[..k]).state == CLOSED && FailuresSince(h[..k]) + 1 >= cfg.failureThreshold))
  }

  /** An event that leaves a circuit opened at t0 open: a further failure, or a request too early. */
  predicate Quiet(cfg: Config, t0: int, e: Event) { e.Failure? || (e.Allow? && e.t - t0 < cfg.recoveryTimeout) }

  ghost predicate OpenSince(cfg: Config, h: seq<Event>, k: nat) {
    k < |h| && Opens(cfg, h, k) && forall i :: k < i < |h| ==> Quiet(cfg, h[k].t, h[i])
  }

  lemma OpensStep(cfg: Config, h: seq<Event>)
    requires h != []
    ensures var n := |h| - 1;
            Opens(cfg, h, n) <==> Fold(cfg, h[..n]).state != OPEN && Fold(cfg, h).state == OPEN
    ensures Opens(cfg, h, |h| - 1) ==> Fold(cfg, h).openedAt == h[|h| - 1].t
  {
    ClosedCounts(cfg, h[..|h| - 1]);
  }

  lemma OpenSinceSnoc(cfg: Config, h: seq<Event>, k: nat)
    requires h != [] && k < |h| - 1
    ensures OpenSince(cfg, h, k) <==> OpenSince(cfg, h[..|h| - 1], k) && Quiet(cfg, h[k].t, h[|h| - 1])
  {
    var g := h[..|h| - 1];
    assert g[..k] == h[..k] && g[k] == h[k];
    if OpenSince(cfg, g, k) && Quiet(cfg, h[k].t, h[|h| - 1]) {
      forall i | k < i < |h| ensures Quiet(cfg, h[k].t, h[i]) { if i < |g| { assert Quiet(cfg, g[k].t, g[i]); } }
    }
    if OpenSince(cfg, h, k) { assert forall i :: k < i < |g| ==> g[i] == h[i]; }
  }

  /** Open exactly when some event opened it and only further failures and too-early requests
      came after; the opening time is that event's and later failures do not move it. */
  lemma {:induction false} OpenIff(cfg: Config, h: seq<Event>)
    ensures Fold(cfg, h).state == OPEN <==> exists k: nat :: OpenSince(cfg, h, k)
    ensures forall k: nat :: OpenSince(cfg, h, k) ==> Fold(cfg, h).openedAt == h[k].t
  {
    if h != [] {
      var n := |h| - 1;
      OpenIff(cfg, h[..n]);
      OpensStep(cfg, h);
      forall k: nat | k < n ensures OpenSince(cfg, h, k) <==> OpenSince(cfg, h[..n], k) && Quiet(cfg, h[k].t, h[n]) {
        OpenSinceSnoc(cfg, h, k);
      }
      OpenForward(cfg, h);
      forall k: nat | OpenSince(cfg, h, k) ensures Fold(cfg, h).state == OPEN && Fold(cfg, h).openedAt == h[k].t {
        if k < n { assert OpenSince(cfg, h[..n], k); }
      }
    }
  }

  lemma OpenForward(cfg: Config, h: seq<Event>)
    requires h != []
    requires var g := h[..|h| - 1];
             && (Fold(cfg, g).state == OPEN ==> exists k: nat :: OpenSince(cfg, g, k))
             && forall k: nat :: OpenSince(cfg, g, k) ==> Fold(cfg, g).openedAt == g[k].t
    ensures Fold(cfg, h).state == OPEN ==> exists k: nat :: OpenSince(cfg, h, k)
  {
    var n := |h| - 1;
    if Fold(cfg, h).state == OPEN {
      OpensStep(cfg, h);
      if Fold(cfg, h[..n]).state == OPEN {
        var k: nat :| OpenSince(cfg, h[..n], k);
        assert h[..n][k] == h[k];
        OpenSinceSnoc(cfg, h, k);
        assert OpenSince(cfg, h, k);
      } else {
        assert OpenSince(cfg, h, n);
      }
    }
  }

  /** A request is denied exactly when the circuit has been open, with nothing but failures and
      denied requests, since an event less than the recovery timeout ago. */
  lemma DeniedIff(cfg: Config, h: seq<Event>, t: int)
    ensures !Allowed(cfg, Fold(cfg, h), t) <==>
            exists k: nat :: OpenSince(cfg, h, k) && t - h[k].t < cfg.recoveryTimeout
  {
    OpenIff(cfg, h);
  }

  // ---- When it is half-open ----

  ghost predicate HalfOpens(cfg: Config, h: seq<Event>, k: nat)
    requires k < |h|
  {
    h[k].Allow? && Fold(cfg, h[..k]).state == OPEN && Allowed(cfg, Fold(cfg, h[..k]), h[k].t)
  }

  ghost predicate HalfOpenSince(cfg: Config, h: seq<Event>, k: nat) {
    && k < |h| && HalfOpens(cfg, h, k)
    && (forall i :: k < i < |h| ==> !h[i].Failure?)
    && Successes(h[k + 1..]) < AtLeastOne(cfg.successThreshold)
  }

  lemma SuccessesSnoc(h: seq<Event>, k: nat)
    requires h != [] && k < |h| - 1
    ensures Successes(h[k + 1..]) == Successes(h[..|h| - 1][k + 1..]) + if h[|h| - 1].Success? then 1 else 0
  {
    var s := h[k + 1..];
    assert s[..|s| - 1] == h[..|h| - 1][k + 1..];
  }

  lemma HalfSnoc(cfg: Config, h: seq<Event>, k: nat)
    requires h != [] && k < |h| - 1
    ensures HalfOpenSince(cfg, h, k) <==>
            && HalfOpenSince(cfg, h[..|h| - 1], k) && !h[|h| - 1].Failure?
            && Successes(h[k + 1..]) < AtLeastOne(cfg.successThreshold)
  {
    var g := h[..|h| - 1];
    assert g[..k] == h[..k] && g[k] == h[k];
    SuccessesSnoc(h, k);
    if HalfOpenSince(cfg, g, k) && !h[|h| - 1].Failure? {
      forall i | k < i < |h| ensures !h[i].Failure? { if i < |g| { assert !g[i].Failure?; } }
    }
    if HalfOpenSince(cfg, h, k) { assert forall i :: k < i < |g| ==> g[i] == h[i]; }
  }

  /** Half-open exactly when an allowed request found it open and since then no failure and fewer
      successes than the threshold were recorded; the count is the number of those successes. */
  lemma {:induction false} HalfOpenIff(cfg: Config, h: seq<Event>)
    ensures Fold(cfg, h).state == HALF_OPEN <==> exists k: nat :: HalfOpenSince(cfg, h, k)
    ensures forall k: nat :: HalfOpenSince(cfg, h, k) ==> Fold(cfg, h).successes == Successes(h[k + 1..])
  {
    if h != [] {
      var n := |h| - 1;
      HalfOpenIff(cfg, h[..n]);
      HalfForward(cfg, h);
      forall k: nat | HalfOpenSince(cfg, h, k)
        ensures Fold(cfg, h).state == HALF_OPEN && Fold(cfg, h).successes == Successes(h[k + 1..])
      {
        if k < n {
          HalfSnoc(cfg, h, k);
          SuccessesSnoc(h, k);
          assert HalfOpenSince(cfg, h[..n], k);
        }
      }
    }
  }

  lemma HalfForward(cfg: Config, h: seq<Event>)
    requires h != []
    requires var g := h[..|h| - 1];
             && (Fold(cfg, g).state == HALF_OPEN ==> exists k: nat :: HalfOpenSince(cfg, g, k))
             && forall k: nat :: HalfOpenSince(cfg, g, k) ==> Fold(cfg, g).successes == Successes(g[k + 1..])
    ensures Fold(cfg, h).state == HALF_OPEN ==> exists k: nat :: HalfOpenSince(cfg, h, k)
  {
    var n := |h| - 1;
    if Fold(cfg, h).state == HALF_OPEN {
      if Fold(cfg, h[..n]).state == HALF_OPEN {
        var k: nat :| HalfOpenSince(cfg, h[..n], k);
        HalfSnoc(cfg, h, k);
        SuccessesSnoc(h, k);
        assert HalfOpenSince(cfg, h, k);
      } else {
        assert h[n + 1..] == [];
        assert HalfOpenSince(cfg, h, n);
      }
    }
  }

  /** The event that closes a half-open circuit is the threshold-th success since it half-opened. */
  lemma ClosesAfterThreshold(cfg: Config, h: seq<Event>) returns (k: nat)
    requires h != [] && Fold(cfg, h).state == CLOSED && Fold(cfg, h[..|h| - 1]).state == HALF_OPEN
    ensures h[|h| - 1].Success?
    ensures k < |h| - 1 && HalfOpenSince(cfg, h[..|h| - 1], k)
    ensures Successes(h[k + 1..]) == AtLeastOne(cfg.successThreshold)
  {
    var n := |h| - 1;
    HalfOpenIff(cfg, h[..n]);
    k :| HalfOpenSince(cfg, h[..n], k);
    SuccessesSnoc(h, k);
  }

  // ---- A success while open ----

  /** A success recorded while open closes the circuit at once, whatever the time: requests pass
      again before the recovery timeout. */
  lemma SuccessEndsDenial(cfg: Config, h: seq<Event>, t: int)
    requires Fold(cfg, h).state == OPEN
    ensures Fold(cfg, h + [Success]).state == CLOSED && Allowed(cfg, Fold(cfg, h + [Success]), t)
  {
    assert (h + [Success])[..|h|] == h;
  }

  function Failures(n: nat): seq<Event> { if n == 0 then [] else Failures(n - 1) + [Failure(0)] }

  lemma {:induction false} FailuresFold(cfg: Config, n: nat)
    requires n <= AtLeastOne(cfg.failureThreshold)
    ensures Fold(cfg, Failures(n)) ==
            if n < AtLeastOne(cfg.failureThreshold) then Circuit(CLOSED, n, 0, 0) else Circuit(OPEN, n, 0, 0)
  {
    if n > 0 {
      FailuresFold(cfg, n - 1);
      assert Failures(n)[..|Failures(n)| - 1] == Failures(n - 1);
    }
  }

  /** For every configuration with a real timeout, such a history. */
  lemma EarlyRecovery(cfg: Config) returns (h: seq<Event>)
    requires cfg.recoveryTimeout > 0
    ensures !Allowed(cfg, Fold(cfg, h), 0) && Allowed(cfg, Fold(cfg, h + [Success]), 0)
  {
    h := Failures(AtLeastOne(cfg.failureThreshold));
    FailuresFold(cfg, AtLeastOne(cfg.failureThreshold));
    SuccessEndsDenial(cfg, h, 0);
  }

  // ---- The breaker ----

  function HistoryOf(hist: map<BackendId, seq<Event>>, b: BackendId): seq<Event> { if b in hist then hist[b] else [] }

  function CircuitOf(circuits: map<BackendId, Circuit>, b: BackendId): Circuit { if b in circuits then circuits[b] else FRESH }

  ghost predicate Tracked(cfg: Config, circuits: map<BackendId, Circuit>, hist: map<BackendId, seq<Event>>) {
    && circuits.Keys == hist.Keys && |circuits.Keys| <= MAX_CIRCUITS
    && forall b :: b in circuits ==> circuits[b] == Fold(cfg, hist[b])
  }

  /** No room for a circuit the breaker does not have yet. */
  predicate Overflows(circuits: map<BackendId, Circuit>, b: BackendId) {
    b !in circuits && |circuits.Keys| >= MAX_CIRCUITS
  }

  lemma StepTracked(cfg: Config, circuits: map<BackendId, Circuit>, hist: map<BackendId, seq<Event>>, b: BackendId, e: Event)
    requires Tracked(cfg, circuits, hist) && !Overflows(circuits, b)
    ensures Tracked(cfg, circuits[b := Step(cfg, CircuitOf(circuits, b), e)], hist[b := HistoryOf(hist, b) + [e]])
  {
    hide Step, Fold;
    var h, next := HistoryOf(hist, b) + [e], Step(cfg, CircuitOf(circuits, b), e);
    FoldMore(cfg, HistoryOf(hist, b), e);
    FoldOf(cfg, circuits, hist, b);
    CapKept(circuits, b, next);
    assert hist[b := h].Keys == hist.Keys + {b};
  }

  lemma FoldMore(cfg: Config, h: seq<Event>, e: Event)
    ensures Fold(cfg, h + [e]) == Step(cfg, Fold(cfg, h), e)
  {
    assert (h + [e])[..|h|] == h;
  }

  lemma CapKept(circuits: map<BackendId, Circuit>, b: BackendId, next: Circuit)
    requires |circuits.Keys| <= MAX_CIRCUITS && !Overflows(circuits, b)
    ensures circuits[b := next].Keys == circuits.Keys + {b} && |circuits[b := next].Keys| <= MAX_CIRCUITS
  {
    assert circuits[b := next].Keys == circuits.Keys + {b};
    assert b in circuits ==> circuits.Keys + {b} == circuits.Keys;
  }

  lemma DropTracked(cfg: Config, circuits: map<BackendId, Circuit>, hist: map<BackendId, seq<Event>>, b: BackendId)
    requires Tracked(cfg, circuits, hist)
    ensures Tracked(cfg, circuits - {b}, hist - {b})
  {
    assert (circuits - {b}).Keys == circuits.Keys - {b} && (hist - {b}).Keys == hist.Keys - {b};
  }

  class Breaker {
    const config: Config
    var circuits: map<BackendId, Circuit>
    var overflow: nat
    ghost var hist: map<BackendId, seq<Event>>

    ghost predicate Valid() reads this { Tracked(config, circuits, hist) }

    constructor (config: Config)
      ensures Valid() && this.config == config && circuits == map[] && hist == map[] && overflow == 0
    {
      this.config := config;
      circuits, overflow, hist := map[], 0, map[];
    }

    /** Whether to send a request: decided by the backend's history alone, open at the cap. */
    method AllowRequest(b: BackendId, now: int) returns (ok: bool)
      requires Valid()
      modifies this
      ensures Valid()
      ensures config.enabled && b !in old(circuits) && |old(circuits).Keys| >= 10000 ==> overflow == old(overflow) + 1
      ensures !config.enabled || (b !in old(circuits) && |old(circuits).Keys| >= 10000) ==> ok && hist == old(hist) && circuits == old(circuits)
      ensures config.enabled && (b in old(circuits) || |old(circuits).Keys| < 10000) ==>
                && hist == old(hist)[b := HistoryOf(old(hist), b) + [Allow(now)]] && overflow == old(overflow)
                && (ok <==> Allowed(config, Fold(config, HistoryOf(old(hist), b)), now))
    {
      hide Tracked, Fold;
      if !config.enabled { return true; }
      if b !in circuits {
        if |circuits.Keys| >= MAX_CIRCUITS {
          overflow := overflow + 1;
          return true;
        }
      }
      FoldOf(config, circuits, hist, b);
      StepTracked(config, circuits, hist, b, Allow(now));
      hist := hist[b := HistoryOf(hist, b) + [Allow(now)]];
      if b !in circuits {
        circuits := circuits[b := FRESH];
        return true;
      }
      ok := true;
      var c := circuits[b];
      if c.state == OPEN {
        if now - c.openedAt >= config.recoveryTimeout {
          c := c.(state := HALF_OPEN, successes := 0);
        } else {
          ok := false;
        }
      }
      circuits := circuits[b := c];
    }

    method RecordSuccess(b: BackendId)
      requires Valid()
      modifies this`circuits, this`hist
      ensures Valid()
      ensures !config.enabled || b !in old(circuits) ==> hist == old(hist) && circuits == old(circuits)
      ensures config.enabled && b in old(circuits) ==> hist == old(hist)[b := HistoryOf(old(hist), b) + [Success]]
    {
      hide Tracked, Fold;
      if !config.enabled || b !in circuits { return; }
      StepTracked(config, circuits, hist, b, Success);
      hist := hist[b := HistoryOf(hist, b) + [Success]];
      var c := circuits[b];
      match c.state {
        case CLOSED =>
          c := c.(failures := 0);
        case HALF_OPEN =>
          c := c.(successes := c.successes + 1);
          if c.successes >= config.successThreshold { c := c.(state := CLOSED, failures := 0, successes := 0); }
        case OPEN =>
          c := c.(state := CLOSED, failures := 0);
      }
      circuits := circuits[b := c];
    }

    method RecordFailure(b: BackendId, now: int)
      requires Valid()
      modifies this
      ensures Valid()
      ensures config.enabled && b !in old(circuits) && |old(circuits).Keys| >= 10000 ==> overflow == old(overflow) + 1
      ensures !config.enabled || (b !in old(circuits) && |old(circuits).Keys| >= 10000) ==> hist == old(hist) && circuits == old(circuits)
      ensures config.enabled && (b in old(circuits) || |old(circuits).Keys| < 10000) ==>
                hist == old(hist)[b := HistoryOf(old(hist), b) + [Failure(now)]] && overflow == old(overflow)
    {
      hide Tracked, Fold;
      if !config.enabled { return; }
      if b !in circuits && |circuits.Keys| >= MAX_CIRCUITS {
        overflow := overflow + 1;
        return;
      }
      StepTracked(config, circuits, hist, b, Failure(now));
      hist := hist[b := HistoryOf(hist, b) + [Failure(now)]];
      var c := CircuitOf(circuits, b);
      c := c.(failures := c.failures + 1);
      match c.state {
        case CLOSED =>
          if c.failures >= config.failureThreshold { c := c.(state := OPEN, openedAt := now); }
        case HALF_OPEN =>
          c := c.(state := OPEN, openedAt := now, successes := 0);
        case OPEN =>
      }
      circuits := circuits[b := c];
    }

    /** A removed backend's history starts over. */
    method RemoveCircuit(b: BackendId)
      requires Valid()
      modifies this`circuits, this`hist
      ensures Valid() && circuits == old(circuits) - {b} && hist == old(hist) - {b}
    {
      hide Tracked;
      DropTracked(config, circuits, hist, b);
      circuits, hist := circuits - {b}, hist - {b};
    }
  }

  lemma FoldOf(cfg: Config, circuits: map<BackendId, Circuit>, hist: map<BackendId, seq<Event>>, b: BackendId)
    requires Tracked(cfg, circuits, hist)
    ensures CircuitOf(circuits, b) == Fold(cfg, HistoryOf(hist, b))
  {}
}
