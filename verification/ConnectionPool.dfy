/** The pool of idle upstream connections (src/connection_pool.hpp): one deque of timestamped
    bundles per address, an idle counter, and least-recently-used eviction by deque fronts. */
module ConnectionPool {
  import opened Common

  type Addr = nat

  datatype Config = Config(maxPerHost: nat, idleTimeout: int, maxTotal: nat, maxAge: int, maxBackends: nat)
  datatype Bundle = Bundle(id: nat, addr: Addr, valid: bool, created: int, lastUsed: int)

  type Pools = map<Addr, seq<Bundle>>
  type Clock = nat -> int

  /** What configuration validation demands. */
  predicate Validated(c: Config) { c.maxPerHost > 0 && c.maxTotal > 0 }

  ghost predicate Steady(clock: Clock) { forall i, j :: i <= j ==> clock(i) <= clock(j) }

  /** No two readings are equal. */
  ghost predicate Ticking(clock: Clock) { forall i, j :: i < j ==> clock(i) < clock(j) }

  predicate Expired(c: Config, b: Bundle, t: int) { t - b.lastUsed > c.idleTimeout }
  predicate TooOld(c: Config, b: Bundle, t: int) { t - b.created > c.maxAge }

  /** Unfit for reuse at time t; `fin` holds the ids whose backend has closed its side. */
  predicate Dead(c: Config, b: Bundle, t: int, fin: set<nat>) { Expired(c, b, t) || TooOld(c, b, t) || b.id in fin }

  // ---- Contents of the pool map ----

  /** Every pooled bundle, with multiplicity. */
  ghost function Contents(pools: Pools): multiset<Bundle>
    decreases |pools|
  {
    if pools == map[] then multiset{}
    else var a :| a in pools; Fewer(pools, a); multiset(pools[a]) + Contents(pools - {a})
  }

  lemma Fewer(pools: Pools, a: Addr)
    requires a in pools
    ensures |pools - {a}| < |pools|
  {
    assert (pools - {a}).Keys == pools.Keys - {a};
  }

  lemma {:induction false} ContentsSplit(pools: Pools, a: Addr)
    requires a in pools
    ensures Contents(pools) == multiset(pools[a]) + Contents(pools - {a})
    decreases |pools|
  {
    var k :| k in pools && Contents(pools) == multiset(pools[k]) + Contents(pools - {k});
    if k != a {
      Fewer(pools, k);
      Fewer(pools, a);
      ContentsSplit(pools - {k}, a);
      ContentsSplit(pools - {a}, k);
      assert pools - {k} - {a} == pools - {a} - {k};
    }
  }

  lemma ContentsAdd(pools: Pools, a: Addr, q: seq<Bundle>)
    requires a !in pools
    ensures Contents(pools[a := q]) == Contents(pools) + multiset(q)
  {
    ContentsSplit(pools[a := q], a);
    assert pools[a := q] - {a} == pools;
  }

  /** Replacing a deque by one with different contents. */
  lemma ContentsReplace(pools: Pools, a: Addr, q: seq<Bundle>, out: multiset<Bundle>)
    requires a in pools && multiset(pools[a]) == multiset(q) + out
    ensures Contents(pools) == Contents(pools[a := q]) + out
  {
    ContentsSplit(pools, a);
    ContentsSplit(pools[a := q], a);
    assert pools[a := q] - {a} == pools - {a};
  }

  lemma PushBack(pools: Pools, a: Addr, b: Bundle)
    requires a in pools
    ensures Contents(pools[a := pools[a] + [b]]) == Contents(pools) + multiset{b}
  {
    var q := pools[a] + [b];
    assert pools[a := q][a := pools[a]] == pools;
    ContentsReplace(pools[a := q], a, pools[a], multiset{b});
  }

  lemma PopFront(pools: Pools, a: Addr)
    requires a in pools && pools[a] != []
    ensures Contents(pools) == Contents(pools[a := pools[a][1..]]) + multiset{pools[a][0]}
  {
    assert pools[a] == [pools[a][0]] + pools[a][1..];
    ContentsReplace(pools, a, pools[a][1..], multiset{pools[a][0]});
  }

  lemma PopBack(pools: Pools, a: Addr)
    requires a in pools && pools[a] != []
    ensures Contents(pools) == Contents(pools[a := pools[a][..|pools[a]| - 1]]) + multiset{pools[a][|pools[a]| - 1]}
  {
    var n := |pools[a]| - 1;
    assert pools[a] == pools[a][..n] + [pools[a][n]];
    ContentsReplace(pools, a, pools[a][..n], multiset{pools[a][n]});
  }

  lemma EraseEmpty(pools: Pools, a: Addr)
    requires a in pools && pools[a] == []
    ensures Contents(pools - {a}) == Contents(pools)
  {
    ContentsSplit(pools, a);
  }

  // ---- Invariants ----

  ghost predicate Sorted(q: seq<Bundle>) { forall i, j :: 0 <= i < j < |q| ==> q[i].lastUsed <= q[j].lastUsed }

  ghost predicate PoolOk(c: Config, a: Addr, q: seq<Bundle>, latest: int) {
    && |q| <= c.maxPerHost && Sorted(q)
    && forall i :: 0 <= i < |q| ==> q[i].addr == a && q[i].valid && q[i].lastUsed <= latest
  }

  ghost predicate PoolsOk(c: Config, pools: Pools, latest: int) {
    forall a :: a in pools ==> PoolOk(c, a, pools[a], latest)
  }

  /** The counter counts the pooled bundles, and everything ever put in is pooled, closed or taken. */
  ghost predicate Balanced(pools: Pools, total: int, closed: multiset<Bundle>, taken: multiset<Bundle>,
                           given: multiset<Bundle>) {
    total == |Contents(pools)| && given == Contents(pools) + closed + taken
  }

  lemma CloseOne(pools: Pools, rest: Pools, out: Bundle, total: int,
                 closed: multiset<Bundle>, taken: multiset<Bundle>, given: multiset<Bundle>)
    requires Balanced(pools, total, closed, taken, given) && Contents(pools) == Contents(rest) + multiset{out}
    ensures Balanced(rest, total - 1, closed + multiset{out}, taken, given)
    ensures Balanced(rest, total - 1, closed, taken + multiset{out}, given)
    ensures total > 0
  {
    assert |Contents(pools)| == |Contents(rest)| + 1;
  }

  lemma CloseMany(pools: Pools, rest: Pools, out: multiset<Bundle>, total: int,
                  closed: multiset<Bundle>, taken: multiset<Bundle>, given: multiset<Bundle>)
    requires Balanced(pools, total, closed, taken, given) && Contents(pools) == Contents(rest) + out
    ensures Balanced(rest, total - |out|, closed + out, taken, given) && total >= |out|
  {}

  lemma PoolOne(pools: Pools, more: Pools, b: Bundle, total: int,
                closed: multiset<Bundle>, taken: multiset<Bundle>, given: multiset<Bundle>)
    requires Balanced(pools, total, closed, taken, given) && Contents(more) == Contents(pools) + multiset{b}
    ensures Balanced(more, total + 1, closed, taken, given + multiset{b})
  {}

  lemma Later(c: Config, pools: Pools, latest: int, t: int)
    requires PoolsOk(c, pools, latest) && latest <= t
    ensures PoolsOk(c, pools, t)
  {
    forall a | a in pools ensures PoolOk(c, a, pools[a], t) { assert PoolOk(c, a, pools[a], latest); }
  }

  lemma FrontOk(c: Config, pools: Pools, a: Addr, latest: int)
    requires PoolsOk(c, pools, latest) && a in pools && pools[a] != []
    ensures PoolsOk(c, pools[a := pools[a][1..]], latest)
  {
    assert PoolOk(c, a, pools[a], latest);
    assert PoolOk(c, a, pools[a][1..], latest);
  }

  lemma PrefixOk(c: Config, pools: Pools, a: Addr, n: nat, latest: int)
    requires PoolsOk(c, pools, latest) && a in pools && n <= |pools[a]|
    ensures PoolsOk(c, pools[a := pools[a][..n]], latest)
  {
    assert PoolOk(c, a, pools[a], latest);
    assert PoolOk(c, a, pools[a][..n], latest);
  }

  lemma PushOk(c: Config, pools: Pools, b: Bundle, latest: int)
    requires PoolsOk(c, pools, latest) && b.addr in pools && |pools[b.addr]| < c.maxPerHost
    requires b.valid && forall x :: x in pools[b.addr] ==> x.lastUsed <= b.lastUsed
    requires b.lastUsed <= latest
    ensures PoolsOk(c, pools[b.addr := pools[b.addr] + [b]], latest)
  {
    assert PoolOk(c, b.addr, pools[b.addr], latest);
    assert PoolOk(c, b.addr, pools[b.addr] + [b], latest);
  }

  // ---- Eviction by fronts ----

  /** No pooled bundle was used before t. */
  ghost predicate NoneBefore(pools: Pools, t: int) {
    forall a, i :: a in pools && 0 <= i < |pools[a]| ==> pools[a][i].lastUsed >= t
  }

  /** The scan over deque fronts finds a bundle least recently used among ALL pooled ones, or
      nothing exactly when none was used before the clock reading. */
  method FindOldest(c: Config, pools: Pools, t: int, ghost latest: int) returns (oldest: Option<Addr>)
    requires PoolsOk(c, pools, latest)
    ensures oldest.None? <==> NoneBefore(pools, t)
    ensures oldest.Some? ==>
              && oldest.value in pools && pools[oldest.value] != [] && pools[oldest.value][0].lastUsed < t
              && NoneBefore(pools, pools[oldest.value][0].lastUsed)
  {
    oldest := None;
    var oldestTime := t;
    var todo := pools.Keys;
    while todo != {}
      invariant todo <= pools.Keys
      invariant forall a :: a in pools.Keys - todo && pools[a] != [] ==> pools[a][0].lastUsed >= oldestTime
      invariant oldest.None? ==> oldestTime == t
      invariant oldest.Some? ==> oldest.value in pools && pools[oldest.value] != []
                                 && pools[oldest.value][0].lastUsed == oldestTime < t
      decreases todo
    {
      var a :| a in todo;
      todo := todo - {a};
      if pools[a] != [] && pools[a][0].lastUsed < oldestTime {
        oldestTime, oldest := pools[a][0].lastUsed, Some(a);
      }
    }
    FrontsSuffice(c, pools, oldestTime, latest);
  }

  lemma FrontsSuffice(c: Config, pools: Pools, t: int, latest: int)
    requires PoolsOk(c, pools, latest)
    requires forall a :: a in pools && pools[a] != [] ==> pools[a][0].lastUsed >= t
    ensures NoneBefore(pools, t)
  {
    forall a, i | a in pools && 0 <= i < |pools[a]| ensures pools[a][i].lastUsed >= t {
      assert PoolOk(c, a, pools[a], latest);
      assert i > 0 ==> pools[a][0].lastUsed <= pools[a][i].lastUsed;
    }
  }

  ghost predicate IsOldest(pools: Pools, a: Addr) {
    a in pools && pools[a] != [] && NoneBefore(pools, pools[a][0].lastUsed)
  }

  function DropFront(pools: Pools, a: Addr): Pools
    requires a in pools && pools[a] != []
  {
    pools[a := pools[a][1..]]
  }

  /** The map after put has found or made the address's deque and enforced the per-host limit. */
  function MakeRoom(c: Config, pools: Pools, a: Addr): (r: Pools)
    ensures a in r
  {
    if a !in pools then pools[a := []]
    else if pools[a] != [] && |pools[a]| >= c.maxPerHost then DropFront(pools, a)
    else pools
  }

  /** At the global limit the eviction finds nothing to close. */
  ghost predicate Stuck(c: Config, pools: Pools, at: int) {
    |Contents(pools)| >= c.maxTotal && NoneBefore(pools, at)
  }

  /** The global limit: below it nothing happens, at it a globally oldest bundle goes. */
  ghost predicate Relieved(c: Config, pools: Pools, at: int, rest: Pools) {
    if |Contents(pools)| < c.maxTotal || NoneBefore(pools, at) then rest == pools
    else exists a :: IsOldest(pools, a) && rest == DropFront(pools, a)
  }

  /** Only the address's own deque changes: it is there afterwards, and it has lost its least
      recently used bundle if it was at the per-host limit, and nothing otherwise. */
  lemma RoomMeaning(c: Config, pools: Pools, a: Addr, latest: int)
    requires PoolsOk(c, pools, latest) && Validated(c)
    ensures var r := MakeRoom(c, pools, a);
            && r.Keys == pools.Keys + {a} && (forall o :: o in pools && o != a ==> r[o] == pools[o])
            && (a !in pools ==> r[a] == [])
            && (a in pools && |pools[a]| < c.maxPerHost ==> r[a] == pools[a])
            && (a in pools && |pools[a]| >= c.maxPerHost ==>
                  && pools[a] != [] && r[a] == pools[a][1..]
                  && forall i :: 0 <= i < |pools[a]| ==> pools[a][0].lastUsed <= pools[a][i].lastUsed)
  {
    if a in pools { assert PoolOk(c, a, pools[a], latest); }
  }

  lemma {:induction false} ContentsMember(pools: Pools, b: Bundle)
    ensures b in Contents(pools) <==> exists a :: a in pools && b in pools[a]
    decreases |pools|
  {
    if a :| a in pools {
      var rest := pools - {a};
      Fewer(pools, a);
      ContentsSplit(pools, a);
      ContentsMember(rest, b);
      assert forall o :: o in pools && o != a ==> o in rest && rest[o] == pools[o];
      assert b in Contents(pools) <==> b in multiset(pools[a]) || b in Contents(rest);
    }
  }

  lemma NoneBeforeMeaning(pools: Pools, t: int)
    ensures NoneBefore(pools, t) <==> forall b :: b in Contents(pools) ==> b.lastUsed >= t
  {
    hide Contents;
    if NoneBefore(pools, t) {
      forall b | b in Contents(pools) ensures b.lastUsed >= t {
        ContentsMember(pools, b);
        var a :| a in pools && b in pools[a];
        var i :| 0 <= i < |pools[a]| && pools[a][i] == b;
      }
    }
    if forall b :: b in Contents(pools) ==> b.lastUsed >= t {
      forall a, i | a in pools && 0 <= i < |pools[a]| ensures pools[a][i].lastUsed >= t {
        ContentsMember(pools, pools[a][i]);
      }
    }
  }

  /** The bundles of `pools` are those of `rest` and one more, used before `at` and no later than
      any other. */
  ghost predicate LostOldest(pools: Pools, rest: Pools, at: int) {
    exists v :: Contents(pools) == Contents(rest) + multiset{v} && v.lastUsed < at
                && forall b :: b in Contents(pools) ==> v.lastUsed <= b.lastUsed
  }

  /** Below the global limit nothing goes. At it, one bundle goes that was used before the reading
      and no later than any pooled one, if there is one used before the reading. */
  lemma RelievedMeaning(c: Config, pools: Pools, at: int, rest: Pools)
    requires Relieved(c, pools, at, rest)
    ensures |Contents(pools)| < c.maxTotal ==> rest == pools
    ensures (forall b :: b in Contents(pools) ==> b.lastUsed >= at) ==> rest == pools
    ensures |Contents(pools)| >= c.maxTotal && (exists b :: b in Contents(pools) && b.lastUsed < at) ==>
              LostOldest(pools, rest, at)
  {
    hide Contents, NoneBefore;
    NoneBeforeMeaning(pools, at);
    if |Contents(pools)| >= c.maxTotal && !NoneBefore(pools, at) {
      var a :| IsOldest(pools, a) && rest == DropFront(pools, a);
      var v := pools[a][0];
      NoneBeforeMeaning(pools, v.lastUsed);
      PopFront(pools, a);
      var b :| b in Contents(pools) && b.lastUsed < at;
      assert v.lastUsed <= b.lastUsed;
    }
  }

  lemma RoomContents(c: Config, pools: Pools, a: Addr)
    ensures |Contents(pools)| - 1 <= |Contents(MakeRoom(c, pools, a))| <= |Contents(pools)|
    ensures a !in pools ==> Contents(MakeRoom(c, pools, a)) == Contents(pools)
  {
    if a !in pools { ContentsAdd(pools, a, []); } else if pools[a] != [] { PopFront(pools, a); }
  }

  lemma {:induction false} AllEmpty(pools: Pools)
    requires forall a :: a in pools ==> pools[a] == []
    ensures Contents(pools) == multiset{}
    decreases |pools|
  {
    if a :| a in pools {
      Fewer(pools, a);
      ContentsSplit(pools, a);
      AllEmpty(pools - {a});
    }
  }

  lemma Earlier(c: Config, pools: Pools, a: Addr, latest: int, at: int)
    requires PoolsOk(c, pools, latest) && latest < at && a in pools && pools[a] != []
    ensures !NoneBefore(pools, at)
  {
    assert PoolOk(c, a, pools[a], latest);
    assert pools[a][0].lastUsed < at;
  }

  /** A reading later than every pooled timestamp always finds something to evict. */
  lemma NotStuck(c: Config, pools: Pools, latest: int, at: int)
    requires PoolsOk(c, pools, latest) && Validated(c) && latest < at
    ensures !Stuck(c, pools, at)
  {
    if NoneBefore(pools, at) {
      forall a | a in pools ensures pools[a] == [] {
        if pools[a] != [] { Earlier(c, pools, a, latest, at); }
      }
      AllEmpty(pools);
    }
  }

  lemma RelievedOk(c: Config, pools: Pools, at: int, rest: Pools, latest: int)
    requires PoolsOk(c, pools, latest) && Relieved(c, pools, at, rest)
    ensures PoolsOk(c, rest, latest) && rest.Keys == pools.Keys
    ensures forall a :: a in pools ==> |rest[a]| <= |pools[a]|
    ensures |Contents(rest)| == |Contents(pools)| - if |Contents(pools)| < c.maxTotal || NoneBefore(pools, at) then 0 else 1
  {
    if !(|Contents(pools)| < c.maxTotal || NoneBefore(pools, at)) {
      var a :| IsOldest(pools, a) && rest == DropFront(pools, a);
      FrontOk(c, pools, a, latest);
      PopFront(pools, a);
    }
  }

  /** A new address beyond the backend limit. */
  predicate Refused(c: Config, pools: Pools, a: Addr) { a !in pools && |pools| + 1 > c.maxBackends }

  function Append(pools: Pools, b: Bundle): Pools
    requires b.addr in pools
  {
    pools[b.addr := pools[b.addr] + [b]]
  }

  class Pool {
    const config: Config
    const clock: Clock
    var pools: Pools
    var total: nat
    var ticks: nat
    var created: nat  // connections opened because nothing pooled was fit
    ghost var latest: int
    ghost var closed: multiset<Bundle>
    ghost var taken: multiset<Bundle>
    ghost var given: multiset<Bundle>

    ghost predicate Valid() reads this {
      && Validated(config) && Steady(clock)
      && PoolsOk(config, pools, latest) && Balanced(pools, total, closed, taken, given)
      && latest <= clock(ticks) && (Ticking(clock) ==> latest < clock(ticks) && total <= config.maxTotal)
    }

    constructor (config: Config, clock: Clock)
      requires Validated(config) && Steady(clock)
      ensures Valid() && pools == map[] && this.config == config && this.clock == clock && ticks == 0
      ensures total == created == 0 && given == closed == taken == multiset{}
    {
      this.config, this.clock := config, clock;
      pools, total, ticks, created := map[], 0, 0, 0;
      latest, closed, taken, given := clock(0) - 1, multiset{}, multiset{}, multiset{};
    }

    /** One reading of the clock. */
    method Now() returns (t: int)
      requires Valid()
      modifies this`ticks, this`latest
      ensures Valid() && t == latest == clock(old(ticks)) && ticks == old(ticks) + 1
      ensures old(latest) <= t && (Ticking(clock) ==> old(latest) < t)
    {
      hide PoolOk, Contents;
      t := clock(ticks);
      Later(config, pools, latest, t);
      ticks, latest := ticks + 1, t;
    }

    method CloseFront(a: Addr)
      requires Valid() && a in pools && pools[a] != []
      modifies this`pools, this`total, this`closed
      ensures Valid() && pools == DropFront(old(pools), a) && total == old(total) - 1
    {
      hide PoolOk, Contents;
      PopFront(pools, a);
      FrontOk(config, pools, a, latest);
      CloseOne(pools, DropFront(pools, a), pools[a][0], total, closed, taken, given);
      closed := closed + multiset{pools[a][0]};
      pools := DropFront(pools, a);
      total := total - 1;
    }

    /** Evicts a globally least recently used bundle, if any was used before the reading. */
    method EvictOldestGlobal() returns (ghost at: int)
      requires Valid()
      modifies this`pools, this`total, this`closed, this`ticks, this`latest
      ensures Valid() && at == latest == clock(old(ticks)) && old(latest) <= at
      ensures Ticking(clock) ==> old(latest) < at
      ensures NoneBefore(old(pools), at) ==> pools == old(pools) && total == old(total)
      ensures !NoneBefore(old(pools), at) ==>
                && total == old(total) - 1
                && exists a :: IsOldest(old(pools), a) && pools == DropFront(old(pools), a)
    {
      hide PoolsOk, Balanced, NoneBefore;
      var t := Now();
      at := t;
      var oldest := FindOldest(config, pools, t, latest);
      if oldest.Some? {
        assert IsOldest(pools, oldest.value);
        CloseFront(oldest.value);
      }
    }

    /** The global limit, as put enforces it. */
    method Relieve() returns (ghost at: int)
      requires Valid()
      modifies this`pools, this`total, this`closed, this`ticks, this`latest
      ensures Valid() && at == clock(old(ticks)) && Relieved(config, old(pools), at, pools)
      ensures PoolsOk(config, pools, old(latest)) && old(latest) <= latest && pools.Keys == old(pools).Keys
      ensures forall a :: a in pools ==> |pools[a]| <= |old(pools)[a]|
      ensures Ticking(clock) ==> total < config.maxTotal
      ensures old(total) <= config.maxTotal ==> (total >= config.maxTotal <==> Stuck(config, old(pools), at))
    {
      hide PoolsOk, Contents, NoneBefore, IsOldest;
      ghost var was := latest;
      at := clock(ticks);
      if total >= config.maxTotal { at := EvictOldestGlobal(); }
      RelievedOk(config, old(pools), at, pools, was);
      if Ticking(clock) { NotStuck(config, old(pools), was, at); }
    }

    /** Pools a bundle whose deque has room, relieving the global limit first. */
    method Store(b: Bundle) returns (ghost at: int, ghost rest: Pools)
      requires Valid() && b.valid && b.lastUsed == latest
      requires b.addr in pools && |pools[b.addr]| < config.maxPerHost
      modifies this`pools, this`total, this`closed, this`ticks, this`latest, this`given
      ensures Valid() && given == old(given) + multiset{b} && at == clock(old(ticks))
      ensures Relieved(config, old(pools), at, rest) && b.addr in rest && pools == Append(rest, b)
      ensures old(total) <= config.maxTotal ==> (total > config.maxTotal <==> Stuck(config, old(pools), at))
    {
      hide PoolsOk, Balanced, Contents, Relieved, Stuck;
      ghost var was := latest;
      at := Relieve();
      rest := pools;
      StoreOk(config, pools, b, was, latest);
      PushBack(pools, b.addr, b);
      PoolOne(pools, Append(pools, b), b, total, closed, taken, given);
      given := given + multiset{b};
      pools := Append(pools, b);
      total := total + 1;
    }

    method PutTouched(b: Bundle) returns (ghost at: int, ghost rest: Pools)
      requires Valid() && b.valid && b.lastUsed == latest
      modifies this`pools, this`total, this`closed, this`ticks, this`latest, this`given
      ensures Valid() && given == old(given) + multiset{b}
      ensures Refused(config, old(pools), b.addr) ==> pools == old(pools)
      ensures !Refused(config, old(pools), b.addr) ==>
                && at == clock(old(ticks))
                && Relieved(config, MakeRoom(config, old(pools), b.addr), at, rest)
                && b.addr in rest && pools == Append(rest, b)
                && (old(total) <= config.maxTotal ==>
                      (total > config.maxTotal <==> Stuck(config, MakeRoom(config, old(pools), b.addr), at)))
    {
      hide PoolsOk, Balanced, Relieved, Stuck;
      at, rest := 0, pools;
      var inserted := Emplace(b.addr);
      if inserted && |pools| > config.maxBackends {
        Erase(b.addr);
        DropAgain(old(pools), b.addr);
        Discard(b);
        return;
      }
      HostLimit(config, pools, b.addr, latest);
      if |pools[b.addr]| >= config.maxPerHost { CloseFront(b.addr); }
      RoomContents(config, old(pools), b.addr);
      at, rest := Store(b);
    }

    method Emplace(a: Addr) returns (inserted: bool)
      requires Valid()
      modifies this`pools
      ensures Valid() && inserted == (a !in old(pools))
      ensures pools == if inserted then old(pools)[a := []] else old(pools)
    {
      hide Contents;
      inserted := a !in pools;
      assert PoolOk(config, a, [], latest);
      if inserted {
        ContentsAdd(pools, a, []);
        pools := pools[a := []];
      }
    }

    method Erase(a: Addr)
      requires Valid() && a in pools && pools[a] == []
      modifies this`pools
      ensures Valid() && pools == old(pools) - {a} && Contents(pools) == old(Contents(pools))
    {
      hide Contents, PoolOk;
      EraseEmpty(pools, a);
      pools := pools - {a};
    }

    /** Closes a bundle that never enters the pool. */
    method Discard(b: Bundle)
      requires Valid()
      modifies this`closed, this`given
      ensures Valid() && given == old(given) + multiset{b}
    {
      hide PoolsOk, Contents;
      closed, given := closed + multiset{b}, given + multiset{b};
    }

    /** Returning a connection: it is pooled or closed, once, and so is whatever makes room for it.
        The total leaves its limit exactly when the eviction's clock reading ties with every
        pooled timestamp. */
    method Put(bundle: Bundle, halfOpen: bool) returns (ghost stamped: Bundle, ghost at: int, ghost rest: Pools)
      requires Valid()
      modifies this`pools, this`total, this`closed, this`ticks, this`latest, this`given
      ensures Valid() && given == old(given) + multiset{stamped}
      ensures !bundle.valid || halfOpen ==> stamped == bundle && pools == old(pools)
      ensures bundle.valid && !halfOpen ==> stamped == bundle.(lastUsed := clock(old(ticks)))
      ensures bundle.valid && !halfOpen && bundle.addr !in old(pools) && |old(pools)| >= config.maxBackends ==>
                pools == old(pools)
      ensures bundle.valid && !halfOpen && (bundle.addr in old(pools) || |old(pools)| < config.maxBackends) ==>
                && at == clock(old(ticks) + 1)
                && Relieved(config, MakeRoom(config, old(pools), bundle.addr), at, rest)
                && stamped.addr in rest && pools == Append(rest, stamped)
                && (old(total) <= config.maxTotal ==>
                      (total > config.maxTotal <==> Stuck(config, MakeRoom(config, old(pools), bundle.addr), at)))
    {
      hide PoolsOk, Contents, Relieved, Stuck;
      if !bundle.valid || halfOpen {
        stamped, at, rest := bundle, 0, pools;
        Discard(bundle);
        return;
      }
      var t := Now();
      var touched := bundle.(lastUsed := t);
      stamped := touched;
      at, rest := PutTouched(touched);
    }

    /** The liveness checks on one bundle: one clock reading for idleness, another for age. */
    method CheckDead(b: Bundle, fin: set<nat>) returns (dead: bool)
      requires Valid()
      modifies this`ticks, this`latest
      ensures Valid() && old(latest) <= latest && ticks > old(ticks) && latest == clock(ticks - 1)
      ensures dead ==> Dead(config, b, latest, fin)
      ensures !dead ==> Passed(config, clock, b, fin, old(ticks)) && ticks == old(ticks) + 2
    {
      hide PoolsOk, Balanced;
      var t := Now();
      if Expired(config, b, t) { return true; }
      t := Now();
      if TooOld(config, b, t) { return true; }
      dead := b.id in fin;
    }

    /** Takes the newest bundle out, to close it or to hand it over. */
    method TakeBack(a: Addr, handOver: bool)
      requires Valid() && a in pools && pools[a] != []
      modifies this`pools, this`total, this`closed, this`taken
      ensures Valid() && pools == DropBack(old(pools), a)
      ensures taken == old(taken) + if handOver then multiset{Newest(old(pools), a)} else multiset{}
    {
      hide PoolsOk, Contents, Balanced, Steady, Ticking;
      var b, rest := Newest(pools, a), DropBack(pools, a);
      PopBack(pools, a);
      PrefixOk(config, pools, a, |pools[a]| - 1, latest);
      CloseOne(pools, rest, b, total, closed, taken, given);
      if handOver { taken := taken + multiset{b}; } else { closed := closed + multiset{b}; }
      pools, total := rest, total - 1;
    }

    /** One round of get's loop. */
    method TryNewest(addr: Addr, fin: set<nat>) returns (r: Option<Bundle>)
      requires Valid() && addr in pools && pools[addr] != []
      modifies this`pools, this`total, this`closed, this`taken, this`ticks, this`latest
      ensures Valid() && old(latest) <= latest && ticks >= old(ticks)
      ensures pools == DropBack(old(pools), addr)
      ensures r.None? ==> taken == old(taken) && Dead(config, Newest(old(pools), addr), latest, fin)
      ensures r.Some? ==>
                && taken == old(taken) + multiset{Newest(old(pools), addr)}
                && r.value == Newest(old(pools), addr).(lastUsed := latest) && r.value.addr == addr && r.value.valid
                && ticks >= old(ticks) + 3 && Passed(config, clock, Newest(old(pools), addr), fin, ticks - 3)
    {
      hide PoolsOk, Balanced, Dead, Passed;
      var b := Newest(pools, addr);
      FromPool(config, pools, addr, |pools[addr]| - 1, latest);
      var dead := CheckDead(b, fin);
      TakeBack(addr, !dead);
      if dead { return None; }
      var t := Now();
      r := Some(b.(lastUsed := t));
    }

    /** The loop of get: the newest bundle that passes, all newer ones having failed. */
    method ScanNewest(addr: Addr, fin: set<nat>) returns (r: Option<Bundle>)
      requires Valid()
      modifies this`pools, this`total, this`closed, this`taken, this`ticks, this`latest
      ensures Valid()
      ensures var q := PoolAt(old(pools), addr);
              && addr in pools && |pools[addr]| <= |q| && pools == old(pools)[addr := q[..|pools[addr]|]]
              && (r.None? ==> pools[addr] == [] && taken == old(taken) && AllDead(config, q[0..], latest, fin))
              && (r.Some? ==>
                    var k := |pools[addr]|;
                    && k < |q| && r.value == q[k].(lastUsed := latest) && r.value.addr == addr && r.value.valid
                    && taken == old(taken) + multiset{q[k]} && AllDead(config, q[k + 1..], latest, fin)
                    && ticks >= old(ticks) + 3 && Passed(config, clock, q[k], fin, ticks - 3))
    {
      hide PoolsOk, Balanced, Dead, Passed, AllDead;
      ghost var inserted := Emplace(addr);
      ghost var q, base := pools[addr], pools;
      NoneScanned(config, base, addr, latest, fin);
      while pools[addr] != []
        invariant Valid() && addr in base && base[addr] == q && addr in pools
        invariant |pools[addr]| <= |q| && pools == base[addr := q[..|pools[addr]|]]
        invariant taken == old(taken) && ticks >= old(ticks)
        invariant AllDead(config, q[|pools[addr]|..], latest, fin)
        decreases |pools[addr]|
      {
        ghost var n, was := |pools[addr]| - 1, latest;
        ScanOne(base, addr, n);
        r := TryNewest(addr, fin);
        AllDeadLater(config, q[n + 1..], was, latest, fin);
        if r.Some? { return; }
        OneMoreDead(config, q, n, latest, fin);
      }
      r := None;
    }

    /** Reuse: the newest bundle that is neither idle nor open for too long nor closed by its
        backend, all newer ones being one of these, and closed; nothing exactly when the whole
        deque was. */
    method Get(addr: Addr, fin: set<nat>) returns (r: Option<Bundle>)
      requires Valid()
      modifies this`pools, this`total, this`closed, this`taken, this`ticks, this`latest, this`created
      ensures Valid() && created == old(created) + if r.None? then 1 else 0
      ensures var q := PoolAt(old(pools), addr);
              && addr in pools && |pools[addr]| <= |q| && pools == old(pools)[addr := q[..|pools[addr]|]]
              && (r.None? ==> pools[addr] == [] && taken == old(taken))
              && (r.Some? ==>
                    var k := |pools[addr]|;
                    && k < |q| && r.value == q[k].(lastUsed := latest) && r.value.addr == addr && r.value.valid
                    && taken == old(taken) + multiset{q[k]} && ticks >= old(ticks) + 3
                    && clock(ticks - 3) - q[k].lastUsed <= config.idleTimeout
                    && clock(ticks - 2) - q[k].created <= config.maxAge && q[k].id !in fin)
              && (forall i :: (if r.None? then 0 else |pools[addr]| + 1) <= i < |q| ==>
                    || latest - q[i].lastUsed > config.idleTimeout || latest - q[i].created > config.maxAge
                    || q[i].id in fin)
    {
      hide PoolsOk, Balanced, Dead, Passed, AllDead, PoolAt;
      ghost var q := PoolAt(pools, addr);
      r := ScanNewest(addr, fin);
      if r.None? {
        WhatDeadMeans(config, clock, q, 0, latest, fin, |q|, ticks);
        created := created + 1;
      } else {
        WhatDeadMeans(config, clock, q, |pools[addr]| + 1, latest, fin, |pools[addr]|, ticks);
      }
    }

    /** Drops every connection to a removed backend. */
    method ClearPool(addr: Addr) returns (n: nat)
      requires Valid()
      modifies this`pools, this`total, this`closed
      ensures Valid() && pools == old(pools) - {addr} && n == |PoolAt(old(pools), addr)|
      ensures closed == old(closed) + multiset(PoolAt(old(pools), addr))
    {
      hide PoolsOk, Contents, Balanced;
      if addr !in pools {
        assert pools - {addr} == pools;
        return 0;
      }
      ghost var out;
      n, out := CloseAll(pools[addr]);
      ContentsSplit(pools, addr);
      EraseOk(config, pools, addr, latest);
      CloseMany(pools, pools - {addr}, out, total, closed, taken, given);
      closed := closed + out;
      total := total - |pools[addr]|;
      pools := pools - {addr};
    }

    /** The reaper's pass over one deque, erasing in place. */
    method SweepDeque(q: seq<Bundle>, fin: set<nat>, ghost a: Addr, ghost bound: int)
      returns (d: seq<Bundle>, n: nat, ghost removed: multiset<Bundle>)
      requires Valid() && PoolOk(config, a, q, bound)
      modifies this`ticks, this`latest
      ensures Valid() && old(latest) <= latest && ticks >= old(ticks) && PoolOk(config, a, d, bound)
      ensures multiset(q) == multiset(d) + removed && |removed| == n
      ensures AllLive(config, d, clock(old(ticks)), fin) && Reaped(config, removed, latest, fin)
      ensures Subsequence(q, d)
    {
      hide PoolsOk, Balanced, Dead, PoolOk, Reaped, Subsequence;
      d, n, removed := q, 0, multiset{};
      WholeSubsequence(q);
      NoneReaped(config, latest, fin);
      var i := 0;
      while i < |d|
        invariant Valid() && old(latest) <= latest && ticks >= old(ticks) && PoolOk(config, a, d, bound)
        invariant i <= |d| && multiset(q) == multiset(d) + removed && |removed| == n && Subsequence(q, d)
        invariant AllLive(config, d[..i], clock(old(ticks)), fin) && Reaped(config, removed, latest, fin)
        decreases |d| - i
      {
        ghost var was, at := latest, ticks;
        var dead := CheckDead(d[i], fin);
        ReapedLater(config, removed, was, latest, fin);
        if dead {
          ReapOne(config, removed, d[i], latest, fin);
          EraseAt(config, a, d, i, bound);
          ThinnerSubsequence(q, d, i);
          removed := removed + multiset{d[i]};
          assert (d[..i] + d[i + 1..])[..i] == d[..i];
          d := d[..i] + d[i + 1..];
          n := n + 1;
        } else {
          StayedLive(config, clock, d, i, old(ticks), at, fin);
          i := i + 1;
        }
      }
      assert d[..i] == d;
    }

    method SweepPool(a: Addr, fin: set<nat>) returns (n: nat, ghost removed: multiset<Bundle>)
      requires Valid() && a in pools
      modifies this`pools, this`total, this`closed, this`ticks, this`latest
      ensures Valid() && a in pools && pools == old(pools)[a := pools[a]] && ticks >= old(ticks) && latest >= old(latest)
      ensures old(Contents(pools)) == Contents(pools) + removed && closed == old(closed) + removed && n == |removed|
      ensures AllLive(config, pools[a], clock(old(ticks)), fin) && Reaped(config, removed, latest, fin)
      ensures Subsequence(old(pools)[a], pools[a])
    {
      hide PoolsOk, Contents, Balanced, AllLive, Reaped, Subsequence;
      ghost var was := latest;
      PoolOkAt(config, pools, a, latest);
      var d;
      d, n, removed := SweepDeque(pools[a], fin, a, latest);
      ContentsReplace(pools, a, d, removed);
      ReplaceOk(config, pools, a, d, was, latest);
      CloseMany(pools, pools[a := d], removed, total, closed, taken, given);
      closed := closed + removed;
      pools, total := pools[a := d], total - n;
    }

    method SweepAll(fin: set<nat>) returns (n: nat, ghost removed: multiset<Bundle>)
      requires Valid()
      modifies this`pools, this`total, this`closed, this`ticks, this`latest
      ensures Valid() && closed == old(closed) + removed && n == |removed|
      ensures old(Contents(pools)) == Contents(pools) + removed
      ensures PoolsLive(config, pools, pools.Keys, clock(old(ticks)), fin) && Reaped(config, removed, latest, fin)
      ensures Thinned(old(pools), pools, {})
    {
      hide PoolsOk, Contents, Balanced, AllLive, Reaped, Dead, Thinned, Subsequence;
      n, removed := 0, multiset{};
      NotThinned(pools);
      NoneReaped(config, latest, fin);
      var todo := pools.Keys;
      while todo != {}
        invariant Valid() && todo <= pools.Keys && ticks >= old(ticks)
        invariant old(Contents(pools)) == Contents(pools) + removed && closed == old(closed) + removed && n == |removed|
        invariant PoolsLive(config, pools, pools.Keys - todo, clock(old(ticks)), fin)
        invariant Reaped(config, removed, latest, fin) && Thinned(old(pools), pools, todo)
        decreases todo
      {
        ghost var at, was, before := ticks, latest, pools;
        var a :| a in todo;
        var k;
        ghost var out;
        k, out := SweepPool(a, fin);
        MergeReaped(config, removed, was, out, latest, fin);
        MergeLive(config, before, todo, a, pools[a], clock(old(ticks)), clock(at), fin);
        ThinOne(old(pools), before, pools, todo, a);
        n, removed, todo := n + k, removed + out, todo - {a};
      }
      assert pools.Keys - {} == pools.Keys;
    }

    /** The reaper: what it closes is dead by its end, what it keeps was live at its start, and no
        empty deque stays in the map. */
    method CleanupExpired(fin: set<nat>) returns (n: nat, ghost removed: multiset<Bundle>)
      requires Valid()
      modifies this`pools, this`total, this`closed, this`ticks, this`latest
      ensures Valid() && closed == old(closed) + removed && n == |removed|
      ensures old(Contents(pools)) == Contents(pools) + removed
      ensures forall b :: b in removed ==>
                latest - b.lastUsed > config.idleTimeout || latest - b.created > config.maxAge || b.id in fin
      ensures forall a, i :: a in pools && 0 <= i < |pools[a]| ==>
                && clock(old(ticks)) - pools[a][i].lastUsed <= config.idleTimeout
                && clock(old(ticks)) - pools[a][i].created <= config.maxAge && pools[a][i].id !in fin
      ensures forall a :: a in pools ==> pools[a] != [] && a in old(pools) && Subsequence(old(pools)[a], pools[a])
    {
      hide PoolsOk, Contents, Balanced, AllLive, Reaped, Dead, Subsequence;
      n, removed := SweepAll(fin);
      ghost var rest := Contents(pools);
      var emptied := set a | a in pools && pools[a] == [];
      while emptied != {}
        invariant Valid() && Contents(pools) == rest
        invariant forall a :: a in emptied <==> a in pools && pools[a] == []
        invariant PoolsLive(config, pools, pools.Keys, clock(old(ticks)), fin)
        invariant forall a :: a in pools ==> a in old(pools) && Subsequence(old(pools)[a], pools[a])
        decreases emptied
        modifies this`pools
      {
        var a :| a in emptied;
        Erase(a);
        emptied := emptied - {a};
      }
      WhatReapingMeans(config, pools, clock(old(ticks)), removed, latest, fin);
    }
  }

  lemma WhatDeadMeans(c: Config, clock: Clock, q: seq<Bundle>, from: nat, t: int, fin: set<nat>, k: nat, ticks: nat)
    requires from <= |q| && AllDead(c, q[from..], t, fin)
    requires k < |q| ==> ticks >= 3 && Passed(c, clock, q[k], fin, ticks - 3)
    ensures forall i :: from <= i < |q| ==>
              t - q[i].lastUsed > c.idleTimeout || t - q[i].created > c.maxAge || q[i].id in fin
    ensures k < |q| ==>
              && clock(ticks - 3) - q[k].lastUsed <= c.idleTimeout && clock(ticks - 2) - q[k].created <= c.maxAge
              && q[k].id !in fin
  {
    forall i | from <= i < |q|
      ensures t - q[i].lastUsed > c.idleTimeout || t - q[i].created > c.maxAge || q[i].id in fin
    {
      assert q[i] == q[from..][i - from];
    }
  }

  lemma WhatReapingMeans(c: Config, pools: Pools, start: int, removed: multiset<Bundle>, end: int, fin: set<nat>)
    requires PoolsLive(c, pools, pools.Keys, start, fin) && Reaped(c, removed, end, fin)
    ensures forall b :: b in removed ==>
              end - b.lastUsed > c.idleTimeout || end - b.created > c.maxAge || b.id in fin
    ensures forall a, i :: a in pools && 0 <= i < |pools[a]| ==>
              && start - pools[a][i].lastUsed <= c.idleTimeout && start - pools[a][i].created <= c.maxAge
              && pools[a][i].id !in fin
  {
    forall a, i | a in pools && 0 <= i < |pools[a]| ensures !Dead(c, pools[a][i], start, fin) {
      assert AllLive(c, pools[a], start, fin);
    }
  }

  /** The positions in q, in order, of the elements of d. */
  ghost predicate Picks(q: seq<Bundle>, d: seq<Bundle>, at: seq<nat>) {
    && |at| == |d| && (forall i, j :: 0 <= i < j < |at| ==> at[i] < at[j])
    && forall i :: 0 <= i < |d| ==> at[i] < |q| && d[i] == q[at[i]]
  }

  /** d is q with some elements erased and the rest in their order. */
  ghost predicate Subsequence(q: seq<Bundle>, d: seq<Bundle>) { exists at :: Picks(q, d, at) }

  lemma WholeSubsequence(q: seq<Bundle>)
    ensures Subsequence(q, q)
  {
    var at := seq(|q|, i => i);
    assert Picks(q, q, at);
  }

  lemma ThinnerSubsequence(q: seq<Bundle>, d: seq<Bundle>, i: nat)
    requires Subsequence(q, d) && i < |d|
    ensures Subsequence(q, d[..i] + d[i + 1..])
  {
    var at :| Picks(q, d, at);
    var rest := at[..i] + at[i + 1..];
    assert forall j :: 0 <= j < |rest| ==> rest[j] == at[if j < i then j else j + 1];
    assert Picks(q, d[..i] + d[i + 1..], rest);
  }

  /** Every deque is thinned; those still to do are untouched. */
  ghost predicate Thinned(was: Pools, pools: Pools, todo: set<Addr>) {
    && was.Keys == pools.Keys
    && forall a :: a in pools ==> Subsequence(was[a], pools[a]) && (a in todo ==> pools[a] == was[a])
  }

  lemma NotThinned(pools: Pools)
    ensures Thinned(pools, pools, pools.Keys)
  {
    forall a | a in pools ensures Subsequence(pools[a], pools[a]) { WholeSubsequence(pools[a]); }
  }

  lemma ThinOne(was: Pools, before: Pools, pools: Pools, todo: set<Addr>, a: Addr)
    requires Thinned(was, before, todo) && a in todo && a in before && a in pools
    requires pools == before[a := pools[a]] && Subsequence(before[a], pools[a])
    ensures Thinned(was, pools, todo - {a})
  {
    hide Subsequence;
  }

  ghost predicate PoolsLive(c: Config, pools: Pools, keys: set<Addr>, t: int, fin: set<nat>) {
    forall a :: a in keys && a in pools ==> AllLive(c, pools[a], t, fin)
  }

  lemma PoolOkAt(c: Config, pools: Pools, a: Addr, latest: int)
    requires PoolsOk(c, pools, latest) && a in pools
    ensures PoolOk(c, a, pools[a], latest)
  {}

  lemma ReplaceOk(c: Config, pools: Pools, a: Addr, d: seq<Bundle>, was: int, latest: int)
    requires PoolsOk(c, pools, latest) && PoolOk(c, a, d, was) && was <= latest
    ensures PoolsOk(c, pools[a := d], latest)
  {
    assert PoolOk(c, a, d, latest);
  }

  lemma MergeReaped(c: Config, removed: multiset<Bundle>, was: int, out: multiset<Bundle>, t: int, fin: set<nat>)
    requires Reaped(c, removed, was, fin) && was <= t && Reaped(c, out, t, fin)
    ensures Reaped(c, removed + out, t, fin)
  {
    ReapedLater(c, removed, was, t, fin);
  }

  lemma MergeLive(c: Config, pools: Pools, todo: set<Addr>, a: Addr, d: seq<Bundle>, start: int, at: int, fin: set<nat>)
    requires PoolsLive(c, pools, pools.Keys - todo, start, fin) && AllLive(c, d, at, fin) && start <= at && a in todo
    requires a in pools
    ensures PoolsLive(c, pools[a := d], pools[a := d].Keys - (todo - {a}), start, fin)
  {
    assert AllLive(c, d, start, fin);
  }

  /** With a clock that does not move between two returns, a pool limited to one connection in
      total holds two: the eviction looks for a strictly older bundle and finds none. */
  method TieOvershoots() returns (p: Pool)
    ensures fresh(p) && p.Valid() && p.total > p.config.maxTotal
  {
    hide PoolsOk, Balanced, Contents, Relieved, Stuck;
    var c, b := Config(10, 60, 1, 300, 1000), Bundle(1, 7, true, 0, 0);
    p := new Pool(c, _ => 0);
    ghost var s, at, rest;
    s, at, rest := p.Put(b, false);
    FirstPut(c, b, at, rest);
    assert p.pools == Append(rest, b) && p.total <= 1 && Stuck(c, MakeRoom(c, p.pools, 7), 0);
    s, at, rest := p.Put(b.(id := 2), false);
  }

  lemma FirstPut(c: Config, b: Bundle, at: int, rest: Pools)
    requires Validated(c) && c.maxTotal == 1 && c.maxPerHost > 1 && b.lastUsed == at
    requires Relieved(c, MakeRoom(c, map[], b.addr), at, rest)
    ensures rest == map[b.addr := []] && |Contents(map[])| == 0 && |Contents(Append(rest, b))| == 1
    ensures MakeRoom(c, Append(rest, b), b.addr) == Append(rest, b) && Stuck(c, Append(rest, b), at)
    ensures !Stuck(c, MakeRoom(c, map[], b.addr), at)
  {
    AllEmpty(map[b.addr := []]);
    PushBack(map[b.addr := []], b.addr, b);
    assert [] + [b] == [b];
  }

  method CloseAll(pool: seq<Bundle>) returns (n: nat, ghost out: multiset<Bundle>)
    ensures n == |pool| && out == multiset(pool)
  {
    n, out := 0, multiset{};
    while n < |pool|
      invariant n <= |pool| && out == multiset(pool[..n])
    {
      assert pool[..n + 1] == pool[..n] + [pool[n]];
      out := out + multiset{pool[n]};
      n := n + 1;
    }
    assert pool[..n] == pool;
  }

  lemma EraseOk(c: Config, pools: Pools, a: Addr, latest: int)
    requires PoolsOk(c, pools, latest)
    ensures PoolsOk(c, pools - {a}, latest)
  {}

  ghost predicate AllLive(c: Config, q: seq<Bundle>, t: int, fin: set<nat>) {
    forall i :: 0 <= i < |q| ==> !Dead(c, q[i], t, fin)
  }

  ghost predicate Reaped(c: Config, removed: multiset<Bundle>, t: int, fin: set<nat>) {
    forall b :: b in removed ==> Dead(c, b, t, fin)
  }

  lemma NoneReaped(c: Config, t: int, fin: set<nat>)
    ensures Reaped(c, multiset{}, t, fin)
  {}

  lemma ReapedLater(c: Config, removed: multiset<Bundle>, t: int, later: int, fin: set<nat>)
    requires Reaped(c, removed, t, fin) && t <= later
    ensures Reaped(c, removed, later, fin)
  {}

  lemma ReapOne(c: Config, removed: multiset<Bundle>, b: Bundle, t: int, fin: set<nat>)
    requires Reaped(c, removed, t, fin) && Dead(c, b, t, fin)
    ensures Reaped(c, removed + multiset{b}, t, fin)
  {}

  lemma EraseAt(c: Config, a: Addr, q: seq<Bundle>, i: nat, latest: int)
    requires PoolOk(c, a, q, latest) && i < |q|
    ensures PoolOk(c, a, q[..i] + q[i + 1..], latest)
    ensures multiset(q) == multiset(q[..i] + q[i + 1..]) + multiset{q[i]}
  {
    EraseElement(q, i);
    EraseSorted(c, a, q, i, latest);
  }

  lemma EraseElement(q: seq<Bundle>, i: nat)
    requires i < |q|
    ensures multiset(q) == multiset(q[..i] + q[i + 1..]) + multiset{q[i]}
  {
    assert q == q[..i] + [q[i]] + q[i + 1..];
  }

  lemma EraseSorted(c: Config, a: Addr, q: seq<Bundle>, i: nat, latest: int)
    requires PoolOk(c, a, q, latest) && i < |q|
    ensures PoolOk(c, a, q[..i] + q[i + 1..], latest)
  {
    var d := q[..i] + q[i + 1..];
    assert forall j :: 0 <= j < |d| ==> d[j] == if j < i then q[j] else q[j + 1];
  }

  lemma StayedLive(c: Config, clock: Clock, q: seq<Bundle>, i: nat, start: nat, at: nat, fin: set<nat>)
    requires Steady(clock) && start <= at && i < |q|
    requires AllLive(c, q[..i], clock(start), fin) && Passed(c, clock, q[i], fin, at)
    ensures AllLive(c, q[..i + 1], clock(start), fin)
  {
    assert q[..i + 1] == q[..i] + [q[i]];
    assert clock(start) <= clock(at) <= clock(at + 1);
  }

  function Newest(pools: Pools, a: Addr): Bundle
    requires a in pools && pools[a] != []
  {
    pools[a][|pools[a]| - 1]
  }

  function DropBack(pools: Pools, a: Addr): Pools
    requires a in pools && pools[a] != []
  {
    pools[a := pools[a][..|pools[a]| - 1]]
  }

  lemma NoneScanned(c: Config, base: Pools, a: Addr, t: int, fin: set<nat>)
    requires a in base
    ensures base == base[a := base[a][..|base[a]|]] && AllDead(c, base[a][|base[a]|..], t, fin)
  {
    assert base[a][..|base[a]|] == base[a];
  }

  lemma ScanOne(base: Pools, a: Addr, n: nat)
    requires a in base && n < |base[a]|
    ensures var pools := base[a := base[a][..n + 1]];
            DropBack(pools, a) == base[a := base[a][..n]] && Newest(pools, a) == base[a][n]
  {
    assert base[a][..n + 1][..n] == base[a][..n];
  }

  /** The checks as get makes them: idle time at reading k, age at the next. */
  ghost predicate Passed(c: Config, clock: Clock, b: Bundle, fin: set<nat>, k: nat) {
    !Expired(c, b, clock(k)) && !TooOld(c, b, clock(k + 1)) && b.id !in fin
  }

  ghost predicate AllDead(c: Config, q: seq<Bundle>, t: int, fin: set<nat>) {
    forall i :: 0 <= i < |q| ==> Dead(c, q[i], t, fin)
  }

  function PoolAt(pools: Pools, a: Addr): seq<Bundle> { if a in pools then pools[a] else [] }

  lemma AllDeadLater(c: Config, q: seq<Bundle>, t: int, later: int, fin: set<nat>)
    requires AllDead(c, q, t, fin) && t <= later
    ensures AllDead(c, q, later, fin)
  {}

  lemma OneMoreDead(c: Config, q: seq<Bundle>, n: nat, t: int, fin: set<nat>)
    requires n < |q| && Dead(c, q[n], t, fin) && AllDead(c, q[n + 1..], t, fin)
    ensures AllDead(c, q[n..], t, fin)
  {
    assert q[n..] == [q[n]] + q[n + 1..];
  }

  lemma FromPool(c: Config, pools: Pools, a: Addr, i: nat, latest: int)
    requires PoolsOk(c, pools, latest) && a in pools && i < |pools[a]|
    ensures pools[a][i].addr == a && pools[a][i].valid
  {
    assert PoolOk(c, a, pools[a], latest);
  }

  lemma DropAgain(pools: Pools, a: Addr)
    requires a !in pools
    ensures pools[a := []] - {a} == pools && |pools[a := []]| == |pools| + 1
  {
    assert pools[a := []].Keys == pools.Keys + {a};
  }

  lemma HostLimit(c: Config, pools: Pools, a: Addr, latest: int)
    requires PoolsOk(c, pools, latest) && a in pools && Validated(c)
    ensures |pools[a]| <= c.maxPerHost && (|pools[a]| >= c.maxPerHost ==> pools[a] != [])
  {
    assert PoolOk(c, a, pools[a], latest);
  }

  lemma StoreOk(c: Config, pools: Pools, b: Bundle, was: int, latest: int)
    requires PoolsOk(c, pools, was) && b.valid && b.lastUsed == was <= latest
    requires b.addr in pools && |pools[b.addr]| < c.maxPerHost
    ensures PoolsOk(c, Append(pools, b), latest)
  {
    Later(c, pools, was, latest);
    assert PoolOk(c, b.addr, pools[b.addr], was);
    PushOk(c, pools, b, latest);
  }
}
