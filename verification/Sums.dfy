/** Sums of the values of a finite map. */
module Sums {

  ghost function SumOver(keys: set<nat>, m: map<nat, nat>): nat
    requires keys <= m.Keys
  {
    if keys == {} then 0 else var k :| k in keys; m[k] + SumOver(keys - {k}, m)
  }

  ghost function Sum(m: map<nat, nat>): nat { SumOver(m.Keys, m) }

  lemma {:induction false} SumSplit(keys: set<nat>, m: map<nat, nat>, p: nat)
    requires p in keys && keys <= m.Keys
    ensures SumOver(keys, m) == m[p] + SumOver(keys - {p}, m)
  {
    var k :| k in keys && SumOver(keys, m) == m[k] + SumOver(keys - {k}, m);
    if k != p {
      SumSplit(keys - {k}, m, p);
      SumSplit(keys - {p}, m, k);
      assert keys - {k} - {p} == keys - {p} - {k};
    }
  }

  lemma {:induction false} SumSame(keys: set<nat>, m: map<nat, nat>, n: map<nat, nat>)
    requires keys <= m.Keys && keys <= n.Keys && forall p :: p in keys ==> m[p] == n[p]
    ensures SumOver(keys, m) == SumOver(keys, n)
  {
    if keys != {} {
      var p :| p in keys;
      SumSplit(keys, m, p);
      SumSplit(keys, n, p);
      SumSame(keys - {p}, m, n);
    }
  }

  lemma SumRemove(m: map<nat, nat>, p: nat)
    ensures Sum(m - {p}) == Sum(m) - (if p in m then m[p] else 0)
  {
    var rest := m.Keys - {p};
    assert (m - {p}).Keys == rest;
    SumSame(rest, m, m - {p});
    if p in m { SumSplit(m.Keys, m, p); } else { assert rest == m.Keys; }
  }

  lemma SumUpdate(m: map<nat, nat>, p: nat, v: nat)
    ensures Sum(m[p := v]) == Sum(m) - (if p in m then m[p] else 0) + v
  {
    SumRemove(m, p);
    SumRemove(m[p := v], p);
    assert m[p := v] - {p} == m - {p};
  }

  function NonZero(m: map<nat, nat>): map<nat, nat> { map p | p in m && m[p] != 0 :: m[p] }

  lemma {:induction false} SumNonZero(m: map<nat, nat>)
    ensures Sum(NonZero(m)) == Sum(m)
    decreases |m|
  {
    if p :| p in m && m[p] == 0 {
      SumRemove(m, p);
      assert (m - {p}).Keys == m.Keys - {p};
      SumNonZero(m - {p});
      assert NonZero(m - {p}) == NonZero(m);
    } else {
      assert NonZero(m) == m;
    }
  }

  lemma {:induction false} SubsetSize<T>(a: set<T>, b: set<T>)
    requires a <= b
    ensures |a| <= |b|
  {
    if x :| x in a { SubsetSize(a - {x}, b - {x}); }
  }
}
