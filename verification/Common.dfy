/** Small definitions shared by the models. */
module Common {

  datatype Option<T> = None | Some(value: T)

  function Elements<T>(s: seq<T>): set<T> { set x | x in s }

  function Min(a: nat, b: nat): nat { if a < b then a else b }
  function Max(a: nat, b: nat): nat { if a > b then a else b }

  function Pow2(k: nat): (r: nat)
    ensures r > 0
  {
    if k == 0 then 1 else 2 * Pow2(k - 1)
  }

  function Range(lo: nat, hi: nat): (r: set<nat>)
    requires lo <= hi
    ensures forall x: nat :: x in r <==> lo <= x < hi
    ensures |r| == hi - lo
  {
    if lo == hi then {} else Range(lo, hi - 1) + {hi - 1}
  }
}
