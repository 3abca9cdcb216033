/** Merging configured and discovered peers under a cap (src/gossip_peer_merge.hpp). */
module PeerMerge {

  /** The elements of s in order of first occurrence. */
  function Distinct<A(==)>(s: seq<A>): seq<A> {
    if s == [] then []
    else
      var d, last := Distinct(s[..|s| - 1]), s[|s| - 1];
      if last in d then d else d + [last]
  }

  lemma {:induction false} DistinctMeaning<A(!new)>(s: seq<A>)
    ensures forall i, j :: 0 <= i < j < |Distinct(s)| ==> Distinct(s)[i] != Distinct(s)[j]
    ensures forall a :: a in Distinct(s) <==> a in s
  {
    if s != [] {
      DistinctMeaning(s[..|s| - 1]);
      assert s == s[..|s| - 1] + [s[|s| - 1]];
    }
  }

  function Take<A>(s: seq<A>, n: nat): seq<A> { if |s| <= n then s else s[..n] }

  /** The state of the merge after it has admitted `input`. */
  ghost predicate MergedSoFar<A(!new)>(input: seq<A>, cap: nat, merged: seq<A>, seen: set<A>, dropped: nat) {
    && merged == Take(Distinct(input), cap)
    && dropped == |Distinct(input)| - |merged|
    && forall a :: a in seen <==> a in input
  }

  method Admit<A(==, !new)>(addr: A, cap: nat, merged: seq<A>, seen: set<A>, dropped: nat, ghost input: seq<A>)
    returns (merged': seq<A>, seen': set<A>, dropped': nat)
    requires MergedSoFar(input, cap, merged, seen, dropped)
    ensures MergedSoFar(input + [addr], cap, merged', seen', dropped')
  {
    assert (input + [addr])[..|input|] == input;
    DistinctMeaning(input);
    merged', seen', dropped' := merged, seen, dropped;
    if addr in seen { return; }
    seen' := seen + {addr};
    if |merged| >= cap {
      dropped' := dropped + 1;
      return;
    }
    merged' := merged + [addr];
  }

  /** The first `cap` distinct addresses, static ones first, and how many were refused. */
  method MergeAndCap<A(==, !new)>(statics: seq<A>, discovered: seq<A>, cap: nat) returns (merged: seq<A>, dropped: nat)
    ensures merged == Take(Distinct(statics + discovered), cap)
    ensures dropped == |Distinct(statics + discovered)| - |merged|
  {
    merged, dropped := [], 0;
    var seen: set<A> := {};
    for i := 0 to |statics|
      invariant MergedSoFar(statics[..i], cap, merged, seen, dropped)
    {
      merged, seen, dropped := Admit(statics[i], cap, merged, seen, dropped, statics[..i]);
      assert statics[..i] + [statics[i]] == statics[..i + 1];
    }
    assert statics[..|statics|] == statics + discovered[..0];
    for i := 0 to |discovered|
      invariant MergedSoFar(statics + discovered[..i], cap, merged, seen, dropped)
    {
      merged, seen, dropped := Admit(discovered[i], cap, merged, seen, dropped, statics + discovered[..i]);
      assert statics + discovered[..i] + [discovered[i]] == statics + discovered[..i + 1];
    }
    assert discovered[..|discovered|] == discovered;
  }

  lemma {:induction false} DistinctPrefix<A(!new)>(a: seq<A>, b: seq<A>)
    ensures Distinct(a) <= Distinct(a + b)
  {
    if b == [] { assert a + b == a; }
    else {
      DistinctPrefix(a, b[..|b| - 1]);
      assert (a + b)[..|a + b| - 1] == a + b[..|b| - 1];
    }
  }

  /** No flood of discovered addresses displaces a configured peer that fits the cap. */
  lemma StaticPeersSurvive<A(!new)>(statics: seq<A>, discovered: seq<A>, cap: nat)
    ensures Take(Distinct(statics), cap) <= Take(Distinct(statics + discovered), cap)
    ensures |Distinct(statics)| <= cap ==> forall a :: a in statics ==> a in Take(Distinct(statics + discovered), cap)
  {
    DistinctPrefix(statics, discovered);
    DistinctMeaning(statics);
  }
}
