/** The cluster cache-topology index (src/cache_topology_index.hpp): two reverse indexes from
    prefix hash to nodes, kept in step with one set of hashes per node under hard caps. */
module CacheTopology {
  import opened Common
  import opened Sums

  type Node = nat
  type Hash = nat
  type Index = map<Hash, set<Node>>
  type Sets = map<Node, set<Hash>>

  const MAX_HOT_PREFIXES := 16384
  const MAX_NODES := 1024

  datatype Entry = Entry(hashes: set<Hash>, verified: set<Hash>, lastSeen: int)

  function Members(byNode: map<Node, Entry>): Sets { map n | n in byNode :: byNode[n].hashes }
  function Verifieds(byNode: map<Node, Entry>): Sets { map n | n in byNode :: byNode[n].verified }

  predicate Holds(sets: Sets, n: Node, h: Hash) { n in sets && h in sets[n] }

  /** The index says exactly who contributes each hash, and stores no empty holder set. */
  ghost predicate IsIndexOf(index: Index, sets: Sets) {
    && (forall h, n :: h in index && n in index[h] ==> Holds(sets, n, h))
    && (forall h, n :: Holds(sets, n, h) ==> h in index && n in index[h])
    && (forall h :: h in index ==> index[h] != {})
  }

  /** Every hash some node contributes. */
  function Held(sets: Sets): set<Hash> { set n, h | n in sets && h in sets[n] :: h }

  function HoldersOf(sets: Sets, h: Hash): set<Node> { set n | n in sets && h in sets[n] }

  /** The reverse index, rebuilt from scratch. */
  function IndexOf(sets: Sets): Index { map h | h in Held(sets) :: HoldersOf(sets, h) }

  lemma IsIndexOfMeaning(index: Index, sets: Sets)
    ensures IsIndexOf(index, sets) <==> index == IndexOf(sets)
  {
    var all := IndexOf(sets);
    forall n, h ensures Holds(sets, n, h) <==> h in all && n in all[h] {
      if Holds(sets, n, h) { assert h in Held(sets); }
    }
    if IsIndexOf(index, sets) {
      KeysAreHeld(index, sets);
      forall h | h in index ensures index[h] == all[h] {
        assert forall n :: n in index[h] <==> Holds(sets, n, h);
      }
      assert index == all;
    }
    if index == all {
      forall h | h in index ensures index[h] != {} {
        var n :| n in sets && h in sets[n];
        assert n in all[h];
      }
    }
  }

  function Remove(index: Index, n: Node, h: Hash): Index {
    if h !in index then index
    else if index[h] - {n} == {} then index - {h}
    else index[h := index[h] - {n}]
  }

  function Add(index: Index, n: Node, h: Hash): Index {
    index[h := (if h in index then index[h] else {}) + {n}]
  }

  lemma KeysAreHeld(index: Index, sets: Sets)
    requires IsIndexOf(index, sets)
    ensures index.Keys == Held(sets)
  {
    forall h | h in index ensures h in Held(sets) {
      var n :| n in index[h];
      assert Holds(sets, n, h);
    }
    forall h | h in Held(sets) ensures h in index {
      var n :| n in sets && h in sets[n];
      assert Holds(sets, n, h);
    }
  }

  function Set(sets: Sets, n: Node, own: set<Hash>): Sets { sets[n := own] }

  lemma RemoveKeeps(index: Index, sets: Sets, n: Node, own: set<Hash>, h: Hash)
    requires IsIndexOf(index, Set(sets, n, own)) && h in own
    ensures IsIndexOf(Remove(index, n, h), Set(sets, n, own - {h}))
  {
    var r, before, after := Remove(index, n, h), Set(sets, n, own), Set(sets, n, own - {h});
    assert Holds(before, n, h);
    forall g, m | g in r && m in r[g] ensures Holds(after, m, g) { assert Holds(before, m, g); }
    forall g, m | Holds(after, m, g) ensures g in r && m in r[g] {
      assert Holds(before, m, g);
      if g == h { assert m in index[h] - {n}; }
    }
  }

  lemma AddKeeps(index: Index, sets: Sets, n: Node, own: set<Hash>, h: Hash)
    requires IsIndexOf(index, Set(sets, n, own))
    ensures IsIndexOf(Add(index, n, h), Set(sets, n, own + {h}))
  {
    var r, before, after := Add(index, n, h), Set(sets, n, own), Set(sets, n, own + {h});
    forall g, m | g in r && m in r[g] ensures Holds(after, m, g) {
      if g != h || m != n { assert Holds(before, m, g); }
    }
    forall g, m | Holds(after, m, g) ensures g in r && m in r[g] {
      if g != h || m != n { assert Holds(before, m, g); }
    }
  }

  /** The removal loop of one tier. */
  method RemoveAll(index: Index, n: Node, drop: set<Hash>, ghost sets: Sets, ghost own: set<Hash>) returns (r: Index)
    requires IsIndexOf(index, Set(sets, n, own)) && drop <= own
    ensures IsIndexOf(r, Set(sets, n, own - drop))
  {
    r := index;
    var todo := drop;
    ghost var cur := own;
    while todo != {}
      invariant todo <= drop && cur == own - (drop - todo) && IsIndexOf(r, Set(sets, n, cur))
      decreases todo
    {
      var h :| h in todo;
      RemoveKeeps(r, sets, n, cur, h);
      r, cur := Remove(r, n, h), cur - {h};
      todo := todo - {h};
    }
    assert cur == own - drop;
  }

  /** The verified tier's insertion loop. */
  method AddAll(index: Index, n: Node, add: set<Hash>, ghost sets: Sets, ghost own: set<Hash>) returns (r: Index)
    requires IsIndexOf(index, Set(sets, n, own))
    ensures IsIndexOf(r, Set(sets, n, own + add))
  {
    r := index;
    var todo := add;
    ghost var cur := own;
    while todo != {}
      invariant todo <= add && cur == own + (add - todo) && IsIndexOf(r, Set(sets, n, cur))
      decreases todo
    {
      var h :| h in todo;
      AddKeeps(r, sets, n, cur, h);
      r, cur := Add(r, n, h), cur + {h};
      todo := todo - {h};
    }
    assert cur == own + add;
  }

  /** Adds one holder, unless that takes a new hash and the index is full. */
  method AddHolder(index: Index, n: Node, h: Hash) returns (r: Index, ok: bool)
    requires |index.Keys| <= MAX_HOT_PREFIXES
    ensures ok <==> h in index || |index.Keys| < MAX_HOT_PREFIXES
    ensures r == (if ok then Add(index, n, h) else index) && |r.Keys| <= MAX_HOT_PREFIXES
    ensures r.Keys == if ok then index.Keys + {h} else index.Keys
  {
    r, ok := index, true;
    if h !in index {
      if |index.Keys| >= MAX_HOT_PREFIXES { return index, false; }
      r := r[h := {}];
    }
    Emplaced(index, r, n, h);
    r := r[h := r[h] + {n}];
    AddedKeys(index, n, h);
  }

  lemma Emplaced(index: Index, r: Index, n: Node, h: Hash)
    requires r == if h in index then index else index[h := {}]
    ensures h in r && r[h := r[h] + {n}] == Add(index, n, h)
  {
    assert {} + {n} == {n};
  }

  lemma AddedKeys(index: Index, n: Node, h: Hash)
    ensures Add(index, n, h).Keys == index.Keys + {h}
    ensures h in index ==> index.Keys + {h} == index.Keys
    ensures |index.Keys + {h}| == |index.Keys| + if h in index then 0 else 1
  {
    assert h in index ==> index.Keys + {h} == index.Keys;
  }

  /** One round of the insertion loop. */
  method AddNext(r: Index, n: Node, h: Hash, rejected: set<Hash>,
                 ghost was: set<Hash>, ghost sets: Sets, ghost own: set<Hash>, ghost g: Pass)
    returns (r': Index, rejected': set<Hash>, ghost g': Pass)
    requires Adding(r, n, was, sets, own, g) && h !in g.visited && rejected == g.refused
    ensures Adding(r', n, was, sets, own, g') && rejected' == g'.refused && g'.visited == g.visited + {h}
  {
    var ok;
    r', ok := AddHolder(r, n, h);
    if !ok {
      Refuse(was, own, r.Keys, g, h);
      rejected' := rejected + {h};
      g' := g.(refused := rejected', visited := g.visited + {h});
    } else {
      AddKeeps(r, sets, n, g.own, h);
      Admit(was, own, r.Keys, g, h);
      rejected', g' := rejected, Admitted(r.Keys, g, h);
    }
  }

  /** The membership tier's insertion loop, whatever order it visits the hashes in: brand-new
      hashes are refused exactly when the index is full. */
  method AddCapped(index: Index, n: Node, add: set<Hash>, ghost sets: Sets, ghost own: set<Hash>)
    returns (r: Index, rejected: set<Hash>)
    requires IsIndexOf(index, Set(sets, n, own)) && |index.Keys| <= MAX_HOT_PREFIXES
    ensures rejected <= add - index.Keys && rejected !! r.Keys && |r.Keys| <= MAX_HOT_PREFIXES
    ensures IsIndexOf(r, Set(sets, n, own + (add - rejected)))
    ensures |rejected| == Excess(|add - index.Keys|, MAX_HOT_PREFIXES - |index.Keys|)
    ensures rejected != {} ==> |r.Keys| == MAX_HOT_PREFIXES
  {
    hide IsIndexOf, PassOk;
    r, rejected := index, {};
    var todo := add;
    ghost var g := Pass(own, {}, {}, {});
    StartPass(index, n, sets, own);
    while todo != {}
      invariant Partition(add, g.visited, todo) && rejected == g.refused
      invariant Adding(r, n, index.Keys, sets, own, g)
      decreases todo
    {
      var h :| h in todo;
      MoveOver(add, g.visited, todo, h);
      r, rejected, g := AddNext(r, n, h, rejected, index.Keys, sets, own, g);
      todo := todo - {h};
    }
    CountPass(index.Keys, own, r.Keys, g, add);
  }

  function Excess(wanted: int, free: int): int { if wanted > free then wanted - free else 0 }

  /** Bookkeeping of one insertion pass: the node's set so far, what was visited, and how the
      visited hashes that were new to the index divide into taken and refused. */
  datatype Pass = Pass(own: set<Hash>, visited: set<Hash>, taken: set<Hash>, refused: set<Hash>)

  ghost predicate PassOk(was: set<Hash>, own: set<Hash>, keys: set<Hash>, g: Pass) {
    && g.taken + g.refused == g.visited - was && g.taken !! g.refused
    && keys == was + g.taken && g.own == own + (g.visited - g.refused)
  }

  ghost predicate Partition(all: set<Hash>, done: set<Hash>, todo: set<Hash>) {
    done !! todo && done + todo == all && (todo == {} ==> done == all)
  }

  lemma MoveOver(all: set<Hash>, done: set<Hash>, todo: set<Hash>, h: Hash)
    requires Partition(all, done, todo) && h in todo
    ensures h !in done && Partition(all, done + {h}, todo - {h})
  {}

  ghost predicate Adding(r: Index, n: Node, was: set<Hash>, sets: Sets, own: set<Hash>, g: Pass) {
    && IsIndexOf(r, Set(sets, n, g.own)) && PassOk(was, own, r.Keys, g)
    && |r.Keys| <= MAX_HOT_PREFIXES && (g.refused != {} ==> |r.Keys| == MAX_HOT_PREFIXES)
  }

  function Admitted(keys: set<Hash>, g: Pass, h: Hash): Pass {
    Pass(g.own + {h}, g.visited + {h}, if h in keys then g.taken else g.taken + {h}, g.refused)
  }

  lemma Refuse(was: set<Hash>, own: set<Hash>, keys: set<Hash>, g: Pass, h: Hash)
    requires PassOk(was, own, keys, g) && h !in keys && h !in g.visited
    ensures PassOk(was, own, keys, g.(visited := g.visited + {h}, refused := g.refused + {h}))
  {}

  lemma Admit(was: set<Hash>, own: set<Hash>, keys: set<Hash>, g: Pass, h: Hash)
    requires PassOk(was, own, keys, g) && h !in g.visited
    ensures PassOk(was, own, keys + {h}, Admitted(keys, g, h))
  {}

  lemma StartPass(index: Index, n: Node, sets: Sets, own: set<Hash>)
    requires IsIndexOf(index, Set(sets, n, own)) && |index.Keys| <= MAX_HOT_PREFIXES
    ensures Adding(index, n, index.Keys, sets, own, Pass(own, {}, {}, {}))
  {}

  lemma CountPass(was: set<Hash>, own: set<Hash>, keys: set<Hash>, g: Pass, add: set<Hash>)
    requires PassOk(was, own, keys, g) && g.visited == add
    requires |keys| <= MAX_HOT_PREFIXES && (g.refused != {} ==> |keys| == MAX_HOT_PREFIXES)
    ensures |g.refused| == Excess(|add - was|, MAX_HOT_PREFIXES - |was|)
    ensures g.refused <= add - was && g.refused !! keys && g.own == own + (add - g.refused)
  {
    assert |g.taken + g.refused| == |g.taken| + |g.refused|;
    assert was !! g.taken && |was + g.taken| == |was| + |g.taken|;
  }

  class CacheTopologyIndex {
    var holders: Index
    var verifiedHolders: Index
    var byNode: map<Node, Entry>
    var prefixOverflow: nat
    var nodeOverflow: nat

    ghost predicate Valid() reads this { Agree(holders, verifiedHolders, byNode) }

    constructor ()
      ensures Valid() && byNode == map[] && prefixOverflow == nodeOverflow == 0
    {
      holders, verifiedHolders, byNode, prefixOverflow, nodeOverflow := map[], map[], map[], 0, 0;
    }

    /** Replaces the node's whole contribution. Whatever order the hashes are visited in, what
        the node already held and still reports is kept, nothing unreported is added, and the
        refused hashes are brand-new ones in excess of the free slots: none is indexed for anyone,
        and the index is full. */
    method ApplyDigest(node: Node, hashes: seq<Hash>, verified: seq<Hash>, now: int)
      requires Valid()
      modifies this
      ensures Valid()
      ensures node !in old(byNode) && |old(byNode).Keys| >= 1024 ==>
                && byNode == old(byNode) && holders == old(holders) && verifiedHolders == old(verifiedHolders)
                && prefixOverflow == old(prefixOverflow) && nodeOverflow == old(nodeOverflow) + 1
      ensures node in old(byNode) || |old(byNode).Keys| < 1024 ==>
                && node in byNode && byNode == old(byNode)[node := byNode[node]]
                && Applied(old(byNode), node, Elements(hashes), Elements(verified), now, byNode[node], holders.Keys)
                && byNode[node].hashes <= Elements(hashes) && byNode[node].lastSeen == now
                && byNode[node].verified == Elements(verified) * byNode[node].hashes
                && (forall h :: h in hashes && h !in byNode[node].hashes ==> h !in holders && |holders.Keys| == 16384)
                && prefixOverflow == old(prefixOverflow) + |Elements(hashes) - byNode[node].hashes|
                && nodeOverflow == old(nodeOverflow)
    {
      hide IndexOf, Members, Verifieds, Applied, Elements;
      if node !in byNode && |byNode.Keys| >= MAX_NODES {
        nodeOverflow := nodeOverflow + 1;
        return;
      }
      var rejected;
      holders, verifiedHolders, byNode, rejected :=
        Replace(holders, verifiedHolders, byNode, node, hashes, verified, now);
      prefixOverflow := prefixOverflow + rejected;
      AppliedMeaning(old(byNode), node, hashes, verified, now, byNode[node], holders.Keys);
    }

    /** Peer death: the node's whole contribution goes, and nothing else. */
    method EvictNode(node: Node)
      requires Valid()
      modifies this`holders, this`verifiedHolders, this`byNode
      ensures Valid() && byNode == old(byNode) - {node}
    {
      hide IndexOf, Members, Verifieds;
      if node !in byNode {
        assert byNode - {node} == byNode;
        return;
      }
      holders, verifiedHolders := Withdraw(holders, verifiedHolders, byNode, node);
      byNode := byNode - {node};
    }

    /** Drops exactly the nodes last refreshed before the cutoff. */
    method AgeOut(cutoff: int) returns (evicted: nat)
      requires Valid()
      modifies this`holders, this`verifiedHolders, this`byNode
      ensures Valid()
      ensures byNode == map n | n in old(byNode) && old(byNode)[n].lastSeen >= cutoff :: old(byNode)[n]
      ensures evicted == |old(byNode)| - |byNode|
    {
      ghost var was := byNode;
      var dead := Stale(byNode, cutoff);
      var todo := dead;
      ghost var gone: set<Node> := {};
      DropNone(was);
      while todo != {}
        invariant Valid() && Partition(dead, gone, todo) && byNode == was - gone
        decreases todo
        modifies this`holders, this`verifiedHolders, this`byNode
      {
        var node :| node in todo;
        MoveOver(dead, gone, todo, node);
        DropMore(was, gone, node);
        EvictNode(node);
        gone, todo := gone + {node}, todo - {node};
      }
      FreshStay(was, cutoff);
      return |dead|;
    }

    /** The sole-holder signal: how many tracked nodes contribute the hash. */
    method HolderCount(hash: Hash) returns (k: nat)
      requires Valid()
      ensures k == |set n | n in byNode && hash in byNode[n].hashes|
      ensures k == 1 <==> exists n :: SoleHolder(Members(byNode), n, hash)
    {
      CountMeaning(holders, Members(byNode), hash);
      assert HoldersOf(Members(byNode), hash) == set n | n in byNode && hash in byNode[n].hashes;
      k := if hash in holders then |holders[hash]| else 0;
    }

    method VerifiedHolderCount(hash: Hash) returns (k: nat)
      requires Valid()
      ensures k == |set n | n in byNode && hash in byNode[n].verified| <= |set n | n in byNode && hash in byNode[n].hashes|
      ensures k == 1 <==> exists n :: SoleHolder(Verifieds(byNode), n, hash)
    {
      CountMeaning(verifiedHolders, Verifieds(byNode), hash);
      VerifiedAreHolders(holders, byNode, hash);
      assert HoldersOf(Members(byNode), hash) == set n | n in byNode && hash in byNode[n].hashes;
      assert HoldersOf(Verifieds(byNode), hash) == set n | n in byNode && hash in byNode[n].verified;
      k := if hash in verifiedHolders then |verifiedHolders[hash]| else 0;
    }
  }

  /** A node whose digest names no prefix keeps its entry. */
  method EmptyNodeStays() returns (t: CacheTopologyIndex)
    ensures fresh(t) && t.Valid() && 7 in t.byNode && t.byNode[7].hashes == {}
  {
    hide Agree, Replaces, Admits;
    t := new CacheTopologyIndex();
    KnownOrRoom(t.byNode, 7);
    t.ApplyDigest(7, [1], [], 0);
    KnownOrRoom(t.byNode, 7);
    ghost var before := t.byNode;
    t.ApplyDigest(7, [], [], 1);
    OnlyReported(before, 7, Elements([]), t.byNode[7].hashes);
  }

  lemma KnownOrRoom(byNode: map<Node, Entry>, node: Node)
    ensures node in byNode || byNode == map[] ==> Admits(byNode, node)
  {}

  lemma OnlyReported(byNode: map<Node, Entry>, node: Node, next: set<Hash>, A: set<Hash>)
    requires Replaces(byNode, node, next, A)
    ensures A <= next
  {}

  function Stale(byNode: map<Node, Entry>, cutoff: int): set<Node> {
    set n | n in byNode && byNode[n].lastSeen < cutoff
  }

  lemma FreshStay(byNode: map<Node, Entry>, cutoff: int)
    ensures byNode - Stale(byNode, cutoff) == map n | n in byNode && byNode[n].lastSeen >= cutoff :: byNode[n]
    ensures |Stale(byNode, cutoff)| == |byNode| - |byNode - Stale(byNode, cutoff)|
  {
    var rest := byNode - Stale(byNode, cutoff);
    assert rest.Keys == byNode.Keys - Stale(byNode, cutoff) && byNode.Keys == rest.Keys + Stale(byNode, cutoff);
    assert |rest| == |rest.Keys| && |byNode| == |byNode.Keys|;
  }

  lemma DropNone(byNode: map<Node, Entry>)
    ensures byNode - {} == byNode
  {}

  lemma DropMore(byNode: map<Node, Entry>, gone: set<Node>, node: Node)
    ensures byNode - gone - {node} == byNode - (gone + {node})
  {}

  ghost predicate SoleHolder(sets: Sets, n: Node, h: Hash) {
    Holds(sets, n, h) && forall m :: Holds(sets, m, h) ==> m == n
  }

  lemma CountMeaning(index: Index, sets: Sets, h: Hash)
    requires index == IndexOf(sets)
    ensures HoldersOf(sets, h) == if h in index then index[h] else {}
    ensures |HoldersOf(sets, h)| == 1 <==> exists n :: SoleHolder(sets, n, h)
  {
    IsIndexOfMeaning(index, sets);
    var all := HoldersOf(sets, h);
    assert forall m :: m in all <==> Holds(sets, m, h);
    if |all| == 1 {
      var n :| n in all;
      SubsetOfOne(all, n);
      assert SoleHolder(sets, n, h);
    }
    forall n: Node | SoleHolder(sets, n, h) ensures |all| == 1 { assert all == {n}; }
  }

  lemma SubsetOfOne(s: set<Node>, n: Node)
    requires |s| == 1 && n in s
    ensures s == {n}
  {
    assert |s - {n}| == 0;
  }

  lemma VerifiedAreHolders(holders: Index, byNode: map<Node, Entry>, h: Hash)
    requires Caps(holders, byNode)
    ensures |HoldersOf(Verifieds(byNode), h)| <= |HoldersOf(Members(byNode), h)|
  {
    SubsetSize(HoldersOf(Verifieds(byNode), h), HoldersOf(Members(byNode), h));
  }

  lemma DropEntry(byNode: map<Node, Entry>, node: Node)
    requires node in byNode
    ensures Members(byNode - {node}) == Members(byNode) - {node}
    ensures Verifieds(byNode - {node}) == Verifieds(byNode) - {node}
  {}

  /** Withdrawing all of a node's hashes from one tier leaves the index of the other nodes. */
  method WithdrawTier(index: Index, ghost sets: Sets, node: Node, own: set<Hash>) returns (r: Index)
    requires index == IndexOf(sets) && node in sets && own == sets[node]
    ensures r == IndexOf(sets - {node}) && |r.Keys| <= |index.Keys|
  {
    ghost var rest := sets - {node};
    assert Set(sets, node, own) == sets;
    IsIndexOfMeaning(index, sets);
    r := RemoveAll(index, node, own, sets, own);
    assert own - own == {} && Set(sets, node, {}) == Set(rest, node, {});
    EmptyContribution(r, rest, node);
    FewerKeys(index, sets, r, rest);
    IsIndexOfMeaning(r, rest);
  }

  method Withdraw(holders: Index, verifiedHolders: Index, byNode: map<Node, Entry>, node: Node)
    returns (index: Index, verifiedIndex: Index)
    requires Agree(holders, verifiedHolders, byNode) && node in byNode
    ensures Agree(index, verifiedIndex, byNode - {node})
  {
    index := WithdrawTier(holders, Members(byNode), node, byNode[node].hashes);
    verifiedIndex := WithdrawTier(verifiedHolders, Verifieds(byNode), node, byNode[node].verified);
    DropEntry(byNode, node);
    SubsetSize((byNode - {node}).Keys, byNode.Keys);
  }

  /** Both tiers are the indexes of the nodes' contributions, and the caps hold. */
  ghost predicate Agree(holders: Index, verifiedHolders: Index, byNode: map<Node, Entry>) {
    Tiers(holders, verifiedHolders, byNode) && Caps(holders, byNode)
  }

  ghost predicate Tiers(holders: Index, verifiedHolders: Index, byNode: map<Node, Entry>) {
    holders == IndexOf(Members(byNode)) && verifiedHolders == IndexOf(Verifieds(byNode))
  }

  ghost predicate Caps(holders: Index, byNode: map<Node, Entry>) {
    && (forall n :: n in byNode ==> byNode[n].verified <= byNode[n].hashes)
    && |holders.Keys| <= MAX_HOT_PREFIXES && |byNode.Keys| <= MAX_NODES
  }

  predicate Admits(byNode: map<Node, Entry>, node: Node) { node in byNode || |byNode.Keys| < MAX_NODES }

  function Contributed(byNode: map<Node, Entry>, node: Node): set<Hash> {
    if node in byNode then byNode[node].hashes else {}
  }

  /** A is a lawful replacement of the node's contribution by `next` under the prefix cap. */
  ghost predicate Replaces(byNode: map<Node, Entry>, node: Node, next: set<Hash>, A: set<Hash>) {
    var kept := Contributed(byNode, node) * next;
    var taken := Held(Set(Members(byNode), node, kept));
    && kept <= A <= next
    && next - A <= next - taken
    && |next - A| == Excess(|next - taken|, MAX_HOT_PREFIXES - |taken|)
  }

  /** The node's new entry: a lawful replacement, its verified part within what was accepted, and
      none of the refused hashes, if any, indexed for anyone in a full index. */
  ghost predicate Applied(was: map<Node, Entry>, node: Node, next: set<Hash>, verified: set<Hash>, now: int,
                          e: Entry, keys: set<Hash>) {
    && Replaces(was, node, next, e.hashes) && e.lastSeen == now
    && e.verified == verified * e.hashes && (next - e.hashes) !! keys
    && (next != e.hashes ==> |keys| == MAX_HOT_PREFIXES)
  }

  lemma AppliedMeaning(was: map<Node, Entry>, node: Node, hashes: seq<Hash>, verified: seq<Hash>, now: int,
                       e: Entry, keys: set<Hash>)
    requires Applied(was, node, Elements(hashes), Elements(verified), now, e, keys)
    ensures e.hashes <= Elements(hashes) && e.lastSeen == now && e.verified == Elements(verified) * e.hashes
    ensures forall h :: h in hashes && h !in e.hashes ==> h !in keys && |keys| == MAX_HOT_PREFIXES
  {}

  lemma SetEntry(byNode: map<Node, Entry>, node: Node, e: Entry)
    ensures Members(byNode[node := e]) == Set(Members(byNode), node, e.hashes)
    ensures Verifieds(byNode[node := e]) == Set(Verifieds(byNode), node, e.verified)
  {}

  lemma EmptyContribution(index: Index, sets: Sets, n: Node)
    requires n !in sets
    ensures IsIndexOf(index, sets) <==> IsIndexOf(index, Set(sets, n, {}))
  {
    assert forall m, h :: Holds(Set(sets, n, {}), m, h) <==> Holds(sets, m, h);
  }

  lemma SameIndex(sets: Sets, n: Node)
    requires n !in sets
    ensures IndexOf(Set(sets, n, {})) == IndexOf(sets)
  {
    IsIndexOfMeaning(IndexOf(sets), sets);
    IsIndexOfMeaning(IndexOf(sets), Set(sets, n, {}));
    EmptyContribution(IndexOf(sets), sets, n);
  }

  lemma TrackTiers(holders: Index, verified: Index, byNode: map<Node, Entry>, node: Node)
    requires Tiers(holders, verified, byNode) && node !in byNode
    ensures Tiers(holders, verified, byNode[node := Entry({}, {}, 0)])
  {
    SameIndex(Members(byNode), node);
    SameIndex(Verifieds(byNode), node);
    SetEntry(byNode, node, Entry({}, {}, 0));
  }

  lemma TrackCaps(holders: Index, byNode: map<Node, Entry>, node: Node, e: Entry)
    requires Caps(holders, byNode) && Admits(byNode, node) && e.verified <= e.hashes
    ensures Caps(holders, byNode[node := e])
  {
    assert byNode[node := e].Keys == byNode.Keys + {node};
    assert node in byNode ==> byNode.Keys + {node} == byNode.Keys;
  }

  /** Tracking the node first does not change what counts as a lawful replacement. */
  lemma TrackFirst(was: map<Node, Entry>, byNode: map<Node, Entry>, node: Node, next: set<Hash>, e: Entry)
    requires byNode == was || (node !in was && byNode == was[node := Entry({}, {}, 0)])
    ensures byNode[node := e] == was[node := e]
    ensures Replaces(byNode, node, next, e.hashes) ==> Replaces(was, node, next, e.hashes)
  {
    var kept := Contributed(byNode, node) * next;
    assert Contributed(was, node) * next == kept;
    assert Set(Members(byNode), node, kept) == Set(Members(was), node, kept);
  }

  /** apply_digest once the node is admitted. */
  method Replace(holders: Index, verifiedHolders: Index, byNode: map<Node, Entry>, node: Node,
                 hashes: seq<Hash>, verified: seq<Hash>, now: int)
    returns (index: Index, verifiedIndex: Index, entries: map<Node, Entry>, rejected: nat)
    requires Agree(holders, verifiedHolders, byNode) && Admits(byNode, node)
    ensures Agree(index, verifiedIndex, entries)
    ensures node in entries && entries == byNode[node := entries[node]]
    ensures Applied(byNode, node, Elements(hashes), Elements(verified), now, entries[node], index.Keys)
    ensures rejected == |Elements(hashes) - entries[node].hashes|
  {
    var tracked := byNode;
    if node !in byNode {
      TrackTiers(holders, verifiedHolders, byNode, node);
      TrackCaps(holders, byNode, node, Entry({}, {}, 0));
      tracked := byNode[node := Entry({}, {}, 0)];
    }
    var accepted;
    accepted, index := ReplaceMembership(holders, tracked, node, Elements(hashes));
    var nextVerified := Elements(verified) * accepted;
    verifiedIndex := ReplaceVerified(verifiedHolders, tracked, node, nextVerified);
    var entry := Entry(accepted, nextVerified, now);
    entries, rejected := byNode[node := entry], |Elements(hashes) - accepted|;
    AgreeAfter(holders, verifiedHolders, tracked, node, index, verifiedIndex, entry);
    TrackFirst(byNode, tracked, node, Elements(hashes), entry);
  }

  lemma AgreeAfter(holders: Index, verifiedHolders: Index, byNode: map<Node, Entry>, node: Node,
                   index: Index, verifiedIndex: Index, entry: Entry)
    requires Agree(holders, verifiedHolders, byNode) && node in byNode
    requires index == IndexOf(Set(Members(byNode), node, entry.hashes)) && |index.Keys| <= MAX_HOT_PREFIXES
    requires verifiedIndex == IndexOf(Set(Verifieds(byNode), node, entry.verified)) && entry.verified <= entry.hashes
    ensures Agree(index, verifiedIndex, byNode[node := entry])
  {
    SetEntry(byNode, node, entry);
    TrackCaps(index, byNode, node, entry);
  }

  lemma OwnHeld(sets: Sets, n: Node, own: set<Hash>)
    ensures own <= Held(Set(sets, n, own))
  {
    forall h | h in own ensures h in Held(Set(sets, n, own)) { assert n in Set(sets, n, own); }
  }

  /** The set algebra of one replacement. */
  lemma ReplaceSets(entry: set<Hash>, next: set<Hash>, held: set<Hash>, rejected: set<Hash>)
    requires entry * next <= held && rejected <= (next - entry) - held
    ensures entry * next + ((next - entry) - rejected) == next - rejected
    ensures (next - entry) - held == next - held && next - (next - rejected) == rejected
    ensures entry * next <= next - rejected
  {}

  lemma LawfulReplacement(byNode: map<Node, Entry>, node: Node, next: set<Hash>, held: set<Hash>, rejected: set<Hash>)
    requires node in byNode
    requires held == Held(Set(Members(byNode), node, byNode[node].hashes * next))
    requires byNode[node].hashes * next <= held && rejected <= (next - byNode[node].hashes) - held
    requires |rejected| == Excess(|(next - byNode[node].hashes) - held|, MAX_HOT_PREFIXES - |held|)
    ensures Replaces(byNode, node, next, next - rejected) && next - (next - rejected) == rejected
    ensures byNode[node].hashes * next + ((next - byNode[node].hashes) - rejected) == next - rejected
  {
    ReplaceSets(byNode[node].hashes, next, held, rejected);
  }

  /** The removal half: what the node no longer reports leaves the index. */
  method KeepReported(holders: Index, byNode: map<Node, Entry>, node: Node, next: set<Hash>) returns (left: Index)
    requires holders == IndexOf(Members(byNode)) && node in byNode && |holders.Keys| <= MAX_HOT_PREFIXES
    ensures IsIndexOf(left, Set(Members(byNode), node, byNode[node].hashes * next))
    ensures left.Keys == Held(Set(Members(byNode), node, byNode[node].hashes * next))
    ensures byNode[node].hashes * next <= left.Keys && |left.Keys| <= MAX_HOT_PREFIXES
  {
    hide IsIndexOf, IndexOf, Held;
    var entry := byNode[node].hashes;
    ghost var sets, kept := Members(byNode), entry * next;
    assert Set(sets, node, entry) == sets;
    IsIndexOfMeaning(holders, sets);
    left := RemoveAll(holders, node, entry - next, sets, entry);
    assert entry - (entry - next) == kept;
    KeysAreHeld(left, Set(sets, node, kept));
    OwnHeld(sets, node, kept);
    FewerKeys(holders, sets, left, Set(sets, node, kept));
  }

  method ReplaceMembership(holders: Index, byNode: map<Node, Entry>, node: Node, next: set<Hash>)
    returns (accepted: set<Hash>, index: Index)
    requires holders == IndexOf(Members(byNode)) && node in byNode && |holders.Keys| <= MAX_HOT_PREFIXES
    ensures Replaces(byNode, node, next, accepted) && (next - accepted) !! index.Keys
    ensures next != accepted ==> |index.Keys| == MAX_HOT_PREFIXES
    ensures index == IndexOf(Set(Members(byNode), node, accepted)) && |index.Keys| <= MAX_HOT_PREFIXES
  {
    hide IsIndexOf, IndexOf, Held, Replaces, Members;
    var left := KeepReported(holders, byNode, node, next);
    var entry, rejected := byNode[node].hashes, {};
    index, rejected := AddCapped(left, node, next - entry, Members(byNode), entry * next);
    LawfulReplacement(byNode, node, next, left.Keys, rejected);
    accepted := next - rejected;
    IsIndexOfMeaning(index, Set(Members(byNode), node, accepted));
  }

  lemma FewerKeys(a: Index, aSets: Sets, b: Index, bSets: Sets)
    requires IsIndexOf(a, aSets) && IsIndexOf(b, bSets)
    requires forall n, h :: Holds(bSets, n, h) ==> Holds(aSets, n, h)
    ensures |b.Keys| <= |a.Keys|
  {
    forall h | h in b ensures h in a { var n :| n in b[h]; assert Holds(bSets, n, h); }
    SubsetSize(b.Keys, a.Keys);
  }

  method ReplaceVerified(verified: Index, byNode: map<Node, Entry>, node: Node, next: set<Hash>) returns (index: Index)
    requires verified == IndexOf(Verifieds(byNode)) && node in byNode
    ensures index == IndexOf(Set(Verifieds(byNode), node, next))
  {
    var entry := byNode[node].verified;
    ghost var sets := Verifieds(byNode);
    assert Set(sets, node, entry) == sets;
    IsIndexOfMeaning(verified, sets);
    index := RemoveAll(verified, node, entry - next, sets, entry);
    assert entry - (entry - next) == entry * next;
    index := AddAll(index, node, next - entry, sets, entry * next);
    assert entry * next + (next - entry) == next;
    IsIndexOfMeaning(index, Set(sets, node, next));
  }
}
