/** Peer liveness and quorum (src/gossip_consensus.cpp). Times are milliseconds. */
module Consensus {
  import opened Common
  import opened Sums

  type Addr = nat

  const MAX_TABLE := 1000

  datatype Config = Config(
    threshold: real, checkWindow: nat, peerTimeout: nat, quorumEnabled: bool, failOpenOnLoss: bool, warnMargin: nat)
  {
    predicate Valid() { 0.0 <= threshold <= 1.0 && checkWindow >= 5 }
  }

  datatype Backend = NoBackend | Backend(id: int)
  datatype PeerState = PeerState(lastSeen: int, alive: bool, backend: Backend)
  datatype Quorum = Healthy | Degraded

  type Table = map<Addr, PeerState>

  /** floor(N * threshold) + 1 out of N nodes including this one, never more than N. */
  function QuorumOf(total: nat, threshold: real): int {
    var required := (total as real * threshold).Floor + 1;
    if required < total then required else total
  }

  function QuorumRequired(table: Table, threshold: real): int { QuorumOf(|table| + 1, threshold) }

  /** Ages are truncated to whole seconds before they are compared. */
  predicate RecentlySeen(c: Config, s: PeerState, now: int) { (now - s.lastSeen) / 1000 <= c.checkWindow }

  function Recent(c: Config, table: Table, now: int): set<Addr> {
    set p | p in table && RecentlySeen(c, table[p], now)
  }

  function Verdict(c: Config, table: Table, now: int): Quorum {
    if |Recent(c, table, now)| + 1 >= QuorumRequired(table, c.threshold) then Healthy else Degraded
  }

  function Seen(table: Table, p: Addr, now: int): Table {
    if p in table then table[p := table[p].(lastSeen := now, alive := true)] else table
  }

  predicate TimedOut(c: Config, s: PeerState, now: int) { s.alive && now - s.lastSeen > c.peerTimeout }

  function Aged(c: Config, table: Table, now: int): Table {
    map p | p in table :: if TimedOut(c, table[p], now) then table[p].(alive := false) else table[p]
  }

  function Alive(table: Table): set<Addr> { set p | p in table && table[p].alive }

  ghost predicate Alternates(s: seq<bool>) {
    && (s != [] ==> s[0])
    && forall i :: 0 < i < |s| ==> s[i] != s[i - 1]
  }

  class GossipConsensus {
    const config: Config
    var table: Table
    var quorum: Quorum
    var transitions: nat
    var peersAlive: nat
    var recentlySeen: nat
    var failOpenActive: bool
    var warning: bool
    ghost var broadcasts: seq<bool>  // fail-open postures sent to the shards
    ghost var pruned: seq<Addr>      // peers whose backend routes were pruned

    ghost predicate Valid() reads this {
      && config.Valid() && Alternates(broadcasts)
      && failOpenActive == (broadcasts != [] && broadcasts[|broadcasts| - 1])
    }

    constructor (config: Config, peers: seq<Addr>, now: int)
      requires config.Valid()
      ensures Valid() && this.config == config && broadcasts == [] && pruned == []
      ensures |table| <= 1000
      ensures exists i :: 0 <= i <= |peers| && table.Keys == Elements(peers[..i]) && (i < |peers| ==> |table| == 1000)
      ensures forall p :: p in table ==> table[p] == PeerState(now, true, NoBackend)
      ensures peersAlive == |table|
      ensures config.quorumEnabled ==>
                quorum == if peersAlive + 1 >= QuorumRequired(table, config.threshold) then Healthy else Degraded
    {
      var t: Table := map[];
      var i := 0;
      while i < |peers| && |t| < MAX_TABLE
        invariant i <= |peers| && t.Keys == Elements(peers[..i]) && |t| <= MAX_TABLE
        invariant forall p :: p in t ==> t[p] == PeerState(now, true, NoBackend)
      {
        assert peers[..i + 1] == peers[..i] + [peers[i]];
        t := t[peers[i] := PeerState(now, true, NoBackend)];
        i := i + 1;
      }
      assert i == |peers| ==> peers[..i] == peers;
      this.config, table, transitions, recentlySeen, failOpenActive, warning := config, t, 0, 0, false, false;
      peersAlive := |t|;
      quorum := if !config.quorumEnabled || |t| + 1 >= QuorumRequired(t, config.threshold) then Healthy else Degraded;
      broadcasts, pruned := [], [];
    }

    method UpdatePeerSeen(p: Addr, now: int)
      requires Valid()
      modifies this`table
      ensures Valid() && table == Seen(old(table), p, now) && table.Keys == old(table).Keys
      ensures forall q :: q in table ==>
                table[q] == if q == p then old(table)[q].(lastSeen := now, alive := true) else old(table)[q]
    {
      if p in table {
        table := table[p := table[p].(lastSeen := now)];
        if !table[p].alive { table := table[p := table[p].(alive := true)]; }
      }
    }

    method AssociateBackend(p: Addr, id: int)
      requires Valid()
      modifies this`table
      ensures Valid() && table.Keys == old(table).Keys
      ensures forall q :: q in table ==>
                table[q] == if q == p then old(table)[q].(backend := Backend(id)) else old(table)[q]
    {
      if p in table { table := table[p := table[p].(backend := Backend(id))]; }
    }

    /** Marks peers silent for longer than the timeout dead, prunes exactly the backends of those
        that just died, and rechecks the quorum. */
    method CheckLiveness(now: int)
      requires Valid()
      modifies this
      ensures Valid() && table == Aged(config, old(table), now)
      ensures peersAlive == |Alive(table)|
      ensures old(pruned) <= pruned
      ensures table.Keys == old(table).Keys && forall p :: p in table ==>
                table[p] == old(table)[p].(alive := old(table)[p].alive && now - old(table)[p].lastSeen <= config.peerTimeout)
      ensures PrunesOnce(pruned[|old(pruned)|..],
                         set p | p in old(table) && old(table)[p].alive && old(table)[p].backend.Backend?
                                 && now - old(table)[p].lastSeen > config.peerTimeout)
      ensures config.quorumEnabled ==> quorum == Verdict(config, table, now) && recentlySeen == |Recent(config, table, now)|
      ensures !config.quorumEnabled ==> quorum == old(quorum) && recentlySeen == old(recentlySeen)
    {
      var aged, aliveCount, died := AgeTable(config, table, now);
      assert PruneSet(config, table, now) ==
             set p | p in table && table[p].alive && table[p].backend.Backend? && now - table[p].lastSeen > config.peerTimeout;
      table, pruned := aged, pruned + died;
      assert pruned[|old(pruned)|..] == died;
      peersAlive := aliveCount;
      if config.quorumEnabled { CheckQuorum(now); }
    }

    /** Counts the peers heard less than the window and one second ago (ages are cut to whole
        seconds) and moves to the state that count demands; the fail-open
        posture sent last is always the current one. */
    method CheckQuorum(now: int)
      requires Valid()
      modifies this`recentlySeen, this`quorum, this`transitions, this`failOpenActive, this`broadcasts, this`warning
      ensures Valid()
      ensures quorum == Verdict(config, table, now) && recentlySeen == |Recent(config, table, now)|
      ensures recentlySeen == |set p | p in table && now - table[p].lastSeen < (config.checkWindow + 1) * 1000|
      ensures transitions == old(transitions) + (if quorum != old(quorum) then 1 else 0)
      ensures failOpenActive == (config.quorumEnabled && config.failOpenOnLoss && quorum == Degraded)
      ensures broadcasts == if failOpenActive == old(failOpenActive) then old(broadcasts)
                            else old(broadcasts) + [failOpenActive]
      ensures quorum == Healthy && config.warnMargin > 0 ==>
                (warning <==> recentlySeen + 1 - QuorumRequired(table, config.threshold) <= config.warnMargin)
      ensures quorum == Healthy && config.warnMargin == 0 ==> warning == old(warning)
      ensures quorum == Degraded ==> warning == (old(quorum) == Degraded && old(warning))
    {
      hide Alternates, QuorumRequired, Recent;
      var count := CountRecent(config, table, now);
      recentlySeen := count;
      var required := QuorumRequired(table, config.threshold);
      var next := if count + 1 >= required then Healthy else Degraded;
      if next != quorum {
        transitions := transitions + 1;
        if next == Degraded { warning := false; }
        quorum := next;
      }
      MaybeBroadcastFailOpen();
      if config.warnMargin > 0 && next == Healthy {
        warning := count + 1 - required <= config.warnMargin;
      }
    }

    method MaybeBroadcastFailOpen()
      requires Valid()
      modifies this`failOpenActive, this`broadcasts
      ensures Valid() && failOpenActive == (config.quorumEnabled && config.failOpenOnLoss && quorum == Degraded)
      ensures broadcasts == if failOpenActive == old(failOpenActive) then old(broadcasts)
                            else old(broadcasts) + [failOpenActive]
    {
      var active := config.quorumEnabled && config.failOpenOnLoss && quorum == Degraded;
      if active == failOpenActive { return; }
      failOpenActive := active;
      broadcasts := broadcasts + [active];
    }
  }

  /** The liveness loop: the aged table, how many are alive, and whose routes to prune. */
  method AgeTable(c: Config, table: Table, now: int) returns (aged: Table, aliveCount: nat, died: seq<Addr>)
    ensures aged == Aged(c, table, now) && aliveCount == |Alive(aged)|
    ensures PrunesOnce(died, PruneSet(c, table, now))
  {
    ghost var target, living, wanted := Aged(c, table, now), {}, {};
    var todo := table.Keys;
    aged, aliveCount, died := table, 0, [];
    while todo != {}
      invariant todo <= table.Keys && aged.Keys == table.Keys
      invariant forall p :: p in table ==> aged[p] == if p in todo then table[p] else target[p]
      invariant forall p :: p in living <==> p in table && p !in todo && target[p].alive
      invariant aliveCount == |living| && PrunesOnce(died, wanted)
      invariant forall p :: p in wanted <==> p in PruneSet(c, table, now) && p !in todo
      decreases todo
    {
      var p :| p in todo;
      if aged[p].alive && now - aged[p].lastSeen > c.peerTimeout {
        aged := aged[p := aged[p].(alive := false)];
        if aged[p].backend.Backend? {
          PruneOneMore(died, wanted, p);
          died, wanted := died + [p], wanted + {p};
        }
      }
      if aged[p].alive { aliveCount, living := aliveCount + 1, living + {p}; }
      todo := todo - {p};
    }
    assert aged == target;
    assert living == Alive(aged) && wanted == PruneSet(c, table, now);
  }

  lemma PruneOneMore(pruned: seq<Addr>, wanted: set<Addr>, p: Addr)
    requires PrunesOnce(pruned, wanted) && p !in wanted
    ensures PrunesOnce(pruned + [p], wanted + {p})
  {}

  lemma RecentMeaning(c: Config, table: Table, now: int)
    ensures Recent(c, table, now) == set p | p in table && now - table[p].lastSeen < (c.checkWindow + 1) * 1000
  {}

  /** So many nodes are a quorum exactly when they are more than the threshold's share of all, or all. */
  lemma QuorumMeaning(total: nat, threshold: real, k: nat)
    requires total > 0
    ensures k >= QuorumOf(total, threshold) <==> k as real > total as real * threshold || k >= total
  {
    FloorMeaning(total as real * threshold, k);
  }

  lemma FloorMeaning(y: real, k: int)
    ensures k >= y.Floor + 1 <==> k as real > y
  {}

  /** A node is healthy exactly when the peers it heard less than the window and one second ago,
      and itself, are more than the threshold's share of the cluster, or when it heard them all. */
  lemma HealthyIff(c: Config, table: Table, now: int)
    ensures var heard := set p | p in table && now - table[p].lastSeen < (c.checkWindow + 1) * 1000;
            && |heard| <= |table|
            && (Verdict(c, table, now) == Healthy <==>
                  (|heard| + 1) as real > (|table| + 1) as real * c.threshold || |heard| == |table|)
  {
    hide QuorumOf, Recent;
    RecentMeaning(c, table, now);
    var heard := Recent(c, table, now);
    SubsetSize(heard, table.Keys);
    QuorumMeaning(|table| + 1, c.threshold, |heard| + 1);
  }

  method CountRecent(c: Config, table: Table, now: int) returns (count: nat)
    ensures count == |Recent(c, table, now)|
    ensures count == |set p | p in table && now - table[p].lastSeen < (c.checkWindow + 1) * 1000|
  {
    RecentMeaning(c, table, now);
    var todo := table.Keys;
    count := 0;
    while todo != {}
      invariant todo <= table.Keys && count == |Recent(c, table, now) - todo|
      decreases todo
    {
      var p :| p in todo;
      ghost var before := Recent(c, table, now) - todo;
      todo := todo - {p};
      if (now - table[p].lastSeen) / 1000 <= c.checkWindow {
        assert Recent(c, table, now) - todo == before + {p};
        count := count + 1;
      } else {
        assert Recent(c, table, now) - todo == before;
      }
    }
    assert Recent(c, table, now) - todo == Recent(c, table, now);
  }

  function PruneSet(c: Config, table: Table, now: int): set<Addr> {
    set p | p in table && TimedOut(c, table[p], now) && table[p].backend.Backend?
  }

  ghost predicate PrunesOnce(pruned: seq<Addr>, wanted: set<Addr>) {
    Elements(pruned) == wanted && forall i, j :: 0 <= i < j < |pruned| ==> pruned[i] != pruned[j]
  }
}

/** A cluster of nodes that each run the quorum check, and a network split. */
module SplitBrain {
  import opened Common
  import opened Consensus
  import opened Sums

  /** One node: when it last heard each peer, and the outcome and time of its last check. */
  datatype Member = Member(table: Table, quorum: Quorum, checkedAt: int)

  /** `cut` is when the network split, if it has. */
  datatype Cut = Whole | SplitAt(time: int)
  datatype Cluster = Cluster(nodes: map<Addr, Member>, clock: int, cut: Cut)

  datatype Event = Hear(src: Addr, dst: Addr) | Check(node: Addr) | Tick(elapsed: nat) | Split

  /** After the split a packet only travels between nodes of the same side. */
  function Next(c: Config, side: map<Addr, int>, s: Cluster, e: Event): Cluster {
    match e
    case Hear(src, dst) =>
      if dst !in s.nodes || (s.cut.SplitAt? && !SameSide(side, src, dst)) then s
      else s.(nodes := s.nodes[dst := s.nodes[dst].(table := Seen(s.nodes[dst].table, src, s.clock))])
    case Check(i) =>
      if i !in s.nodes then s
      else s.(nodes := s.nodes[i := s.nodes[i].(quorum := Verdict(c, s.nodes[i].table, s.clock), checkedAt := s.clock)])
    case Tick(t) => s.(clock := s.clock + t)
    case Split => if s.cut.Whole? then s.(cut := SplitAt(s.clock)) else s
  }

  predicate SameSide(side: map<Addr, int>, i: Addr, j: Addr) { i in side && j in side && side[i] == side[j] }

  function Run(c: Config, side: map<Addr, int>, s: Cluster, trace: seq<Event>): Cluster {
    if trace == [] then s else Next(c, side, Run(c, side, s, trace[..|trace| - 1]), trace[|trace| - 1])
  }

  /** All nodes start with the same membership and have heard from no one in the future. */
  ghost predicate Start(members: set<Addr>, s: Cluster) {
    && s.nodes.Keys == members && s.cut.Whole?
    && forall i :: i in members ==>
         && s.nodes[i].table.Keys == members - {i} && s.nodes[i].checkedAt <= s.clock
         && forall p :: p in s.nodes[i].table ==> s.nodes[i].table[p].lastSeen <= s.clock
  }

  function OnSide(side: map<Addr, int>, members: set<Addr>, i: Addr): set<Addr> {
    set p | p in members && SameSide(side, i, p)
  }

  /** Since the split, nothing was heard from the other side; and a node whose last check came
      a full window plus one second later was healthy only with a quorum on its own side. */
  ghost predicate MemberOk(c: Config, side: map<Addr, int>, members: set<Addr>, m: Member, i: Addr, clock: int, cut: Cut) {
    && m.table.Keys == members - {i} && m.checkedAt <= clock
    && (forall p :: p in m.table ==> m.table[p].lastSeen <= clock)
    && (cut.SplitAt? ==>
          && cut.time <= clock
          && (forall p :: p in m.table && !SameSide(side, i, p) ==> m.table[p].lastSeen <= cut.time)
          && (m.quorum == Healthy && m.checkedAt - cut.time >= (c.checkWindow + 1) * 1000 ==>
                |OnSide(side, members, i)| >= QuorumOf(|members|, c.threshold)))
  }

  ghost predicate Inv(c: Config, side: map<Addr, int>, members: set<Addr>, s: Cluster) {
    && s.nodes.Keys == members
    && forall i :: i in members ==> MemberOk(c, side, members, s.nodes[i], i, s.clock, s.cut)
  }

  lemma HealthyNeedsSide(c: Config, side: map<Addr, int>, members: set<Addr>, m: Member, i: Addr, clock: int, cut: Cut)
    requires i in members && i in side && MemberOk(c, side, members, m, i, clock, cut) && cut.SplitAt?
    requires Verdict(c, m.table, clock) == Healthy
    requires clock - cut.time >= (c.checkWindow + 1) * 1000
    ensures |OnSide(side, members, i)| >= QuorumOf(|members|, c.threshold)
  {
    var heard := Recent(c, m.table, clock);
    assert |m.table.Keys| == |members| - 1;
    forall p | p in heard ensures p in OnSide(side, members, i) - {i} {
      assert clock - m.table[p].lastSeen < (c.checkWindow + 1) * 1000;
    }
    SubsetSize(heard, OnSide(side, members, i) - {i});
  }

  lemma CheckOk(c: Config, side: map<Addr, int>, members: set<Addr>, m: Member, i: Addr, clock: int, cut: Cut)
    requires i in members && i in side && MemberOk(c, side, members, m, i, clock, cut)
    ensures MemberOk(c, side, members, m.(quorum := Verdict(c, m.table, clock), checkedAt := clock), i, clock, cut)
  {
    if cut.SplitAt? && Verdict(c, m.table, clock) == Healthy && clock - cut.time >= (c.checkWindow + 1) * 1000 {
      HealthyNeedsSide(c, side, members, m, i, clock, cut);
    }
  }

  lemma HearOk(c: Config, side: map<Addr, int>, members: set<Addr>, m: Member, i: Addr, src: Addr, clock: int, cut: Cut)
    requires MemberOk(c, side, members, m, i, clock, cut) && (cut.SplitAt? ==> SameSide(side, src, i))
    ensures MemberOk(c, side, members, m.(table := Seen(m.table, src, clock)), i, clock, cut)
  {}

  lemma LaterOk(c: Config, side: map<Addr, int>, members: set<Addr>, m: Member, i: Addr, clock: int, cut: Cut, later: int)
    requires MemberOk(c, side, members, m, i, clock, cut) && clock <= later
    ensures MemberOk(c, side, members, m, i, later, cut)
    ensures cut.Whole? && c.checkWindow >= 0 ==> MemberOk(c, side, members, m, i, clock, SplitAt(clock))
  {}

  /** Replacing one member by a good one, or letting time pass, keeps the cluster good. */
  lemma ReplaceOk(c: Config, side: map<Addr, int>, members: set<Addr>, s: Cluster, i: Addr, m: Member)
    requires Inv(c, side, members, s) && i in members && MemberOk(c, side, members, m, i, s.clock, s.cut)
    ensures Inv(c, side, members, s.(nodes := s.nodes[i := m]))
  {}

  lemma TimeOk(c: Config, side: map<Addr, int>, members: set<Addr>, s: Cluster, later: int)
    requires Inv(c, side, members, s) && s.clock <= later
    ensures Inv(c, side, members, s.(clock := later))
    ensures s.cut.Whole? ==> Inv(c, side, members, s.(cut := SplitAt(s.clock)))
  {
    forall i | i in members
      ensures MemberOk(c, side, members, s.nodes[i], i, later, s.cut)
      ensures s.cut.Whole? ==> MemberOk(c, side, members, s.nodes[i], i, s.clock, SplitAt(s.clock))
    {
      LaterOk(c, side, members, s.nodes[i], i, s.clock, s.cut, later);
    }
  }

  lemma StepOk(c: Config, side: map<Addr, int>, members: set<Addr>, s: Cluster, e: Event)
    requires Inv(c, side, members, s) && members <= side.Keys
    ensures Inv(c, side, members, Next(c, side, s, e))
  {
    match e
    case Check(i) =>
      if i in members {
        var m := s.nodes[i];
        CheckOk(c, side, members, m, i, s.clock, s.cut);
        ReplaceOk(c, side, members, s, i, m.(quorum := Verdict(c, m.table, s.clock), checkedAt := s.clock));
      }
    case Hear(src, i) =>
      if i in members && !(s.cut.SplitAt? && !SameSide(side, src, i)) {
        var m := s.nodes[i];
        HearOk(c, side, members, m, i, src, s.clock, s.cut);
        ReplaceOk(c, side, members, s, i, m.(table := Seen(m.table, src, s.clock)));
      }
    case Tick(k) => TimeOk(c, side, members, s, s.clock + k);
    case Split => TimeOk(c, side, members, s, s.clock);
  }

  lemma {:induction false} RunInvariant(c: Config, side: map<Addr, int>, members: set<Addr>, s: Cluster, trace: seq<Event>)
    requires Start(members, s) && members <= side.Keys
    ensures Inv(c, side, members, Run(c, side, s, trace))
  {
    if trace != [] {
      var before, e := trace[..|trace| - 1], trace[|trace| - 1];
      RunInvariant(c, side, members, s, before);
      StepOk(c, side, members, Run(c, side, s, before), e);
    }
  }

  // ---- A node that hears enough peers is healthy ----

  /** The k-th event is p heard by i, and the network let it through. */
  ghost predicate HeardAt(c: Config, side: map<Addr, int>, s: Cluster, trace: seq<Event>, k: nat, p: Addr, i: Addr) {
    k < |trace| && trace[k] == Hear(p, i) && (Run(c, side, s, trace[..k]).cut.Whole? || SameSide(side, p, i))
  }

  ghost predicate HeardSince(c: Config, side: map<Addr, int>, s: Cluster, trace: seq<Event>, p: Addr, i: Addr, since: int) {
    exists k: nat :: HeardAt(c, side, s, trace, k, p, i) && Run(c, side, s, trace[..k]).clock > since
  }

  lemma NeverForgotten(c: Config, side: map<Addr, int>, members: set<Addr>, s: Cluster, e: Event, i: Addr, p: Addr)
    requires Inv(c, side, members, s) && i in members && p in members - {i}
    ensures i in Next(c, side, s, e).nodes && p in Next(c, side, s, e).nodes[i].table
    ensures Next(c, side, s, e).nodes[i].table[p].lastSeen >= s.nodes[i].table[p].lastSeen
  {
    hide Next, QuorumOf, Seen;
    assert MemberOk(c, side, members, s.nodes[i], i, s.clock, s.cut);
    TableAfter(c, side, s, e, i);
    if e.Hear? { SeenLater(s.nodes[i].table, e.src, s.clock); }
  }

  lemma TableAfter(c: Config, side: map<Addr, int>, s: Cluster, e: Event, i: Addr)
    requires i in s.nodes
    ensures i in Next(c, side, s, e).nodes
    ensures var table := Next(c, side, s, e).nodes[i].table;
            table == s.nodes[i].table || (e.Hear? && table == Seen(s.nodes[i].table, e.src, s.clock))
  {
    hide Verdict, Seen, SameSide;
  }

  lemma SeenLater(table: Table, src: Addr, now: int)
    ensures Seen(table, src, now).Keys == table.Keys
    ensures forall p :: p in table && table[p].lastSeen <= now ==> Seen(table, src, now)[p].lastSeen >= table[p].lastSeen
  {}

  lemma {:induction false} HeardRecorded(c: Config, side: map<Addr, int>, members: set<Addr>, s: Cluster,
                                         trace: seq<Event>, k: nat, p: Addr, i: Addr)
    requires Start(members, s) && members <= side.Keys && i in members && p in members - {i}
    requires HeardAt(c, side, s, trace, k, p, i)
    ensures var t := Run(c, side, s, trace);
            i in t.nodes && p in t.nodes[i].table && t.nodes[i].table[p].lastSeen >= Run(c, side, s, trace[..k]).clock
  {
    hide Next, Inv, Start;
    var n := |trace| - 1;
    var before := Run(c, side, s, trace[..n]);
    RunInvariant(c, side, members, s, trace[..n]);
    if k == n {
      HeardNow(c, side, members, before, p, i);
    } else {
      assert trace[..n][..k] == trace[..k] && trace[..n][k] == trace[k];
      HeardRecorded(c, side, members, s, trace[..n], k, p, i);
      NeverForgotten(c, side, members, before, trace[n], i, p);
    }
  }

  lemma HeardNow(c: Config, side: map<Addr, int>, members: set<Addr>, s: Cluster, p: Addr, i: Addr)
    requires Inv(c, side, members, s) && i in members && p in members - {i} && (s.cut.Whole? || SameSide(side, p, i))
    ensures var t := Next(c, side, s, Hear(p, i));
            i in t.nodes && p in t.nodes[i].table && t.nodes[i].table[p].lastSeen == s.clock
  {
    assert MemberOk(c, side, members, s.nodes[i], i, s.clock, s.cut);
  }

  /** On every run, a node that heard the rest of a quorum less than the window and one second
      before its check is healthy after it. */
  lemma ConnectedIsHealthy(c: Config, side: map<Addr, int>, members: set<Addr>, s: Cluster, trace: seq<Event>, i: Addr,
                           friends: set<Addr>)
    requires Start(members, s) && members <= side.Keys && i in members && friends <= members - {i}
    requires |friends| >= QuorumOf(|members|, c.threshold) - 1
    requires forall p :: p in friends ==>
               HeardSince(c, side, s, trace, p, i, Run(c, side, s, trace).clock - (c.checkWindow + 1) * 1000)
    ensures var t := Run(c, side, s, trace + [Check(i)]); i in t.nodes && t.nodes[i].quorum == Healthy
  {
    hide QuorumOf, Start, HeardSince, Verdict, MemberOk, Run;
    RunInvariant(c, side, members, s, trace);
    RunOneMore(c, side, s, trace, Check(i));
    var t := Run(c, side, s, trace);
    TableSize(c, side, members, t.nodes[i], i, t.clock, t.cut);
    forall p | p in friends
      ensures p in t.nodes[i].table && t.clock - t.nodes[i].table[p].lastSeen < (c.checkWindow + 1) * 1000
    {
      FriendHeard(c, side, members, s, trace, i, p);
    }
    EnoughHeard(c, t.nodes[i].table, t.clock, |members|, friends);
  }

  lemma RunOneMore(c: Config, side: map<Addr, int>, s: Cluster, trace: seq<Event>, e: Event)
    ensures Run(c, side, s, trace + [e]) == Next(c, side, Run(c, side, s, trace), e)
  {
    assert (trace + [e])[..|trace|] == trace;
  }

  lemma FriendHeard(c: Config, side: map<Addr, int>, members: set<Addr>, s: Cluster, trace: seq<Event>, i: Addr, p: Addr)
    requires Start(members, s) && members <= side.Keys && i in members && p in members - {i}
    requires HeardSince(c, side, s, trace, p, i, Run(c, side, s, trace).clock - (c.checkWindow + 1) * 1000)
    ensures var t := Run(c, side, s, trace);
            i in t.nodes && p in t.nodes[i].table && t.clock - t.nodes[i].table[p].lastSeen < (c.checkWindow + 1) * 1000
  {
    hide Start, Run;
    var since := Run(c, side, s, trace).clock - (c.checkWindow + 1) * 1000;
    var k: nat :| HeardAt(c, side, s, trace, k, p, i) && Run(c, side, s, trace[..k]).clock > since;
    HeardRecorded(c, side, members, s, trace, k, p, i);
  }

  lemma EnoughHeard(c: Config, table: Table, now: int, total: nat, friends: set<Addr>)
    requires |table| == total - 1 && |friends| >= QuorumOf(total, c.threshold) - 1
    requires forall p :: p in friends ==> p in table && now - table[p].lastSeen < (c.checkWindow + 1) * 1000
    ensures Verdict(c, table, now) == Healthy
  {
    hide QuorumOf, Recent;
    RecentMeaning(c, table, now);
    SubsetSize(friends, Recent(c, table, now));
  }

  lemma TableSize(c: Config, side: map<Addr, int>, members: set<Addr>, m: Member, i: Addr, clock: int, cut: Cut)
    requires i in members && MemberOk(c, side, members, m, i, clock, cut)
    ensures |m.table| == |members| - 1
  {
    assert |m.table| == |m.table.Keys|;
  }

  /** With a threshold of at least one half two quorums always share a node, cap or no cap. */
  lemma QuorumsIntersect(total: nat, threshold: real)
    requires total > 0 && threshold >= 0.5
    ensures 2 * QuorumOf(total, threshold) > total
  {
    assert total as real * threshold >= total as real * 0.5;
    assert (total as real * threshold).Floor >= (total as real * 0.5).Floor;
    assert 2 * (total as real * 0.5).Floor + 2 > total;
  }

  /** Two nodes that both checked a full window plus one second after the split, both healthy. */
  ghost predicate BothHealthy(c: Config, t: Cluster, i: Addr, j: Addr) {
    && i in t.nodes && j in t.nodes && t.cut.SplitAt?
    && t.nodes[i].checkedAt - t.cut.time >= (c.checkWindow + 1) * 1000
    && t.nodes[j].checkedAt - t.cut.time >= (c.checkWindow + 1) * 1000
    && t.nodes[i].quorum == Healthy && t.nodes[j].quorum == Healthy
  }

  /** Split-brain safety: in a cluster whose quorums intersect, on every run, once the split has
      lasted the check window plus one second, two nodes on different sides are never both healthy. */
  lemma NoSplitBrain(c: Config, side: map<Addr, int>, members: set<Addr>, s: Cluster, trace: seq<Event>, i: Addr, j: Addr)
    requires 2 * QuorumOf(|members|, c.threshold) > |members| && Start(members, s) && members <= side.Keys
    requires i in members && j in members && side[i] != side[j]
    ensures i in Run(c, side, s, trace).nodes && j in Run(c, side, s, trace).nodes
    ensures !BothHealthy(c, Run(c, side, s, trace), i, j)
  {
    RunInvariant(c, side, members, s, trace);
    var t := Run(c, side, s, trace);
    assert MemberOk(c, side, members, t.nodes[i], i, t.clock, t.cut) && MemberOk(c, side, members, t.nodes[j], j, t.clock, t.cut);
    var a, b := OnSide(side, members, i), OnSide(side, members, j);
    assert a !! b;
    SubsetSize(a + b, members);
    assert |a + b| == |a| + |b|;
  }

  /** With a threshold of at least one half every cluster is safe. */
  lemma SafeFromHalf(c: Config, side: map<Addr, int>, members: set<Addr>, s: Cluster, trace: seq<Event>, i: Addr, j: Addr)
    requires c.threshold >= 0.5 && Start(members, s) && members <= side.Keys
    requires i in members && j in members && side[i] != side[j]
    ensures !BothHealthy(c, Run(c, side, s, trace), i, j)
  {
    SubsetSize({i}, members);
    QuorumsIntersect(|members|, c.threshold);
    NoSplitBrain(c, side, members, s, trace, i, j);
  }

  /** Below one half they never do in a cluster of even size. */
  lemma QuorumsDisjoint(k: nat, threshold: real)
    requires k > 0 && 0.0 <= threshold < 0.5
    ensures 2 * QuorumOf(2 * k, threshold) <= 2 * k
  {
    var y := (2 * k) as real * threshold;
    TwiceBelow((2 * k) as real, k as real, threshold);
    FloorBelow(y, k);
    assert QuorumOf(2 * k, threshold) <= y.Floor + 1;
  }

  lemma TwiceBelow(n: real, x: real, t: real)
    requires n == x + x && x > 0.0 && t < 0.5
    ensures n * t < x
  {
    var gap := 0.5 - t;
    assert n * gap > 0.0;
    assert n * gap == n * 0.5 - n * t;
  }

  lemma FloorBelow(y: real, k: int)
    requires y < k as real
    ensures y.Floor < k
  {}

  // ---- A run of a cluster of n nodes that splits into [0, h) and [h, n) ----

  function Sides(n: nat, h: nat): map<Addr, int> { map p | p in Range(0, n) :: if p < h then 0 else 1 }

  function Others(n: nat, i: Addr): Table { map p | p in Range(0, n) - {i} :: PeerState(0, true, NoBackend) }

  function Startup(n: nat): Cluster {
    Cluster(map i | i in Range(0, n) :: Member(Others(n, i), Healthy, 0), 0, Whole)
  }

  /** dst hears the n nodes from lo on. */
  function Hears(dst: Addr, lo: nat, n: nat): seq<Event> {
    if n == 0 then [] else Hears(dst, lo, n - 1) + [Hear(lo + n - 1, dst)]
  }

  function Refreshed(table: Table, lo: nat, n: nat, now: int): Table {
    map p | p in table :: if lo <= p < lo + n then table[p].(lastSeen := now, alive := true) else table[p]
  }

  function WithTable(s: Cluster, i: Addr, table: Table): Cluster
    requires i in s.nodes
  {
    s.(nodes := s.nodes[i := s.nodes[i].(table := table)])
  }

  lemma {:induction false} RunConcat(c: Config, side: map<Addr, int>, s: Cluster, a: seq<Event>, b: seq<Event>)
    ensures Run(c, side, s, a + b) == Run(c, side, Run(c, side, s, a), b)
  {
    if b == [] {
      assert a + b == a;
    } else {
      assert (a + b)[..|a + b| - 1] == a + b[..|b| - 1];
      RunConcat(c, side, s, a, b[..|b| - 1]);
    }
  }

  lemma {:induction false} HearsRun(c: Config, side: map<Addr, int>, s: Cluster, dst: Addr, lo: nat, n: nat)
    requires dst in s.nodes && forall p: nat :: lo <= p < lo + n ==> SameSide(side, p, dst)
    ensures Run(c, side, s, Hears(dst, lo, n)) ==
            WithTable(s, dst, Refreshed(s.nodes[dst].table, lo, n, s.clock))
  {
    hide Next;
    var table := s.nodes[dst].table;
    if n == 0 {
      assert Refreshed(table, lo, 0, s.clock) == table && s.nodes[dst := s.nodes[dst]] == s.nodes;
    } else {
      var es := Hears(dst, lo, n);
      HearsRun(c, side, s, dst, lo, n - 1);
      assert es[..|es| - 1] == Hears(dst, lo, n - 1);
      HearOneMore(c, side, s, dst, table, lo, n);
    }
  }

  lemma SeenRefreshed(table: Table, lo: nat, n: nat, now: int)
    requires n > 0
    ensures Seen(Refreshed(table, lo, n - 1, now), lo + n - 1, now) == Refreshed(table, lo, n, now)
  {}

  lemma HearOneMore(c: Config, side: map<Addr, int>, s: Cluster, dst: Addr, table: Table, lo: nat, n: nat)
    requires n > 0 && dst in s.nodes && SameSide(side, lo + n - 1, dst)
    ensures Next(c, side, WithTable(s, dst, Refreshed(table, lo, n - 1, s.clock)), Hear(lo + n - 1, dst)) ==
            WithTable(s, dst, Refreshed(table, lo, n, s.clock))
  {
    hide Refreshed, Seen;
    SeenRefreshed(table, lo, n, s.clock);
  }

  lemma SideIsHealthy(c: Config, n: nat, i: Addr, lo: nat, m: nat, now: int)
    requires lo <= i < lo + m <= n && m >= QuorumOf(n, c.threshold)
    ensures Verdict(c, Refreshed(Others(n, i), lo, m, now), now) == Healthy
  {
    hide QuorumOf, Refreshed, Others, Recent, Range;
    RefreshedSize(n, i, lo, m, now);
    HeardSide(c, n, i, lo, m, now);
  }

  lemma RefreshedSize(n: nat, i: Addr, lo: nat, m: nat, now: int)
    requires i < n
    ensures |Refreshed(Others(n, i), lo, m, now)| == n - 1
  {
    assert Refreshed(Others(n, i), lo, m, now).Keys == Range(0, n) - {i};
  }

  lemma HeardSide(c: Config, n: nat, i: Addr, lo: nat, m: nat, now: int)
    requires lo <= i < lo + m <= n
    ensures |Recent(c, Refreshed(Others(n, i), lo, m, now), now)| >= m - 1
  {
    var table, mine := Refreshed(Others(n, i), lo, m, now), Range(lo, lo + m) - {i};
    forall p | p in mine ensures p in Recent(c, table, now) { assert table[p].lastSeen == now; }
    SubsetSize(mine, Recent(c, table, now));
  }

  lemma StartupStarts(n: nat, h: nat)
    ensures Start(Range(0, n), Startup(n)) && Range(0, n) <= Sides(n, h).Keys
  {
    assert Startup(n).nodes.Keys == Range(0, n);
    forall i | i in Range(0, n) ensures Others(n, i).Keys == Range(0, n) - {i} {}
  }

  /** The cut, a silence longer than the window, and each side talking to one node of its own. */
  function SplitTrace(c: Config, n: nat, h: nat): seq<Event>
    requires h <= n
  {
    [Split, Tick((c.checkWindow + 1) * 1000)] + (Hears(0, 0, h) + Hears(h, h, n - h) + [Check(0), Check(h)])
  }

  lemma ChecksRun(c: Config, side: map<Addr, int>, s: Cluster, i: Addr, j: Addr)
    requires i in s.nodes && j in s.nodes && i != j && s.cut == SplitAt(0) && s.clock >= (c.checkWindow + 1) * 1000
    requires Verdict(c, s.nodes[i].table, s.clock) == Healthy && Verdict(c, s.nodes[j].table, s.clock) == Healthy
    ensures BothHealthy(c, Run(c, side, s, [Check(i), Check(j)]), i, j)
  {
    hide Verdict;
    assert [Check(i), Check(j)][..1] == [Check(i)] && [Check(i)][..0] == [];
    assert Run(c, side, s, [Check(i)]) == Next(c, side, s, Check(i));
  }

  lemma SameSides(n: nat, h: nat)
    requires 0 < h < n
    ensures forall p: nat :: 0 <= p < 0 + h ==> SameSide(Sides(n, h), p, 0)
    ensures forall p: nat :: h <= p < h + (n - h) ==> SameSide(Sides(n, h), p, h)
  {}

  lemma StartupTables(n: nat, h: nat)
    requires 0 < h < n
    ensures 0 in Startup(n).nodes && h in Startup(n).nodes
    ensures Startup(n).nodes[0].table == Others(n, 0) && Startup(n).nodes[h].table == Others(n, h)
  {}

  lemma SidesTalk(c: Config, n: nat, h: nat, s: Cluster)
    requires 0 < h < n && s == Startup(n).(clock := (c.checkWindow + 1) * 1000, cut := SplitAt(0))
    ensures Run(c, Sides(n, h), s, Hears(0, 0, h) + Hears(h, h, n - h)) ==
            WithTable(WithTable(s, 0, Refreshed(Others(n, 0), 0, h, s.clock)), h, Refreshed(Others(n, h), h, n - h, s.clock))
  {
    hide Run, Hears, Refreshed, Others, Sides, SameSide, Startup;
    SameSides(n, h);
    StartupTables(n, h);
    var t := WithTable(s, 0, Refreshed(Others(n, 0), 0, h, s.clock));
    RunConcat(c, Sides(n, h), s, Hears(0, 0, h), Hears(h, h, n - h));
    HearsRun(c, Sides(n, h), s, 0, 0, h);
    HearsRun(c, Sides(n, h), t, h, h, n - h);
  }

  /** The cluster just before the two checks. */
  function Torn(c: Config, n: nat, h: nat): Cluster
    requires 0 < h < n
  {
    var s := Startup(n).(clock := (c.checkWindow + 1) * 1000, cut := SplitAt(0));
    WithTable(WithTable(s, 0, Refreshed(Others(n, 0), 0, h, s.clock)), h, Refreshed(Others(n, h), h, n - h, s.clock))
  }

  lemma TraceRun(c: Config, n: nat, h: nat)
    requires 0 < h < n
    ensures Run(c, Sides(n, h), Startup(n), SplitTrace(c, n, h)) == Run(c, Sides(n, h), Torn(c, n, h), [Check(0), Check(h)])
  {
    hide Run, Hears, Sides, Startup, Refreshed, Others;
    var side, t := Sides(n, h), (c.checkWindow + 1) * 1000;
    StartupWhole(n, h);
    var s1 := Startup(n).(clock := t, cut := SplitAt(0));
    SplitThenWait(c, side, Startup(n), t);
    RunConcat(c, side, Startup(n), [Split, Tick(t)], Hears(0, 0, h) + Hears(h, h, n - h) + [Check(0), Check(h)]);
    RunConcat(c, side, s1, Hears(0, 0, h) + Hears(h, h, n - h), [Check(0), Check(h)]);
    SidesTalk(c, n, h, s1);
  }

  lemma StartupWhole(n: nat, h: nat)
    ensures Startup(n).cut.Whole? && Startup(n).clock == 0
    ensures h < n ==> 0 in Startup(n).nodes && h in Startup(n).nodes
  {}

  lemma TornTables(c: Config, n: nat, h: nat)
    requires 0 < h < n
    ensures var s := Torn(c, n, h);
            && s.clock == (c.checkWindow + 1) * 1000 && s.cut == SplitAt(0) && 0 in s.nodes && h in s.nodes
            && s.nodes[0].table == Refreshed(Others(n, 0), 0, h, s.clock)
            && s.nodes[h].table == Refreshed(Others(n, h), h, n - h, s.clock)
  {
    hide Refreshed, Others;
    StartupWhole(n, h);
  }

  lemma HealthyAtEnd(c: Config, n: nat, h: nat)
    requires 0 < h < n && h >= QuorumOf(n, c.threshold) && n - h >= QuorumOf(n, c.threshold)
    ensures BothHealthy(c, Run(c, Sides(n, h), Torn(c, n, h), [Check(0), Check(h)]), 0, h)
  {
    hide Run, BothHealthy, Verdict, Refreshed, Others, QuorumOf, Sides, Torn;
    TornTables(c, n, h);
    SideIsHealthy(c, n, 0, 0, h, (c.checkWindow + 1) * 1000);
    SideIsHealthy(c, n, h, h, n - h, (c.checkWindow + 1) * 1000);
    ChecksRun(c, Sides(n, h), Torn(c, n, h), 0, h);
  }

  /** The condition is exact for every cluster size: where quorums do not intersect, some run from
      a proper start ends with a healthy node on each side of the split, long after it. */
  lemma SplitBrainHappens(c: Config, n: nat) returns (h: nat)
    requires c.Valid() && n > 0 && 2 * QuorumOf(n, c.threshold) <= n
    ensures 0 < h < n && Start(Range(0, n), Startup(n)) && Range(0, n) <= Sides(n, h).Keys
    ensures 0 in Sides(n, h) && h in Sides(n, h) && Sides(n, h)[0] != Sides(n, h)[h]
    ensures BothHealthy(c, Run(c, Sides(n, h), Startup(n), SplitTrace(c, n, h)), 0, h)
  {
    hide Start, Run, BothHealthy, Hears;
    QuorumPositive(n, c.threshold);
    h := QuorumOf(n, c.threshold);
    StartupStarts(n, h);
    TraceRun(c, n, h);
    HealthyAtEnd(c, n, h);
    assert 0 in Range(0, n) && h in Range(0, n);
  }

  lemma QuorumPositive(n: nat, threshold: real)
    requires n > 0 && threshold >= 0.0
    ensures 1 <= QuorumOf(n, threshold) <= n
  {
    assert n as real * threshold >= 0.0;
  }

  /** So one half is the exact threshold for all sizes together: at or above it every cluster is
      safe, below it every cluster of even size, two nodes included, can split its brain. */
  lemma SplitBrainBelowHalf(c: Config, k: nat) returns (h: nat)
    requires c.Valid() && c.threshold < 0.5 && k > 0
    ensures 0 < h < 2 * k
    ensures BothHealthy(c, Run(c, Sides(2 * k, h), Startup(2 * k), SplitTrace(c, 2 * k, h)), 0, h)
  {
    hide Run, BothHealthy, QuorumOf;
    QuorumsDisjoint(k, c.threshold);
    h := SplitBrainHappens(c, 2 * k);
  }

  lemma SplitThenWait(c: Config, side: map<Addr, int>, s: Cluster, t: nat)
    requires s.cut.Whole?
    ensures Run(c, side, s, [Split, Tick(t)]) == s.(clock := s.clock + t, cut := SplitAt(s.clock))
  {
    assert [Split, Tick(t)][..1] == [Split] && [Split][..0] == [];
    assert Run(c, side, s, [Split]) == Next(c, side, s, Split);
  }
}
