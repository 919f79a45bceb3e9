/**
 Disruption budgets: how many disruptions a NodePool allows, how many nodes of a snapshot already count as disrupting, and
 that marking everything one pass chose never takes a pool past what it allows.
 */
module Budgets {
  import opened Common
  import opened NodePools
  import opened MultiNode

  /* ----- what a pool allows ----- */

  const UNBOUNDED := 0x7FFF_FFFF

  datatype Amount = Count(n: int) | Percent(p: nat) | Malformed

  datatype Reason = Underutilized | Empty | Drifted | Unhealthy

  /** `active` is whether the schedule says so now, or None when the schedule cannot be parsed. */
  datatype Budget = Budget(nodes: Amount, reasons: Option<set<Reason>>, active: Option<bool>) {
    predicate Broken() {
      active.None? || (active.value && nodes.Malformed?)
    }

    /** Percentages round up. */
    function Allows(numNodes: nat): int {
      if active.None? then 0
      else if !active.value then UNBOUNDED
      else match nodes
        case Count(n) => n
        case Percent(p) => (p * numNodes + 99) / 100
        case Malformed => 0
    }

    predicate Applies(reason: Reason) {
      reasons.None? || reason in reasons.value
    }
  }

  /** MustGetAllowedDisruptions: the smallest applicable allowance, and nothing at all if any budget is broken. */
  function Allowed(budgets: seq<Budget>, numNodes: nat, reason: Reason): int {
    if exists b :: b in budgets && b.Broken() then 0 else Smallest(budgets, numNodes, reason)
  }

  function Smallest(budgets: seq<Budget>, numNodes: nat, reason: Reason): int {
    if budgets == [] then UNBOUNDED else
    var b, rest := budgets[|budgets| - 1], Smallest(budgets[..|budgets| - 1], numNodes, reason);
    if b.Applies(reason) then Min(rest, b.Allows(numNodes)) else rest
  }

  /** The allowance is below every applicable budget, and is one of them or unbounded. */
  lemma {:induction false} SmallestIsMinimum(budgets: seq<Budget>, numNodes: nat, reason: Reason)
    ensures forall b :: b in budgets && b.Applies(reason) ==> Smallest(budgets, numNodes, reason) <= b.Allows(numNodes)
    ensures Smallest(budgets, numNodes, reason) <= UNBOUNDED
    ensures Smallest(budgets, numNodes, reason) == UNBOUNDED
      || exists b :: b in budgets && b.Applies(reason) && Smallest(budgets, numNodes, reason) == b.Allows(numNodes)
  {
    if budgets != [] {
      var init, last := budgets[..|budgets| - 1], budgets[|budgets| - 1];
      SmallestIsMinimum(init, numNodes, reason);
      assert forall b :: b in budgets <==> b in init || b == last;
    }
  }

  /** The budget has no objection to k disruptions at a time, in a pool of this size; a percentage is rounded up. */
  ghost predicate Admits(b: Budget, numNodes: nat, k: int) {
    b.active == Some(true) ==>
      match b.nodes
      case Count(n) => k <= n
      case Percent(p) => 100 * (k - 1) < p * numNodes
      case Malformed => false
  }

  /** No budget is broken, and every one that applies admits k. */
  ghost predicate AllAdmit(budgets: seq<Budget>, numNodes: nat, reason: Reason, k: int) {
    && k <= UNBOUNDED
    && (forall b :: b in budgets ==> b.active.Some? && (b.active.value ==> !b.nodes.Malformed?))
    && (forall b :: b in budgets && (b.reasons.None? || reason in b.reasons.value) ==> Admits(b, numNodes, k))
  }

  /** What one budget allows: its count, or its share of the pool rounded up, while it is active; without bound while it is not. */
  lemma AllowsMeaning(b: Budget, numNodes: nat, k: int)
    requires !b.Broken() && k <= UNBOUNDED
    ensures k <= b.Allows(numNodes) <==> Admits(b, numNodes, k)
  {
  }

  /** A share of at most 100% of a pool is at most the pool, and a positive share of a pool with nodes is at least one node. */
  lemma ShareIsProper(b: Budget, numNodes: nat)
    requires b.active == Some(true) && b.nodes.Percent?
    ensures b.nodes.p <= 100 ==> 0 <= b.Allows(numNodes) <= numNodes
    ensures b.nodes.p > 0 && numNodes > 0 ==> b.Allows(numNodes) >= 1
  {
    var p := b.nodes.p;
    if p <= 100 {
      assert p * numNodes <= 100 * numNodes;
    }
    if p > 0 && numNodes > 0 {
      assert p * numNodes >= 1;
    }
  }

  /** So many disruptions are allowed if and only if no budget is broken and every one that applies admits them. */
  lemma AllowedIff(budgets: seq<Budget>, numNodes: nat, reason: Reason, k: int)
    requires k >= 1
    ensures k <= Allowed(budgets, numNodes, reason) <==> AllAdmit(budgets, numNodes, reason, k)
  {
    SmallestIsMinimum(budgets, numNodes, reason);
    if !(exists b :: b in budgets && b.Broken()) && k <= UNBOUNDED {
      forall b | b in budgets
        ensures k <= b.Allows(numNodes) <==> Admits(b, numNodes, k)
      {
        AllowsMeaning(b, numNodes, k);
      }
    }
  }

  method GetAllowedDisruptions(budgets: seq<Budget>, numNodes: nat, reason: Reason) returns (allowed: int)
    ensures allowed == Allowed(budgets, numNodes, reason)
    ensures forall k :: k >= 1 ==> (k <= allowed <==> AllAdmit(budgets, numNodes, reason, k))
  {
    forall k | k >= 1
      ensures k <= Allowed(budgets, numNodes, reason) <==> AllAdmit(budgets, numNodes, reason, k)
    {
      AllowedIff(budgets, numNodes, reason, k);
    }
    allowed := UNBOUNDED;
    var broken := false;
    var i := 0;
    while i < |budgets|
      invariant 0 <= i <= |budgets|
      invariant allowed == Smallest(budgets[..i], numNodes, reason)
      invariant broken <==> exists j :: 0 <= j < i && budgets[j].Broken()
    {
      assert budgets[..i + 1][..i] == budgets[..i];
      var b := budgets[i];
      broken := broken || b.Broken();
      if b.Applies(reason) {
        allowed := Min(allowed, b.Allows(numNodes));
      }
      i := i + 1;
    }
    assert budgets[..|budgets|] == budgets;
    if broken {
      allowed := 0;
    }
  }

  /* ----- what a snapshot shows ----- */

  datatype NodeView = NodeView(id: string, pool: string, managed: bool, initialized: bool, rebooting: bool,
                               terminating: bool, notReady: bool, marked: bool)
  {
    /** Counts towards the pool's size. */
    predicate Counts() {
      managed && (initialized || rebooting) && !terminating
    }

    /** Uses up budget; repair does not count nodes that are merely not ready. */
    predicate Disrupting(reason: Reason) {
      Counts() && (marked || rebooting || (notReady && reason != Unhealthy))
    }
  }

  function Size(nodes: seq<NodeView>, pool: string): nat {
    if nodes == [] then 0 else
    Size(nodes[..|nodes| - 1], pool) + (var n := nodes[|nodes| - 1]; if n.Counts() && n.pool == pool then 1 else 0)
  }

  function Disrupting(nodes: seq<NodeView>, pool: string, reason: Reason): nat {
    if nodes == [] then 0 else
    Disrupting(nodes[..|nodes| - 1], pool, reason)
      + (var n := nodes[|nodes| - 1]; if n.Disrupting(reason) && n.pool == pool then 1 else 0)
  }

  ghost predicate Sized(sizes: map<string, int>, nodes: seq<NodeView>) {
    forall p :: Lookup(sizes, p, 0) == Size(nodes, p)
  }

  ghost predicate Counted(disrupting: map<string, int>, nodes: seq<NodeView>, reason: Reason) {
    forall p :: Lookup(disrupting, p, 0) == Disrupting(nodes, p, reason)
  }

  lemma SizedNext(sizes: map<string, int>, nodes: seq<NodeView>, n: NodeView)
    requires Sized(sizes, nodes)
    ensures Sized(if n.Counts() then sizes[n.pool := Lookup(sizes, n.pool, 0) + 1] else sizes, nodes + [n])
  {
    var after := if n.Counts() then sizes[n.pool := Lookup(sizes, n.pool, 0) + 1] else sizes;
    assert (nodes + [n])[..|nodes|] == nodes;
    forall p
      ensures Lookup(after, p, 0) == Size(nodes + [n], p)
    {
      assert Lookup(sizes, p, 0) == Size(nodes, p);
    }
  }

  lemma CountedNext(disrupting: map<string, int>, nodes: seq<NodeView>, n: NodeView, reason: Reason)
    requires Counted(disrupting, nodes, reason)
    ensures
      var more := disrupting[n.pool := Lookup(disrupting, n.pool, 0) + 1];
      Counted(if n.Disrupting(reason) then more else disrupting, nodes + [n], reason)
  {
    var more := disrupting[n.pool := Lookup(disrupting, n.pool, 0) + 1];
    var after := if n.Disrupting(reason) then more else disrupting;
    assert (nodes + [n])[..|nodes|] == nodes;
    forall p
      ensures Lookup(after, p, 0) == Disrupting(nodes + [n], p, reason)
    {
      assert Lookup(disrupting, p, 0) == Disrupting(nodes, p, reason);
    }
  }

  /** One of the pool's own nodes, initialized or rebooting, whose instance is not going away. */
  predicate IsMember(n: NodeView, pool: string) {
    n.pool == pool && n.managed && !n.terminating && (n.initialized || n.rebooting)
  }

  /** It is moreover marked, rebooting, or not ready while something other than repair asks. */
  predicate IsBusy(n: NodeView, pool: string, reason: Reason) {
    IsMember(n, pool) && (n.marked || n.rebooting || (n.notReady && reason != Unhealthy))
  }

  function Members(nodes: seq<NodeView>, pool: string): set<int> {
    set i | 0 <= i < |nodes| && IsMember(nodes[i], pool)
  }

  function Busy(nodes: seq<NodeView>, pool: string, reason: Reason): set<int> {
    set i | 0 <= i < |nodes| && IsBusy(nodes[i], pool, reason)
  }

  lemma {:induction false} SizeIsMembers(nodes: seq<NodeView>, pool: string)
    ensures Size(nodes, pool) == |Members(nodes, pool)|
  {
    if nodes == [] {
      assert Members(nodes, pool) == {};
    } else {
      var last := |nodes| - 1;
      SizeIsMembers(nodes[..last], pool);
      assert Members(nodes, pool) == Members(nodes[..last], pool) + if IsMember(nodes[last], pool) then {last} else {};
    }
  }

  lemma BusyLast(nodes: seq<NodeView>, pool: string, reason: Reason)
    requires nodes != []
    ensures
      var last := |nodes| - 1;
      |Busy(nodes, pool, reason)| == |Busy(nodes[..last], pool, reason)| + if IsBusy(nodes[last], pool, reason) then 1 else 0
  {
    var last := |nodes| - 1;
    var all, init, more := Busy(nodes, pool, reason), Busy(nodes[..last], pool, reason), if IsBusy(nodes[last], pool, reason) then {last} else {};
    forall i
      ensures i in all <==> i in init || i in more
    {
      if 0 <= i < last {
        assert nodes[..last][i] == nodes[i];
      }
    }
    assert all == init + more;
  }

  lemma BusyIsDisrupting(n: NodeView, pool: string, reason: Reason)
    ensures IsBusy(n, pool, reason) <==> n.Disrupting(reason) && n.pool == pool
  {
  }

  lemma {:induction false} DisruptingIsBusy(nodes: seq<NodeView>, pool: string, reason: Reason)
    ensures Disrupting(nodes, pool, reason) == |Busy(nodes, pool, reason)|
  {
    if nodes == [] {
      assert Busy(nodes, pool, reason) == {};
    } else {
      var last := |nodes| - 1;
      DisruptingIsBusy(nodes[..last], pool, reason);
      BusyLast(nodes, pool, reason);
      BusyIsDisrupting(nodes[last], pool, reason);
    }
  }

  method NodePoolStats(nodes: seq<NodeView>, reason: Reason) returns (sizes: map<string, int>, disrupting: map<string, int>)
    ensures forall p :: Lookup(sizes, p, 0) == Size(nodes, p) == |Members(nodes, p)|
    ensures forall p :: Lookup(disrupting, p, 0) == Disrupting(nodes, p, reason) == |Busy(nodes, p, reason)|
  {
    sizes, disrupting := map[], map[];
    var i := 0;
    while i < |nodes|
      invariant 0 <= i <= |nodes|
      invariant Sized(sizes, nodes[..i]) && Counted(disrupting, nodes[..i], reason)
    {
      var n := nodes[i];
      assert nodes[..i + 1] == nodes[..i] + [n];
      SizedNext(sizes, nodes[..i], n);
      CountedNext(disrupting, nodes[..i], n, reason);
      if n.Counts() {
        sizes := sizes[n.pool := Lookup(sizes, n.pool, 0) + 1];
        if n.marked || n.rebooting || (n.notReady && reason != Unhealthy) {
          disrupting := disrupting[n.pool := Lookup(disrupting, n.pool, 0) + 1];
        }
      }
      i := i + 1;
    }
    assert nodes[..|nodes|] == nodes;
    forall p
      ensures Size(nodes, p) == |Members(nodes, p)| && Disrupting(nodes, p, reason) == |Busy(nodes, p, reason)|
    {
      SizeIsMembers(nodes, p);
      DisruptingIsBusy(nodes, p, reason);
    }
  }

  /** BuildDisruptionBudgetMapping, for one pool. */
  function Remaining(nodes: seq<NodeView>, budgets: seq<Budget>, pool: string, reason: Reason): nat {
    Max(Allowed(budgets, Size(nodes, pool), reason) - Disrupting(nodes, pool, reason), 0)
  }

  /** So many more may be disrupted if and only if the budgets admit them on top of those that are disrupting. */
  lemma RemainingIff(nodes: seq<NodeView>, budgets: seq<Budget>, pool: string, reason: Reason, k: int)
    requires k >= 1
    ensures k <= Remaining(nodes, budgets, pool, reason) <==>
      AllAdmit(budgets, |Members(nodes, pool)|, reason, |Busy(nodes, pool, reason)| + k)
  {
    SizeIsMembers(nodes, pool);
    DisruptingIsBusy(nodes, pool, reason);
    AllowedIff(budgets, Size(nodes, pool), reason, Disrupting(nodes, pool, reason) + k);
  }

  /* ----- marking what a pass chose ----- */

  datatype Chosen = Chosen(id: string, pool: string)

  function MarkOne(nodes: seq<NodeView>, id: string): (marked: seq<NodeView>)
    ensures |marked| == |nodes|
  {
    seq(|nodes|, i requires 0 <= i < |nodes| => if nodes[i].id == id then nodes[i].(marked := true) else nodes[i])
  }

  function MarkAll(nodes: seq<NodeView>, chosen: seq<Chosen>): seq<NodeView> {
    if chosen == [] then nodes else MarkOne(MarkAll(nodes, chosen[..|chosen| - 1]), chosen[|chosen| - 1].id)
  }

  function PoolsOf(chosen: seq<Chosen>): seq<string> {
    seq(|chosen|, i requires 0 <= i < |chosen| => chosen[i].pool)
  }

  ghost predicate UniqueIds(nodes: seq<NodeView>) {
    forall i, j :: 0 <= i < j < |nodes| ==> nodes[i].id != nodes[j].id
  }

  /** Ids are unique in the snapshot, and a chosen candidate names its node's pool. */
  ghost predicate Matching(nodes: seq<NodeView>, chosen: seq<Chosen>) {
    && UniqueIds(nodes)
    && (forall c, n :: c in chosen && n in nodes && n.id == c.id ==> n.pool == c.pool)
  }

  lemma {:induction false} MarkOneKeepsSize(nodes: seq<NodeView>, id: string, pool: string)
    ensures Size(MarkOne(nodes, id), pool) == Size(nodes, pool)
  {
    if nodes != [] {
      var init := nodes[..|nodes| - 1];
      assert MarkOne(nodes, id)[..|nodes| - 1] == MarkOne(init, id);
      MarkOneKeepsSize(init, id, pool);
    }
  }

  lemma {:induction false} MarkOneElsewhere(nodes: seq<NodeView>, id: string, pool: string, reason: Reason)
    requires forall i :: 0 <= i < |nodes| ==> nodes[i].id != id || nodes[i].pool != pool
    ensures Disrupting(MarkOne(nodes, id), pool, reason) == Disrupting(nodes, pool, reason)
  {
    if nodes != [] {
      var init := nodes[..|nodes| - 1];
      assert MarkOne(nodes, id)[..|nodes| - 1] == MarkOne(init, id);
      MarkOneElsewhere(init, id, pool, reason);
    }
  }

  lemma {:induction false} MarkOneAddsOne(nodes: seq<NodeView>, c: Chosen, pool: string, reason: Reason)
    requires Matching(nodes, [c])
    ensures Disrupting(nodes, pool, reason) <= Disrupting(MarkOne(nodes, c.id), pool, reason)
         <= Disrupting(nodes, pool, reason) + if c.pool == pool then 1 else 0
  {
    if nodes != [] {
      var init, last := nodes[..|nodes| - 1], nodes[|nodes| - 1];
      assert MarkOne(nodes, c.id)[..|nodes| - 1] == MarkOne(init, c.id);
      assert Matching(init, [c]) by {
        assert forall n :: n in init ==> n in nodes;
      }
      MarkOneAddsOne(init, c, pool, reason);
      if last.id == c.id {
        assert last in nodes && c in [c];
        MarkOneElsewhere(init, c.id, pool, reason);
      }
    }
  }

  lemma MarkOneKeepsMatching(nodes: seq<NodeView>, id: string, chosen: seq<Chosen>)
    requires Matching(nodes, chosen)
    ensures Matching(MarkOne(nodes, id), chosen)
  {
    var marked := MarkOne(nodes, id);
    forall c, n | c in chosen && n in marked && n.id == c.id
      ensures n.pool == c.pool
    {
      var i :| 0 <= i < |marked| && marked[i] == n;
      assert nodes[i] in nodes;
    }
  }

  lemma MatchingParts(nodes: seq<NodeView>, chosen: seq<Chosen>)
    requires Matching(nodes, chosen) && chosen != []
    ensures Matching(nodes, chosen[..|chosen| - 1]) && Matching(nodes, [chosen[|chosen| - 1]])
  {
    var init, c := chosen[..|chosen| - 1], chosen[|chosen| - 1];
    assert forall x :: x in init ==> x in chosen;
    assert c in chosen;
  }

  lemma {:induction false} MarkAllKeepsMatching(nodes: seq<NodeView>, chosen: seq<Chosen>, more: seq<Chosen>)
    requires Matching(nodes, more)
    ensures Matching(MarkAll(nodes, chosen), more)
    decreases |chosen|
  {
    if chosen != [] {
      var init := chosen[..|chosen| - 1];
      MarkAllKeepsMatching(nodes, init, more);
      MarkOneKeepsMatching(MarkAll(nodes, init), chosen[|chosen| - 1].id, more);
    }
  }

  /** Marking leaves every pool's size alone and adds at most one disrupting node per chosen candidate of the pool. */
  lemma {:induction false} MarkAllAdds(nodes: seq<NodeView>, chosen: seq<Chosen>, pool: string, reason: Reason)
    requires Matching(nodes, chosen)
    ensures Size(MarkAll(nodes, chosen), pool) == Size(nodes, pool)
    ensures Disrupting(MarkAll(nodes, chosen), pool, reason) <= Disrupting(nodes, pool, reason) + CountPool(PoolsOf(chosen), pool)
    decreases |chosen|
  {
    if chosen != [] {
      var init, c := chosen[..|chosen| - 1], chosen[|chosen| - 1];
      MatchingParts(nodes, chosen);
      MarkAllAdds(nodes, init, pool, reason);
      var before := MarkAll(nodes, init);
      MarkAllKeepsMatching(nodes, init, [c]);
      MarkOneKeepsSize(before, c.id, pool);
      MarkOneAddsOne(before, c, pool, reason);
      assert PoolsOf(chosen)[..|chosen| - 1] == PoolsOf(init);
    }
  }

  /** The candidates a pass chose respect what remains of every pool's budget. */
  ghost predicate InBudget(nodes: seq<NodeView>, chosen: seq<Chosen>, budgets: map<string, seq<Budget>>, reason: Reason) {
    forall pool :: CountPool(PoolsOf(chosen), pool) <= if pool in budgets then Remaining(nodes, budgets[pool], pool, reason) else 0
  }

  /** What a pool allows at a size; a pool without budgets in the map allows nothing. */
  function AllowedAt(budgets: map<string, seq<Budget>>, pool: string, size: nat, reason: Reason): int {
    if pool in budgets then Allowed(budgets[pool], size, reason) else 0
  }

  /**
   Marking everything that was chosen leaves each pool's recomputed disrupting count at most the larger of what it allows
   and what it already was, with its size and so its allowance unchanged.
   */
  ghost predicate StaysAllowed(nodes: seq<NodeView>, chosen: seq<Chosen>, budgets: map<string, seq<Budget>>, reason: Reason) {
    forall pool ::
      && Size(MarkAll(nodes, chosen), pool) == Size(nodes, pool)
      && AllowedAt(budgets, pool, Size(MarkAll(nodes, chosen), pool), reason) == AllowedAt(budgets, pool, Size(nodes, pool), reason)
      && Disrupting(MarkAll(nodes, chosen), pool, reason)
           <= Max(AllowedAt(budgets, pool, Size(nodes, pool), reason), Disrupting(nodes, pool, reason))
  }

  /** A choice within what remains of every budget stays allowed. */
  lemma PassRespectsBudgets(nodes: seq<NodeView>, chosen: seq<Chosen>, budgets: map<string, seq<Budget>>, reason: Reason)
    requires Matching(nodes, chosen) && InBudget(nodes, chosen, budgets, reason)
    ensures StaysAllowed(nodes, chosen, budgets, reason)
  {
    forall pool
      ensures Size(MarkAll(nodes, chosen), pool) == Size(nodes, pool)
      ensures Disrupting(MarkAll(nodes, chosen), pool, reason)
           <= Max(AllowedAt(budgets, pool, Size(nodes, pool), reason), Disrupting(nodes, pool, reason))
    {
      MarkAllAdds(nodes, chosen, pool, reason);
      assert CountPool(PoolsOf(chosen), pool) <= if pool in budgets then Remaining(nodes, budgets[pool], pool, reason) else 0;
    }
  }

  /**
   With one active percentage budget, a pool not over it beforehand has at most the rounded-up share of its nodes
   disrupting after everything that was chosen is marked.
   */
  lemma PassKeepsShare(nodes: seq<NodeView>, chosen: seq<Chosen>, budgets: map<string, seq<Budget>>, reason: Reason, pool: string, p: nat)
    requires Matching(nodes, chosen) && InBudget(nodes, chosen, budgets, reason)
    requires pool in budgets && budgets[pool] == [Budget(Percent(p), None, Some(true))]
    requires 100 * (|Busy(nodes, pool, reason)| - 1) < p * |Members(nodes, pool)|
    ensures
      var marked := MarkAll(nodes, chosen);
      |Members(marked, pool)| == |Members(nodes, pool)| && 100 * (|Busy(marked, pool, reason)| - 1) < p * |Members(nodes, pool)|
  {
    var marked := MarkAll(nodes, chosen);
    PassRespectsBudgets(nodes, chosen, budgets, reason);
    SizeIsMembers(nodes, pool);
    SizeIsMembers(marked, pool);
    DisruptingIsBusy(nodes, pool, reason);
    DisruptingIsBusy(marked, pool, reason);
    var size, busy := Size(nodes, pool), Disrupting(marked, pool, reason);
    if busy > Disrupting(nodes, pool, reason) {
      AllowedIff(budgets[pool], size, reason, busy);
      assert Admits(budgets[pool][0], size, busy);
    }
  }

  lemma MatchingSubset(nodes: seq<NodeView>, all: seq<Chosen>, some: seq<Chosen>)
    requires Matching(nodes, all) && forall c :: c in some ==> c in all
    ensures Matching(nodes, some)
  {
  }

  lemma MatchingAppend(nodes: seq<NodeView>, a: seq<Chosen>, b: seq<Chosen>)
    requires Matching(nodes, a) && Matching(nodes, b)
    ensures Matching(nodes, a + b)
  {
    assert forall c :: c in a + b ==> c in a || c in b;
  }

  /* ----- the passes ----- */

  function RemainingMap(nodes: seq<NodeView>, budgets: map<string, seq<Budget>>, reason: Reason): map<string, int> {
    map pool | pool in budgets :: Remaining(nodes, budgets[pool], pool, reason)
  }

  /** The candidates at the given positions. */
  function At(candidates: seq<Chosen>, indices: seq<nat>): (picked: seq<Chosen>)
    requires forall i :: 0 <= i < |indices| ==> indices[i] < |candidates|
  {
    seq(|indices|, i requires 0 <= i < |indices| => candidates[indices[i]])
  }

  /** Of every pool, exactly its first eligible candidates are taken, as many as remain of its budget. */
  ghost predicate Fills(nodes: seq<NodeView>, candidates: seq<Chosen>, eligible: seq<bool>, budgets: map<string, seq<Budget>>, reason: Reason, indices: seq<nat>)
    requires |eligible| == |candidates|
  {
    TakesFirst(PoolsOf(candidates), eligible, RemainingMap(nodes, budgets, reason), indices, |candidates|)
  }

  /** Any prefix of the candidates that the budget filter let through respects the budgets. */
  lemma PrefixInBudget(nodes: seq<NodeView>, candidates: seq<Chosen>, eligible: seq<bool>, indices: seq<nat>, k: nat,
                       budgets: map<string, seq<Budget>>, reason: Reason)
    requires Matching(nodes, candidates) && |eligible| == |candidates| && k <= |indices|
    requires Fills(nodes, candidates, eligible, budgets, reason, indices)
    ensures
      var chosen := At(candidates, indices)[..k];
      Matching(nodes, chosen) && InBudget(nodes, chosen, budgets, reason)
  {
    var chosen := At(candidates, indices)[..k];
    var pools := PoolsAt(PoolsOf(candidates), indices);
    assert PoolsOf(chosen) == pools[..k];
    forall p
      ensures CountPool(PoolsOf(chosen), p) <= if p in budgets then Remaining(nodes, budgets[p], p, reason) else 0
    {
      TakesCount(PoolsOf(candidates), eligible, RemainingMap(nodes, budgets, reason), indices, |candidates|, p);
      CountPrefix(pools, k, p);
    }
    forall c | c in chosen
      ensures c in candidates
    {
      var i :| 0 <= i < |chosen| && chosen[i] == c;
      assert candidates[indices[i]] == c;
    }
  }

  /** Emptiness: takes empty candidates, in order, while budgets last. */
  method EmptinessPass(nodes: seq<NodeView>, candidates: seq<Chosen>, empty: seq<bool>, budgets: map<string, seq<Budget>>, reason: Reason)
    returns (chosen: seq<Chosen>)
    requires Matching(nodes, candidates) && |empty| == |candidates|
    ensures Matching(nodes, chosen) && InBudget(nodes, chosen, budgets, reason)
    ensures StaysAllowed(nodes, chosen, budgets, reason)
    ensures exists indices :: Fills(nodes, candidates, empty, budgets, reason, indices) && chosen == At(candidates, indices)
  {
    var indices := WithinBudget(PoolsOf(candidates), empty, RemainingMap(nodes, budgets, reason));
    chosen := At(candidates, indices);
    assert Fills(nodes, candidates, empty, budgets, reason, indices);
    PrefixInBudget(nodes, candidates, empty, indices, |indices|, budgets, reason);
    assert chosen[..|indices|] == chosen;
    PassRespectsBudgets(nodes, chosen, budgets, reason);
  }

  function Everyone(n: nat): seq<bool> {
    seq(n, _ => true)
  }

  /** The batch that the search finds among the candidates at the given positions, or nothing. */
  function BatchAt(candidates: seq<Chosen>, indices: seq<nat>, sim: Simulator): seq<Chosen>
    requires Ascending(indices, |candidates|)
  {
    var batch := Batch(|indices|, sim);
    if batch.Some? && batch.value <= |indices| then At(candidates, indices)[..batch.value] else []
  }

  lemma BatchInBudget(nodes: seq<NodeView>, candidates: seq<Chosen>, budgets: map<string, seq<Budget>>, reason: Reason, sim: Simulator, indices: seq<nat>)
    requires Matching(nodes, candidates) && Fills(nodes, candidates, Everyone(|candidates|), budgets, reason, indices)
    ensures
      var chosen := BatchAt(candidates, indices, sim);
      && Matching(nodes, chosen) && InBudget(nodes, chosen, budgets, reason) && StaysAllowed(nodes, chosen, budgets, reason)
      && (chosen == [] || 2 <= |chosen| <= MAX_PARALLEL + 1)
  {
    var chosen := BatchAt(candidates, indices, sim);
    var k := |chosen|;
    assert chosen == At(candidates, indices)[..k];
    PrefixInBudget(nodes, candidates, Everyone(|candidates|), indices, k, budgets, reason);
    PassRespectsBudgets(nodes, chosen, budgets, reason);
    LargestBatch(|indices|, sim);
    if |indices| >= 2 {
      SearchAnswers(|indices|, Min(|indices|, MAX_PARALLEL), sim);
    }
  }

  /** Multi-node consolidation: the batch that the search finds among what budgets admit. */
  method MultiNodePass(nodes: seq<NodeView>, candidates: seq<Chosen>, budgets: map<string, seq<Budget>>, reason: Reason, sim: Simulator)
    returns (chosen: seq<Chosen>)
    requires Matching(nodes, candidates)
    ensures Matching(nodes, chosen) && InBudget(nodes, chosen, budgets, reason)
    ensures StaysAllowed(nodes, chosen, budgets, reason)
    ensures chosen == [] || 2 <= |chosen| <= MAX_PARALLEL + 1
    ensures exists indices :: Fills(nodes, candidates, Everyone(|candidates|), budgets, reason, indices) && chosen == BatchAt(candidates, indices, sim)
  {
    var indices := WithinBudget(PoolsOf(candidates), Everyone(|candidates|), RemainingMap(nodes, budgets, reason));
    BatchInBudget(nodes, candidates, budgets, reason, sim, indices);
    chosen := FirstBatch(candidates, indices, sim);
  }

  lemma AnswerIsBatch(n: nat, sim: Simulator, r: Outcome)
    requires n >= 2 ==> r == Search(sim, 1, Ceiling(n, Min(n, MAX_PARALLEL)), 0, None)
    requires IsAnswer(n, Min(n, MAX_PARALLEL), sim, r)
    ensures Batch(n, sim) == (if r.failed then None else r.found) && (r.found.Some? ==> r.found.value <= n)
  {
    if r.failed {
      FailureFindsNothing(sim, 1, Ceiling(n, Min(n, MAX_PARALLEL)), 0, None, r);
    }
  }

  /** The prefix of those candidates that firstNConsolidationOption answers. */
  method FirstBatch(candidates: seq<Chosen>, indices: seq<nat>, sim: Simulator) returns (chosen: seq<Chosen>)
    requires Ascending(indices, |candidates|)
    ensures chosen == BatchAt(candidates, indices, sim)
  {
    var found, failed, simulations := FirstN(|indices|, Min(|indices|, MAX_PARALLEL), sim);
    var batch := if failed then None else found;
    AnswerIsBatch(|indices|, sim, Outcome(found, failed, simulations));
    chosen := if batch.None? then [] else At(candidates, indices)[..batch.value];
  }

  /* ----- static drift ----- */

  /** A drifted candidate whose replacement is staged first, or one that is terminated before that is possible. */
  datatype DriftCommand = DriftCommand(candidate: Chosen, staged: bool)

  /** What the pass knows about one static pool. */
  datatype StaticPool = StaticPool(name: string, limit: int, replicas: int, candidates: seq<Chosen>,
                                   reservationsFull: bool, holdsSlot: seq<bool>, terminateFirst: bool)

  function CandidatesOf(cmds: seq<DriftCommand>): seq<Chosen> {
    seq(|cmds|, i requires 0 <= i < |cmds| => cmds[i].candidate)
  }

  function Replacing(cmds: seq<DriftCommand>, pool: string): nat {
    if cmds == [] then 0 else
    Replacing(cmds[..|cmds| - 1], pool) + (var c := cmds[|cmds| - 1]; if c.staged && c.candidate.pool == pool then 1 else 0)
  }

  lemma {:induction false} CountAll(pools: seq<string>, pool: string)
    requires forall i :: 0 <= i < |pools| ==> pools[i] == pool
    ensures CountPool(pools, pool) == |pools|
    ensures forall q :: q != pool ==> CountPool(pools, q) == 0
  {
    if pools != [] {
      CountAll(pools[..|pools| - 1], pool);
    }
  }

  lemma {:induction false} ReplacingAll(cmds: seq<DriftCommand>, pool: string, staged: bool)
    requires forall i :: 0 <= i < |cmds| ==> cmds[i].candidate.pool == pool && cmds[i].staged == staged
    ensures Replacing(cmds, pool) == if staged then |cmds| else 0
    ensures forall q :: q != pool ==> Replacing(cmds, q) == 0
  {
    if cmds != [] {
      ReplacingAll(cmds[..|cmds| - 1], pool, staged);
    }
  }

  function Unstaged(np: StaticPool, indices: seq<nat>): seq<DriftCommand>
    requires forall k :: 0 <= k < |indices| ==> indices[k] < |np.candidates|
  {
    seq(|indices|, k requires 0 <= k < |indices| => DriftCommand(np.candidates[indices[k]], false))
  }

  ghost predicate FirstEligible(np: StaticPool, most: nat, eligible: seq<bool>, indices: seq<nat>)
    requires |eligible| == |np.candidates|
  {
    TakesFirst(PoolsOf(np.candidates), eligible, map[np.name := most], indices, |np.candidates|)
  }

  /** Where terminating first is on, exactly the first `most` eligible candidates go, without a replacement; else none do. */
  ghost predicate TerminatesFirst(np: StaticPool, most: nat, eligible: seq<bool>, cmds: seq<DriftCommand>)
    requires |eligible| == |np.candidates|
  {
    if np.terminateFirst then exists indices :: FirstEligible(np, most, eligible, indices) && cmds == Unstaged(np, indices) else cmds == []
  }

  /**
   What the pass makes of one pool: nothing without a budget or while the pool scales down; only holders of reserved
   capacity while reservations are full; the first candidates with a replacement each, as many as slots are granted; and when none is granted,
   candidates terminated first.
   */
  ghost predicate DriftChoice(np: StaticPool, p: Pools, budget: nat, cmds: seq<DriftCommand>)
    requires |np.holdsSlot| == |np.candidates|
  {
    var sets, most := p.Sets(np.name), Min(budget, |np.candidates|);
    if most == 0 || |sets.active| + |sets.pending| > np.replicas then cmds == []
    else if np.reservationsFull then TerminatesFirst(np, most, np.holdsSlot, cmds)
    else StagedChoice(np, p.Grant(np.name, np.limit, most), most, cmds)
  }

  /** With slots granted, that many of the first candidates get a replacement each; with none, candidates are terminated first. */
  ghost predicate StagedChoice(np: StaticPool, granted: int, most: nat, cmds: seq<DriftCommand>) {
    if granted == 0 then TerminatesFirst(np, most, Everyone(|np.candidates|), cmds)
    else |cmds| == granted && forall i :: 0 <= i < |cmds| && i < |np.candidates| ==> cmds[i] == DriftCommand(np.candidates[i], true)
  }

  /**
   One pool of StaticDrift.ComputeCommands: the commands stay within the pool's budget, and every slot that was granted
   backs exactly one command that stages a replacement.
   */
  method DriftPool(state: NodePoolState, np: StaticPool, budget: nat) returns (cmds: seq<DriftCommand>)
    requires |np.holdsSlot| == |np.candidates| && forall i :: 0 <= i < |np.candidates| ==> np.candidates[i].pool == np.name
    modifies state
    ensures |cmds| <= budget && DriftChoice(np, old(state.View()), budget, cmds)
    ensures forall i :: 0 <= i < |cmds| ==> cmds[i].candidate in np.candidates && cmds[i].candidate.pool == np.name
    ensures TookSlots(old(state.View()), state.View(), cmds)
  {
    cmds := [];
    if budget == 0 || |np.candidates| == 0 {
      return;
    }
    var running, deleting, pending := state.GetNodeCount(np.name);
    if running + pending > np.replicas {
      return;
    }
    var most := Min(budget, |np.candidates|);
    if np.reservationsFull {
      cmds := TerminateFirst(np, most, np.holdsSlot);
      ReplacingAll(cmds, np.name, false);
      return;
    }
    cmds := StageDrift(state, np, most);
  }

  /** The part that reserves slots for replacements. */
  method StageDrift(state: NodePoolState, np: StaticPool, most: nat) returns (cmds: seq<DriftCommand>)
    requires most <= |np.candidates| && forall i :: 0 <= i < |np.candidates| ==> np.candidates[i].pool == np.name
    modifies state
    ensures |cmds| <= most && StagedChoice(np, old(state.View()).Grant(np.name, np.limit, most), most, cmds)
    ensures forall i :: 0 <= i < |cmds| ==> cmds[i].candidate in np.candidates && cmds[i].candidate.pool == np.name
    ensures TookSlots(old(state.View()), state.View(), cmds)
  {
    var granted := state.ReserveNodeCount(np.name, np.limit, most);
    cmds := WithGrant(np, granted, most);
    GrantTakesSlots(old(state.View()), np, most, cmds);
  }

  /** What is done with the slots that were granted. */
  method WithGrant(np: StaticPool, granted: nat, most: nat) returns (cmds: seq<DriftCommand>)
    requires granted <= most <= |np.candidates| && forall i :: 0 <= i < |np.candidates| ==> np.candidates[i].pool == np.name
    ensures |cmds| <= most && StagedChoice(np, granted, most, cmds)
    ensures forall i :: 0 <= i < |cmds| ==> cmds[i].candidate in np.candidates && cmds[i].candidate.pool == np.name
    ensures forall q :: Replacing(cmds, q) == if q == np.name then granted else 0
  {
    if granted == 0 {
      cmds := TerminateFirst(np, most, Everyone(|np.candidates|));
      ReplacingAll(cmds, np.name, false);
    } else {
      cmds := StageFirst(np, granted);
    }
  }

  lemma GrantTakesSlots(p: Pools, np: StaticPool, most: nat, cmds: seq<DriftCommand>)
    requires forall q :: Replacing(cmds, q) == if q == np.name then p.Grant(np.name, np.limit, most) else 0
    ensures TookSlots(p, p.Reserve(np.name, np.limit, most), cmds)
  {
  }

  /** A command with a replacement for each of the first candidates. */
  function StageFirst(np: StaticPool, n: nat): (cmds: seq<DriftCommand>)
    requires n <= |np.candidates| && forall i :: 0 <= i < |np.candidates| ==> np.candidates[i].pool == np.name
    ensures |cmds| == n && forall i :: 0 <= i < n ==> cmds[i] == DriftCommand(np.candidates[i], true)
    ensures forall q :: Replacing(cmds, q) == if q == np.name then n else 0
  {
    var cmds := seq(n, i requires 0 <= i < n => DriftCommand(np.candidates[i], true));
    ReplacingAll(cmds, np.name, true);
    cmds
  }

  /**
   The static branch of a repair: it stays out of a pool that is scaling down, and otherwise takes a slot exactly when it
   stages a replacement, and then exactly one. With reservations full only a holder of one may go, and goes first.
   */
  method RepairStatic(state: NodePoolState, candidate: Chosen, limit: int, replicas: int, reservationsFull: bool, holdsSlot: bool, terminateFirst: bool)
    returns (cmd: Option<DriftCommand>)
    modifies state
    ensures cmd.Some? ==> cmd.value.candidate == candidate
    ensures
      var sets := old(state.View()).Sets(candidate.pool);
      var room := |sets.active| + |sets.pending| <= replicas;
      && (cmd == Some(DriftCommand(candidate, true)) <==>
            room && !reservationsFull && old(state.View()).Grant(candidate.pool, limit, 1) == 1)
      && (cmd == Some(DriftCommand(candidate, false)) <==>
            && room && terminateFirst
            && (if reservationsFull then holdsSlot else old(state.View()).Grant(candidate.pool, limit, 1) == 0))
    ensures forall q :: state.View().Reserved(q) == old(state.View().Reserved(q)) + Replacing(if cmd.Some? then [cmd.value] else [], q)
    ensures state.View().owner == old(state.View().owner) && forall q :: state.View().Sets(q) == old(state.View().Sets(q))
  {
    cmd := None;
    var active, deleting, pending := state.GetNodeCount(candidate.pool);
    if active + pending > replicas || (reservationsFull && !holdsSlot) {
      return;
    }
    var granted := 0;
    if !reservationsFull {
      granted := state.ReserveNodeCount(candidate.pool, limit, 1);
    }
    if granted == 0 {
      cmd := if terminateFirst then Some(DriftCommand(candidate, false)) else None;
    } else {
      cmd := Some(DriftCommand(candidate, true));
    }
    if cmd.Some? {
      ReplacingAll([cmd.value], candidate.pool, cmd.value.staged);
    }
  }

  /** unreplaceableCommands, over the first `most` candidates with slot holders in front. */
  method TerminateFirst(np: StaticPool, most: nat, eligible: seq<bool>) returns (cmds: seq<DriftCommand>)
    requires most <= |np.candidates| == |eligible| && forall i :: 0 <= i < |np.candidates| ==> np.candidates[i].pool == np.name
    ensures |cmds| <= most && TerminatesFirst(np, most, eligible, cmds)
    ensures forall i :: 0 <= i < |cmds| ==> cmds[i].candidate in np.candidates && cmds[i].candidate.pool == np.name && !cmds[i].staged
  {
    if !np.terminateFirst {
      return [];
    }
    var indices := FirstOf(np, most, eligible);
    cmds := Unstaged(np, indices);
    assert FirstEligible(np, most, eligible, indices);
  }

  method FirstOf(np: StaticPool, most: nat, eligible: seq<bool>) returns (indices: seq<nat>)
    requires |np.candidates| == |eligible| && forall i :: 0 <= i < |np.candidates| ==> np.candidates[i].pool == np.name
    ensures TakenSoFar(np, most, eligible, indices, |np.candidates|)
  {
    indices := [];
    var i := 0;
    while i < |np.candidates|
      invariant 0 <= i <= |np.candidates|
      invariant TakenSoFar(np, most, eligible, indices, i)
    {
      TakeNext(np, most, eligible, indices, i);
      if eligible[i] && |indices| < most {
        indices := indices + [i];
      }
      i := i + 1;
    }
  }

  ghost predicate TakenSoFar(np: StaticPool, most: nat, eligible: seq<bool>, indices: seq<nat>, n: nat)
    requires n <= |np.candidates| == |eligible|
  {
    var pools := PoolsOf(np.candidates);
    && TakesFirst(pools, eligible, map[np.name := most], indices, n)
    && |indices| == Min(EligibleBefore(pools, eligible, n, np.name), most)
  }

  lemma TakeNext(np: StaticPool, most: nat, eligible: seq<bool>, indices: seq<nat>, n: nat)
    requires n < |np.candidates| == |eligible| && np.candidates[n].pool == np.name
    requires TakenSoFar(np, most, eligible, indices, n)
    ensures TakenSoFar(np, most, eligible, if eligible[n] && |indices| < most then indices + [n] else indices, n + 1)
  {
    var pools, budget := PoolsOf(np.candidates), map[np.name := most as int];
    TakesNext(pools, eligible, budget, indices, n);
    assert HasRoom(pools, eligible, budget, n) <==> eligible[n] && |indices| < most;
  }

  lemma {:induction false} CountAppend(a: seq<string>, b: seq<string>, pool: string)
    ensures CountPool(a + b, pool) == CountPool(a, pool) + CountPool(b, pool)
    decreases |b|
  {
    if b == [] {
      assert a + b == a;
    } else {
      assert (a + b)[..|a + b| - 1] == a + b[..|b| - 1];
      CountAppend(a, b[..|b| - 1], pool);
    }
  }

  lemma {:induction false} ReplacingAppend(a: seq<DriftCommand>, b: seq<DriftCommand>, pool: string)
    ensures Replacing(a + b, pool) == Replacing(a, pool) + Replacing(b, pool)
    decreases |b|
  {
    if b == [] {
      assert a + b == a;
    } else {
      assert (a + b)[..|a + b| - 1] == a + b[..|b| - 1];
      ReplacingAppend(a, b[..|b| - 1], pool);
    }
  }

  /** The commands of one pool. */
  function OfPool(cmds: seq<DriftCommand>, pool: string): seq<DriftCommand> {
    if cmds == [] then [] else
    OfPool(cmds[..|cmds| - 1], pool) + if cmds[|cmds| - 1].candidate.pool == pool then [cmds[|cmds| - 1]] else []
  }

  lemma {:induction false} OfPoolAppend(a: seq<DriftCommand>, b: seq<DriftCommand>, name: string, pool: string)
    requires forall i :: 0 <= i < |b| ==> b[i].candidate.pool == name
    ensures OfPool(a + b, pool) == OfPool(a, pool) + if pool == name then b else []
    decreases |b|
  {
    if b == [] {
      assert a + b == a;
    } else {
      var init := b[..|b| - 1];
      assert (a + b)[..|a + b| - 1] == a + init;
      OfPoolAppend(a, init, name, pool);
      assert init + [b[|b| - 1]] == b;
    }
  }

  /** The choice for a pool depends on nothing that the other pools' turns change. */
  lemma DriftChoiceLater(np: StaticPool, p: Pools, q: Pools, budget: nat, cmds: seq<DriftCommand>)
    requires |np.holdsSlot| == |np.candidates| && p.Sets(np.name) == q.Sets(np.name) && p.Reserved(np.name) == q.Reserved(np.name)
    ensures DriftChoice(np, p, budget, cmds) <==> DriftChoice(np, q, budget, cmds)
  {
  }

  /** The commands so far concern a pool in no way. */
  ghost predicate Unconcerned(cmds: seq<DriftCommand>, pool: string) {
    Concerning(cmds, pool) == 0 && OfPool(cmds, pool) == [] && Replacing(cmds, pool) == 0
  }

  /** The pools after a slot was taken for each command that stages a replacement. */
  ghost predicate TookSlots(p: Pools, q: Pools, cmds: seq<DriftCommand>) {
    && (forall pool :: q.Reserved(pool) == p.Reserved(pool) + Replacing(cmds, pool))
    && q.owner == p.owner && (forall pool :: q.Sets(pool) == p.Sets(pool))
  }

  /** What holds once the first n pools had their turn. */
  ghost predicate TurnsTaken(pools: seq<StaticPool>, p: Pools, q: Pools, budget: map<string, int>, cmds: seq<DriftCommand>, n: nat)
    requires WellGrouped(pools) && n <= |pools|
  {
    && (forall pool :: Concerning(cmds, pool) <= Lookup(budget, pool, 0))
    && (forall j :: n <= j < |pools| ==> Unconcerned(cmds, pools[j].name))
    && (forall j :: 0 <= j < n ==> ChosenFor(pools, p, budget, cmds, j))
    && TookSlots(p, q, cmds)
  }

  lemma TurnAppend(cmds: seq<DriftCommand>, more: seq<DriftCommand>, name: string, pool: string)
    requires forall i :: 0 <= i < |more| ==> more[i].candidate.pool == name
    ensures Concerning(cmds + more, pool) == Concerning(cmds, pool) + if pool == name then |more| else 0
    ensures Replacing(cmds + more, pool) == Replacing(cmds, pool) + Replacing(more, pool)
    ensures OfPool(cmds + more, pool) == OfPool(cmds, pool) + if pool == name then more else []
    ensures pool != name ==> Replacing(more, pool) == 0
  {
    ConcerningAppend(cmds, more, name, pool);
    ReplacingAppend(cmds, more, pool);
    OfPoolAppend(cmds, more, name, pool);
    ReplacingElsewhere(more, name, pool);
  }

  lemma {:induction false} ReplacingElsewhere(cmds: seq<DriftCommand>, name: string, pool: string)
    requires forall i :: 0 <= i < |cmds| ==> cmds[i].candidate.pool == name
    ensures pool != name ==> Replacing(cmds, pool) == 0
  {
    if cmds != [] {
      ReplacingElsewhere(cmds[..|cmds| - 1], name, pool);
    }
  }

  lemma TurnKeepsBudget(budget: map<string, int>, cmds: seq<DriftCommand>, more: seq<DriftCommand>, name: string)
    requires forall pool :: Concerning(cmds, pool) <= Lookup(budget, pool, 0)
    requires Concerning(cmds, name) == 0 && |more| <= Lookup(budget, name, 0)
    requires forall i :: 0 <= i < |more| ==> more[i].candidate.pool == name
    ensures forall pool :: Concerning(cmds + more, pool) <= Lookup(budget, pool, 0)
  {
    forall pool
      ensures Concerning(cmds + more, pool) <= Lookup(budget, pool, 0)
    {
      TurnAppend(cmds, more, name, pool);
    }
  }

  lemma TurnTakesSlots(p: Pools, q: Pools, r: Pools, cmds: seq<DriftCommand>, more: seq<DriftCommand>)
    requires TookSlots(p, q, cmds) && TookSlots(q, r, more)
    ensures TookSlots(p, r, cmds + more)
  {
    forall pool
      ensures r.Reserved(pool) == p.Reserved(pool) + Replacing(cmds + more, pool)
    {
      ReplacingAppend(cmds, more, pool);
    }
  }

  /** One more turn. */
  lemma TurnTaken(pools: seq<StaticPool>, p: Pools, q: Pools, r: Pools, budget: map<string, int>, cmds: seq<DriftCommand>, more: seq<DriftCommand>, n: nat)
    requires WellGrouped(pools) && n < |pools| && TurnsTaken(pools, p, q, budget, cmds, n)
    requires Lookup(budget, pools[n].name, 0) >= |more| && DriftChoice(pools[n], q, Lookup(budget, pools[n].name, 0), more)
    requires TookSlots(q, r, more) && forall i :: 0 <= i < |more| ==> more[i].candidate.pool == pools[n].name
    ensures TurnsTaken(pools, p, r, budget, cmds + more, n + 1)
  {
    var name := pools[n].name;
    assert Unconcerned(cmds, name);
    TurnKeepsBudget(budget, cmds, more, name);
    TurnTakesSlots(p, q, r, cmds, more);
    forall j | n + 1 <= j < |pools|
      ensures Unconcerned(cmds + more, pools[j].name)
    {
      assert Unconcerned(cmds, pools[j].name);
      TurnAppend(cmds, more, name, pools[j].name);
    }
    forall j | 0 <= j < n + 1
      ensures ChosenFor(pools, p, budget, cmds + more, j)
    {
      TurnChosen(pools, p, q, budget, cmds, more, n, j);
    }
  }

  lemma TurnChosen(pools: seq<StaticPool>, p: Pools, q: Pools, budget: map<string, int>, cmds: seq<DriftCommand>, more: seq<DriftCommand>, n: nat, j: nat)
    requires WellGrouped(pools) && j <= n < |pools| && Unconcerned(cmds, pools[n].name) && TookSlots(p, q, cmds)
    requires Lookup(budget, pools[n].name, 0) >= 0 && DriftChoice(pools[n], q, Lookup(budget, pools[n].name, 0), more)
    requires forall i :: 0 <= i < |more| ==> more[i].candidate.pool == pools[n].name
    requires j < n ==> ChosenFor(pools, p, budget, cmds, j)
    ensures ChosenFor(pools, p, budget, cmds + more, j)
  {
    var name := pools[n].name;
    TurnAppend(cmds, more, name, pools[j].name);
    if j == n {
      DriftChoiceLater(pools[n], p, q, Lookup(budget, name, 0), more);
      assert OfPool(cmds + more, name) == more;
    }
  }

  ghost predicate ChosenFor(pools: seq<StaticPool>, p: Pools, budget: map<string, int>, cmds: seq<DriftCommand>, i: nat)
    requires WellGrouped(pools) && i < |pools|
  {
    DriftChoice(pools[i], p, Max(Lookup(budget, pools[i].name, 0), 0), OfPool(cmds, pools[i].name))
  }

  /** How many of a pass's commands concern a pool. */
  function Concerning(cmds: seq<DriftCommand>, pool: string): nat {
    CountPool(PoolsOf(CandidatesOf(cmds)), pool)
  }

  lemma ConcerningAppend(a: seq<DriftCommand>, b: seq<DriftCommand>, name: string, pool: string)
    requires forall i :: 0 <= i < |b| ==> b[i].candidate.pool == name
    ensures Concerning(a + b, pool) == Concerning(a, pool) + if pool == name then |b| else 0
  {
    assert PoolsOf(CandidatesOf(a + b)) == PoolsOf(CandidatesOf(a)) + PoolsOf(CandidatesOf(b));
    CountAppend(PoolsOf(CandidatesOf(a)), PoolsOf(CandidatesOf(b)), pool);
    CountAll(PoolsOf(CandidatesOf(b)), name);
  }

  ghost predicate WellGrouped(pools: seq<StaticPool>) {
    && (forall i, j :: 0 <= i < j < |pools| ==> pools[i].name != pools[j].name)
    && (forall i :: 0 <= i < |pools| ==> |pools[i].holdsSlot| == |pools[i].candidates|)
    && (forall i, j :: 0 <= i < |pools| && 0 <= j < |pools[i].candidates| ==> pools[i].candidates[j].pool == pools[i].name)
  }

  /** Every pool's candidates name their nodes' pool. */
  ghost predicate AllMatching(nodes: seq<NodeView>, pools: seq<StaticPool>) {
    forall i :: 0 <= i < |pools| ==> Matching(nodes, pools[i].candidates)
  }

  lemma DriftKeepsMatching(nodes: seq<NodeView>, cmds: seq<DriftCommand>, more: seq<DriftCommand>, candidates: seq<Chosen>)
    requires Matching(nodes, CandidatesOf(cmds)) && Matching(nodes, candidates)
    requires forall i :: 0 <= i < |more| ==> more[i].candidate in candidates
    ensures Matching(nodes, CandidatesOf(cmds + more))
  {
    forall c | c in CandidatesOf(more)
      ensures c in candidates
    {
      var i :| 0 <= i < |more| && more[i].candidate == c;
    }
    MatchingSubset(nodes, candidates, CandidatesOf(more));
    MatchingAppend(nodes, CandidatesOf(cmds), CandidatesOf(more));
    assert CandidatesOf(cmds + more) == CandidatesOf(cmds) + CandidatesOf(more);
  }

  /**
   StaticDrift over all its pools: within every budget, so that marking its candidates keeps every pool within what it
   allows, and one outstanding slot per command that stages a replacement.
   */
  method StaticDriftPass(state: NodePoolState, pools: seq<StaticPool>, nodes: seq<NodeView>, budgets: map<string, seq<Budget>>)
    returns (cmds: seq<DriftCommand>)
    requires WellGrouped(pools) && UniqueIds(nodes) && AllMatching(nodes, pools)
    modifies state
    ensures Matching(nodes, CandidatesOf(cmds)) && InBudget(nodes, CandidatesOf(cmds), budgets, Drifted)
    ensures StaysAllowed(nodes, CandidatesOf(cmds), budgets, Drifted)
    ensures forall i :: 0 <= i < |pools| ==> ChosenFor(pools, old(state.View()), RemainingMap(nodes, budgets, Drifted), cmds, i)
    ensures TookSlots(old(state.View()), state.View(), cmds)
  {
    var budget := RemainingMap(nodes, budgets, Drifted);
    cmds := [];
    var i := 0;
    while i < |pools|
      invariant 0 <= i <= |pools|
      invariant TurnsTaken(pools, old(state.View()), state.View(), budget, cmds, i)
      invariant Matching(nodes, CandidatesOf(cmds))
    {
      ghost var q := state.View();
      var more := DriftPool(state, pools[i], Lookup(budget, pools[i].name, 0));
      TurnTaken(pools, old(state.View()), q, state.View(), budget, cmds, more, i);
      DriftKeepsMatching(nodes, cmds, more, pools[i].candidates);
      cmds := cmds + more;
      i := i + 1;
    }
    ConcernsInBudget(nodes, cmds, budgets);
    PassRespectsBudgets(nodes, CandidatesOf(cmds), budgets, Drifted);
  }

  lemma ConcernsInBudget(nodes: seq<NodeView>, cmds: seq<DriftCommand>, budgets: map<string, seq<Budget>>)
    requires forall p :: Concerning(cmds, p) <= Lookup(RemainingMap(nodes, budgets, Drifted), p, 0)
    ensures InBudget(nodes, CandidatesOf(cmds), budgets, Drifted)
  {
    forall p
      ensures CountPool(PoolsOf(CandidatesOf(cmds)), p) <= if p in budgets then Remaining(nodes, budgets[p], p, Drifted) else 0
    {
      assert Concerning(cmds, p) <= Lookup(RemainingMap(nodes, budgets, Drifted), p, 0);
    }
  }
}
