/**
 The disruption cost of a node: a base cost plus the eviction cost of each of its pods, kept up to date as pods come and go.
 Replacing the node's claim starts an empty record of the pod costs, so the cost can fall short; it never runs over.
 */
module DisruptionCosts {
  import opened Common
  import ClusterView
  import StateNodes

  type Costs = map<string, real>

  /** Daemon pods and pods that cost nothing to evict do not count. */
  datatype PodCost = PodCost(cost: real, daemon: bool)

  datatype Tracker = Tracker(tracked: Costs, bound: map<string, PodCost>)

  const BaseCost := 1.0

  /** What the pods on the node cost to evict. */
  function Due(bound: map<string, PodCost>): Costs {
    map p | p in bound && !bound[p].daemon && bound[p].cost > 0.0 :: bound[p].cost
  }

  datatype Step =
    | UpdatePod(pod: string, cost: PodCost)
    | RemovePod(pod: string)
    | UpdateClaim
    | UpdateNode(pods: map<string, PodCost>)

  function Charge(tracked: Costs, pod: string, cost: PodCost): Costs {
    if cost.daemon then tracked else if cost.cost > 0.0 then tracked[pod := cost.cost] else tracked - {pod}
  }

  function Apply(t: Tracker, step: Step): Tracker {
    match step
    case UpdatePod(pod, cost) => Tracker(Charge(t.tracked, pod, cost), t.bound[pod := cost])
    case RemovePod(pod) => Tracker(t.tracked - {pod}, t.bound - {pod})
    case UpdateClaim => t.(tracked := map[])
    case UpdateNode(pods) => Tracker(Due(pods), pods)
  }

  /** These are the changes that charging, discharging and replacing the claim of a cached machine make to its costs. */
  lemma FollowsClusterState(v: ClusterView.View, c: StateNodes.NodeClaim, pod: StateNodes.Pod, bound: map<string, PodCost>)
    requires pod.volumesKnown && c.providerID in v.nodes
    ensures v.nodes[c.providerID].Charge(pod).Some?
    ensures
      var n := v.nodes[c.providerID];
      var t := Tracker(n.podDisruptionCosts, bound);
      && v.WithClaim(c).podDisruptionCosts == Apply(t, UpdateClaim).tracked
      && n.Charge(pod).value.podDisruptionCosts == Apply(t, UpdatePod(pod.key, PodCost(pod.evictionCost, pod.daemon))).tracked
      && n.Discharge(pod.key).podDisruptionCosts == Apply(t, RemovePod(pod.key)).tracked
  {
  }

  /** The pods of a listing that are not finished, by key. */
  function Listed(bound: map<string, PodCost>, pods: seq<StateNodes.Pod>): map<string, PodCost>
    decreases |pods|
  {
    if pods == [] then bound
    else if pods[0].terminal then Listed(bound, pods[1..])
    else Listed(bound[pods[0].key := PodCost(pods[0].evictionCost, pods[0].daemon)], pods[1..])
  }

  predicate DistinctKeys(pods: seq<StateNodes.Pod>) {
    forall i, j :: 0 <= i < j < |pods| ==> pods[i].key != pods[j].key
  }

  lemma ChargeFollows(costs: Costs, bound: map<string, PodCost>, pod: string, cost: PodCost)
    requires costs == Due(bound) && pod !in bound
    ensures Charge(costs, pod, cost) == Due(bound[pod := cost])
  {
    assert costs - {pod} == costs;
  }

  /** Charging the listed pods one after another tracks exactly what they cost. */
  lemma {:induction false} PopulateFollows(v: ClusterView.View, n: StateNodes.StateNode, pods: seq<StateNodes.Pod>, bound: map<string, PodCost>)
    requires n.podDisruptionCosts == Due(bound) && DistinctKeys(pods) && forall i :: 0 <= i < |pods| ==> pods[i].key !in bound
    ensures v.Populate(n, pods).1.Some? ==> v.Populate(n, pods).1.value.podDisruptionCosts == Due(Listed(bound, pods))
    decreases |pods|
  {
    if pods != [] {
      var pod, rest := pods[0], pods[1..];
      if pod.terminal {
        PopulateFollows(v, n, rest, bound);
      } else if n.Charge(pod).Some? {
        var cost := PodCost(pod.evictionCost, pod.daemon);
        ChargeFollows(n.podDisruptionCosts, bound, pod.key, cost);
        assert n.Charge(pod).value.podDisruptionCosts == Charge(n.podDisruptionCosts, pod.key, cost);
        PopulateFollows(v.Bind(pod), n.Charge(pod).value, rest, bound[pod.key := cost]);
      }
    }
  }

  /** So does the rebuild of a node from a listing of its pods. */
  lemma RebuildFollowsClusterState(v: ClusterView.View, node: StateNodes.Node, pods: seq<StateNodes.Pod>, t: Tracker)
    requires DistinctKeys(pods)
    ensures
      var rebuilt := v.Populate(v.WithNode(node, node.providerID), pods).1;
      rebuilt.Some? ==> rebuilt.value.podDisruptionCosts == Apply(t, UpdateNode(Listed(map[], pods))).tracked
  {
    PopulateFollows(v, v.WithNode(node, node.providerID), pods, map[]);
  }

  /** A pod's owner does not change while the pod is on the node. */
  predicate Admissible(t: Tracker, step: Step) {
    step.UpdatePod? && step.pod in t.bound ==> t.bound[step.pod].daemon == step.cost.daemon
  }

  function Run(steps: seq<Step>): Tracker {
    if steps == [] then Tracker(map[], map[]) else Apply(Run(steps[..|steps| - 1]), steps[|steps| - 1])
  }

  ghost predicate AdmissibleRun(steps: seq<Step>) {
    forall i :: 0 <= i < |steps| ==> Admissible(Run(steps[..i]), steps[i])
  }

  /** The pod was seen, alone or in a listing of the node, since the claim was last replaced. */
  predicate Refreshed(steps: seq<Step>, pod: string) {
    steps != [] &&
    var last := steps[|steps| - 1];
    match last
    case UpdateClaim => false
    case UpdateNode(_) => true
    case UpdatePod(p, _) => p == pod || Refreshed(steps[..|steps| - 1], pod)
    case RemovePod(_) => Refreshed(steps[..|steps| - 1], pod)
  }

  ghost predicate TracksRefreshed(steps: seq<Step>) {
    var t := Run(steps);
    forall p :: p in t.tracked <==> p in Due(t.bound) && Refreshed(steps, p)
  }

  /** What is tracked is right, as far as it goes. */
  predicate Sound(t: Tracker) {
    forall p :: p in t.tracked ==> p in Due(t.bound) && t.tracked[p] == Due(t.bound)[p]
  }

  lemma StepSound(t: Tracker, step: Step)
    requires Sound(t) && Admissible(t, step)
    ensures Sound(Apply(t, step))
  {
    var after := Apply(t, step);
    forall p | p in after.tracked
      ensures p in Due(after.bound) && after.tracked[p] == Due(after.bound)[p]
    {
      if step.UpdatePod? && p != step.pod {
        assert p in t.tracked;
      }
    }
  }

  lemma AdmissiblePrefix(steps: seq<Step>)
    requires steps != [] && AdmissibleRun(steps)
    ensures AdmissibleRun(steps[..|steps| - 1]) && Admissible(Run(steps[..|steps| - 1]), steps[|steps| - 1])
  {
    var init := steps[..|steps| - 1];
    forall i | 0 <= i < |init|
      ensures Admissible(Run(init[..i]), init[i])
    {
      assert init[..i] == steps[..i];
    }
    assert Admissible(Run(steps[..|init|]), steps[|init|]);
  }

  /** After any run the tracked pods are exactly those that count and were seen since the claim was last replaced. */
  lemma {:induction false} RunTracks(steps: seq<Step>)
    requires AdmissibleRun(steps)
    ensures Sound(Run(steps)) && TracksRefreshed(steps)
  {
    if steps == [] {
    } else {
      var init := steps[..|steps| - 1];
      AdmissiblePrefix(steps);
      RunTracks(init);
      StepSound(Run(init), steps[|steps| - 1]);
      forall p
        ensures p in Run(steps).tracked <==> p in Due(Run(steps).bound) && Refreshed(steps, p)
      {
        TracksAt(steps, p);
      }
    }
  }

  lemma TracksAt(steps: seq<Step>, p: string)
    requires steps != [] && TracksRefreshed(steps[..|steps| - 1]) && Sound(Run(steps[..|steps| - 1]))
    requires Admissible(Run(steps[..|steps| - 1]), steps[|steps| - 1])
    ensures p in Run(steps).tracked <==> p in Due(Run(steps).bound) && Refreshed(steps, p)
  {
    var t, last := Run(steps[..|steps| - 1]), steps[|steps| - 1];
    assert p in t.tracked <==> p in Due(t.bound) && Refreshed(steps[..|steps| - 1], p);
    assert Run(steps) == Apply(t, last);
  }

  /* ----- the sum ----- */

  ghost function Sum(costs: Costs): real {
    if costs == map[] then 0.0
    else
      var p :| p in costs;
      costs[p] + Sum(costs - {p})
  }

  lemma {:induction false} SumRemove(costs: Costs, p: string)
    requires p in costs
    ensures Sum(costs) == costs[p] + Sum(costs - {p})
    decreases |costs|
  {
    var q :| q in costs && Sum(costs) == costs[q] + Sum(costs - {q});
    if q != p {
      var less := costs - {q};
      SumRemove(less, p);
      SumRemove(costs - {p}, q);
      assert less - {p} == costs - {p} - {q};
    }
  }

  predicate Positive(costs: Costs) {
    forall p :: p in costs ==> costs[p] > 0.0
  }

  predicate Within(some: Costs, all: Costs) {
    forall p :: p in some ==> p in all && all[p] == some[p]
  }

  lemma SameWithout(a: Costs, b: Costs, p: string)
    requires p in a && p in b && a[p] == b[p]
    ensures a - {p} == b - {p} <==> a == b
  {
    assert a == (a - {p})[p := a[p]] && b == (b - {p})[p := b[p]];
  }

  lemma {:induction false} SumPositive(costs: Costs)
    requires Positive(costs)
    ensures Sum(costs) >= 0.0 && (Sum(costs) == 0.0 <==> costs == map[])
    decreases |costs|
  {
    if costs != map[] {
      var p :| p in costs;
      SumRemove(costs, p);
      SumPositive(costs - {p});
    }
  }

  lemma {:induction false} SumGrows(some: Costs, all: Costs)
    requires Positive(all) && Within(some, all)
    ensures Sum(some) <= Sum(all) && (Sum(some) == Sum(all) <==> some == all)
    decreases |some|
  {
    if some == map[] {
      SumPositive(all);
    } else {
      var p :| p in some;
      SumRemove(some, p);
      SumRemove(all, p);
      SumGrows(some - {p}, all - {p});
      SameWithout(some, all, p);
    }
  }

  /**
   The cost a node reports is never above the cost of disrupting it, and it is exact just when every pod that counts was
   seen since the node's claim was last replaced.
   */
  lemma CostExactIff(steps: seq<Step>)
    requires AdmissibleRun(steps)
    ensures
      var t := Run(steps);
      && BaseCost + Sum(t.tracked) <= BaseCost + Sum(Due(t.bound))
      && (Sum(t.tracked) == Sum(Due(t.bound)) <==> forall p :: p in Due(t.bound) ==> Refreshed(steps, p))
  {
    var t := Run(steps);
    RunTracks(steps);
    SumGrows(t.tracked, Due(t.bound));
    if forall p :: p in Due(t.bound) ==> Refreshed(steps, p) {
      assert t.tracked.Keys == Due(t.bound).Keys;
    }
  }

  /** A replaced claim makes a node with one busy pod look as cheap as an empty one. */
  lemma ClaimUpdateUndercounts(cost: real)
    requires cost > 0.0
    ensures
      var t := Run([UpdatePod("pod", PodCost(cost, false)), UpdateClaim]);
      Sum(t.tracked) == 0.0 && Sum(Due(t.bound)) == cost
  {
    var steps := [UpdatePod("pod", PodCost(cost, false)), UpdateClaim];
    assert steps[..1] == [steps[0]] && steps[..1][..0] == [];
    assert Run(steps[..1]) == Apply(Tracker(map[], map[]), steps[0]);
    var due := Due(Run(steps).bound);
    assert due == map["pod" := cost];
    SumRemove(due, "pod");
    assert due - {"pod"} == map[];
  }

  method DisruptionCost(podDisruptionCosts: Costs) returns (cost: real)
    ensures cost == BaseCost + Sum(podDisruptionCosts)
  {
    cost := BaseCost;
    var todo := podDisruptionCosts;
    while todo != map[]
      invariant todo.Keys <= podDisruptionCosts.Keys
      invariant cost + Sum(todo) == BaseCost + Sum(podDisruptionCosts)
      decreases |todo|
    {
      var p :| p in todo;
      SumRemove(todo, p);
      cost := cost + todo[p];
      todo := todo - {p};
    }
  }
}
