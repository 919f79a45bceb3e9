/** The invariants together, over every run of events. */
module ClusterRuns {
  import opened Common
  import opened StateNodes
  import opened NodePools
  import opened ClusterView
  import opened ClusterIndexes
  import opened ClusterTotals
  import opened ClusterPods
  import Reservations

  datatype Event =
    | UpdateClaimEvent(claim: NodeClaim)
    | DeleteClaimEvent(name: string)
    | UpdateNodeEvent(update: NodeUpdate)
    | DeleteNodeEvent(name: string)
    | UpdatePodEvent(pod: Pod)
    | DeletePodEvent(key: PodKey)
    | MarkEvent(ids: seq<string>, marked: bool)

  function Step(v: View, e: Event): View {
    match e
    case UpdateClaimEvent(claim) => v.UpdateNodeClaim(claim)
    case DeleteClaimEvent(name) => v.CleanupClaim(name)
    case UpdateNodeEvent(update) => v.UpdateNode(update)
    case DeleteNodeEvent(name) => v.CleanupNode(name)
    case UpdatePodEvent(pod) => v.UpdatePod(pod)
    case DeletePodEvent(key) => v.CompletePod(key)
    case MarkEvent(ids, marked) => v.MarkAll(ids, marked)
  }

  /**
   What Kubernetes guarantees of the objects in an event: names are not empty, provider ids are unique per claim and per
   node, a claim's provider id is not cleared and its pool label not changed, and a
   node's pod listing holds pods of that node.
   */
  ghost predicate Admissible(v: View, e: Event) {
    match e
    case UpdateClaimEvent(claim) => claim.name != "" && ClaimIdUsable(v, claim) && LabelStable(v, claim)
    case UpdateNodeEvent(update) =>
      && update.node.name != "" && NodeIdUsable(v, update.Resolved())
      && forall pod :: pod in update.pods ==> pod.nodeName == update.node.name
    case _ => true
  }

  /* ----- claims and the pool that owns them ----- */

  ghost predicate LabelStable(v: View, c: NodeClaim) {
    c.name in v.pools.owner ==> v.pools.owner[c.name] == c.Pool()
  }

  predicate OwnedByLabel(n: StateNode, owner: map<string, string>) {
    n.claim.Some? && n.claim.value.Pool() != "" ==>
      n.claim.value.name in owner && owner[n.claim.value.name] == n.claim.value.Pool()
  }

  /** NodePoolState files every launched claim under the pool its label names. */
  ghost predicate Labelled(v: View) {
    && (forall id :: id in v.nodes ==> OwnedByLabel(v.nodes[id], v.pools.owner))
    && (forall name :: name in v.pools.owner ==> v.pools.owner[name] != "")
  }

  lemma SameMachinesKeepLabelled(v: View, w: View)
    requires Labelled(v) && SameMachines(v, w)
    ensures Labelled(w)
  {
    forall id | id in w.nodes
      ensures OwnedByLabel(w.nodes[id], w.pools.owner)
    {
      assert OwnedByLabel(v.nodes[id], v.pools.owner);
    }
  }

  lemma CleanupOwner(p: Pools, name: string)
    ensures p.Cleanup(name).owner == p.owner - {name}
  {
  }

  lemma UpdateOwner(p: Pools, name: string, pool: string, marked: bool)
    ensures p.UpdateClaim(name, pool, marked).owner == if pool == "" || name == "" then p.owner else p.owner[name := pool]
  {
  }

  lemma WithoutClaimStaysOwned(nodes: Machines, nodeIds: map<string, string>, claimIds: map<string, string>,
                               owner: map<string, string>, name: string, id: string)
    requires Inverse(nodes, nodeIds, claimIds) && id in NodesWithoutClaim(nodes, Lookup(claimIds, name, ""))
    requires OwnedByLabel(nodes[id], owner)
    ensures OwnedByLabel(NodesWithoutClaim(nodes, Lookup(claimIds, name, ""))[id], owner - {name})
  {
    assert Reachable(nodes[id], id, nodeIds, claimIds);
  }

  lemma ClaimCleanupKeepsLabelled(v: View, name: string)
    requires Indexed(v) && Labelled(v)
    ensures Labelled(v.CleanupClaim(name))
    ensures v.CleanupClaim(name).pools.owner == v.pools.owner - {name}
  {
    CleanupClaimMaps(v, name);
    CleanupOwner(v.pools, name);
    var after := v.CleanupClaim(name);
    forall id | id in after.nodes
      ensures OwnedByLabel(after.nodes[id], after.pools.owner)
    {
      assert OwnedByLabel(v.nodes[id], v.pools.owner);
      WithoutClaimStaysOwned(v.nodes, v.nodeIds, v.claimIds, v.pools.owner, name, id);
    }
  }

  lemma ClaimUpdateOwner(v: View, c: NodeClaim)
    ensures v.UpdateNodeClaim(c).pools.owner ==
      var base := if c.providerID == "" then v else MovedClaim(v, c);
      if c.Pool() == "" || c.name == "" then base.pools.owner else base.pools.owner[c.name := c.Pool()]
  {
    var base := if c.providerID == "" then v else MovedClaim(v, c);
    UpdateOwner(base.pools, c.name, c.Pool(), false);
    UpdateOwner(base.pools, c.name, c.Pool(), true);
  }

  lemma ClaimUpdateKeepsLabelled(v: View, c: NodeClaim)
    requires Indexed(v) && Labelled(v) && c.name != "" && ClaimIdUsable(v, c) && LabelStable(v, c)
    ensures Labelled(v.UpdateNodeClaim(c))
  {
    var after := v.UpdateNodeClaim(c);
    ClaimUpdateMaps(v, c);
    ClaimUpdateOwner(v, c);
    ClaimUpdateKeepsIndexesIff(v, c);
    if c.providerID != "" {
      ClaimCleanupKeepsLabelled(v, c.name);
    }
    forall id | id in after.nodes
      ensures OwnedByLabel(after.nodes[id], after.pools.owner)
    {
      assert Reachable(after.nodes[id], id, after.nodeIds, after.claimIds);
    }
  }

  lemma NodesKeepLabelled(v: View, w: View)
    requires Labelled(v) && w.pools == v.pools
    requires forall id :: id in w.nodes ==> w.nodes[id].claim.None? || (id in v.nodes && v.nodes[id].claim == w.nodes[id].claim)
    ensures Labelled(w)
  {
    forall id | id in w.nodes
      ensures OwnedByLabel(w.nodes[id], w.pools.owner)
    {
      assert id in v.nodes ==> OwnedByLabel(v.nodes[id], v.pools.owner);
    }
  }

  lemma NodeDeleteKeepsLabelled(v: View, name: string)
    requires Indexed(v) && Labelled(v)
    ensures Labelled(v.CleanupNode(name))
  {
    CleanupNodeMaps(v, name);
    NodesKeepLabelled(v, v.CleanupNode(name));
  }

  lemma NodeUpdateKeepsLabelled(v: View, update: NodeUpdate)
    requires Indexed(v) && Labelled(v) && update.node.name != ""
    ensures Labelled(v.UpdateNode(update))
  {
    if !update.Skipped() {
      var node := update.Resolved();
      var (w, n) := Prepared(v, update);
      PreparedKeepsMachines(v, update);
      SameMachinesKeepIndexes(v, w);
      SameMachinesKeepLabelled(v, w);
      if n.Some? && update.limitsKnown {
        InstallMaps(w, node.name, node.providerID, n.value);
        MovedNodeMaps(w, node.name, node.providerID);
        if w.NodeMoves(node.name, node.providerID) {
          NodeDeleteKeepsLabelled(w, node.name);
        }
        NodesKeepLabelled(MovedNode(w, node.name, node.providerID), v.UpdateNode(update));
      }
    }
  }

  lemma MarkKeepsLabelled(v: View, id: string, marked: bool)
    requires Labelled(v)
    ensures Labelled(v.Mark(id, marked))
  {
    MarkMaps(v, id, marked);
    assert v.Mark(id, marked).pools.owner == v.pools.owner;
  }

  /**
   The marks that cluster state itself makes never come too late: marking a tracked machine whose claim has a pool keeps
   the books of every static pool exact.
   */
  lemma ClusterMarksComeInTime(v: View, id: string, st: Reservations.Static, l: Reservations.Ledger, mark: Mark)
    requires Labelled(v) && l.pools == v.pools && id in v.nodes && Reservations.Exact(st, l)
    requires v.nodes[id].claim.Some? && v.nodes[id].claim.value.Pool() != ""
    ensures
      var claim := v.nodes[id].claim.value;
      Reservations.Exact(st, Reservations.Next(st, l, Reservations.MarkStep(claim.Pool(), claim.name, mark)))
  {
    var claim := v.nodes[id].claim.value;
    assert OwnedByLabel(v.nodes[id], v.pools.owner);
    Reservations.StepStaysExactIff(st, l, Reservations.MarkStep(claim.Pool(), claim.name, mark));
  }

  /* ----- runs ----- */

  ghost predicate Invariant(v: View) {
    Indexed(v) && TotalsExact(v) && Bound(v) && Labelled(v)
  }

  lemma EmptyIsFine()
    ensures Invariant(EMPTY)
  {
    forall pool, r
      ensures Amount(EMPTY.totals, pool, r) == Sum(EMPTY.nodes, pool, r)
    {
    }
  }

  lemma {:induction false} MarkAllKeepsInvariant(v: View, ids: seq<string>, marked: bool)
    requires Invariant(v)
    ensures Invariant(v.MarkAll(ids, marked))
    decreases |ids|
  {
    if ids != [] {
      MarkKeepsIndexes(v, ids[0], marked);
      MarkKeepsTotals(v, ids[0], marked);
      MarkKeepsBound(v, ids[0], marked);
      MarkKeepsLabelled(v, ids[0], marked);
      MarkAllKeepsInvariant(v.Mark(ids[0], marked), ids[1..], marked);
    }
  }

  /** Charging the listed pods to the machine to come leaves every machine in place fine. */
  lemma PreparedIsFine(v: View, update: NodeUpdate)
    requires Invariant(v) && Admissible(v, UpdateNodeEvent(update))
    ensures Invariant(Prepared(v, update).0)
  {
    var node, w := update.Resolved(), Prepared(v, update).0;
    if update.listed {
      PopulateKeepsBound(v, v.WithNode(node, node.providerID), update.pods);
    }
    PreparedKeepsMachines(v, update);
    SameMachinesKeepIndexes(v, w);
    SameMachinesKeepTotals(v, w);
    SameMachinesKeepLabelled(v, w);
  }

  lemma StepKeepsInvariant(v: View, e: Event)
    requires Invariant(v) && Admissible(v, e)
    ensures Invariant(Step(v, e))
  {
    match e
    case UpdateClaimEvent(claim) =>
      ClaimUpdateKeepsIndexesIff(v, claim);
      ClaimUpdateKeepsTotals(v, claim);
      ClaimUpdateKeepsBound(v, claim);
      ClaimUpdateKeepsLabelled(v, claim);
    case DeleteClaimEvent(name) =>
      ClaimDeleteKeepsIndexes(v, name);
      ClaimCleanupKeepsTotals(v, name);
      ClaimCleanupKeepsBound(v, name);
      ClaimCleanupKeepsLabelled(v, name);
    case UpdateNodeEvent(update) =>
      NodeUpdateKeepsIndexes(v, update);
      NodeUpdateKeepsTotals(v, update);
      NodeUpdateKeepsBound(v, update);
      NodeUpdateKeepsLabelled(v, update);
    case DeleteNodeEvent(name) =>
      NodeDeleteKeepsIndexes(v, name);
      NodeCleanupKeepsTotals(v, name);
      NodeCleanupKeepsBound(v, name);
      NodeDeleteKeepsLabelled(v, name);
    case UpdatePodEvent(pod) =>
      PodUpdateKeepsMachines(v, pod);
      SameMachinesKeepIndexes(v, Step(v, e));
      SameMachinesKeepTotals(v, Step(v, e));
      SameMachinesKeepLabelled(v, Step(v, e));
      PodUpdateKeepsBound(v, pod);
    case DeletePodEvent(key) =>
      CompletePodKeepsMachines(v, key);
      SameMachinesKeepIndexes(v, Step(v, e));
      SameMachinesKeepTotals(v, Step(v, e));
      SameMachinesKeepLabelled(v, Step(v, e));
      CompletePodKeepsBound(v, key);
    case MarkEvent(ids, marked) => MarkAllKeepsInvariant(v, ids, marked);
  }

  ghost predicate Run(v: View, events: seq<Event>)
    decreases |events|
  {
    events == [] || (Admissible(v, events[0]) && Run(Step(v, events[0]), events[1..]))
  }

  ghost function After(v: View, events: seq<Event>): View
    decreases |events|
  {
    if events == [] then v else After(Step(v, events[0]), events[1..])
  }

  lemma {:induction false} RunKeepsInvariant(v: View, events: seq<Event>)
    requires Invariant(v) && Run(v, events)
    ensures Invariant(After(v, events))
    decreases |events|
  {
    if events != [] {
      StepKeepsInvariant(v, events[0]);
      RunKeepsInvariant(Step(v, events[0]), events[1..]);
    }
  }

  /**
   After every run from the empty state: the indexes and the machines are inverse to each other, every
   charged pod is bound where it is charged, and for every pool and resource the running total is the sum over the
   machines that count, with an entry exactly when there is one.
   */
  lemma ReachableStatesAreConsistent(events: seq<Event>)
    requires Run(EMPTY, events)
    ensures
      var v := After(EMPTY, events);
      && Indexed(v) && Bound(v) && Labelled(v)
      && (forall pool, r :: Amount(v.totals, pool, r) == Sum(v.nodes, pool, r))
      && (forall pool :: pool in v.totals <==> exists id :: id in v.nodes && Counted(v.nodes[id], pool))
  {
    EmptyIsFine();
    RunKeepsInvariant(EMPTY, events);
    var v := After(EMPTY, events);
    forall pool
      ensures pool in v.totals <==> exists id :: id in v.nodes && Counted(v.nodes[id], pool)
    {
      SumCounts(v.nodes, pool, NODES);
    }
  }
}
