/**
 The mutable `Cluster` object. Every method is one critical section, and is proved to perform the
 function of `ClusterView` on the object's state; `Consistent` therefore holds after every
 sequence of admissible calls. The maps are indexed without presence tests where the code does so.
 */
module Clusters {
  import opened Common
  import opened StateNodes
  import opened NodePools
  import opened ClusterView
  import opened ClusterIndexes
  import opened ClusterTotals
  import opened ClusterPods
  import opened ClusterRuns

  lemma AddOne(total: ResourceList, done: ResourceList, r: string, q: int, subtract: bool)
    requires r !in done
    ensures AddTo(total, done[r := q], subtract) == AddTo(total, done, subtract)[r := Lookup(total, r, 0) + Signed(q, subtract)]
    ensures Lookup(AddTo(total, done, subtract), r, 0) == Lookup(total, r, 0)
  {
    var one, sum := AddTo(total, done[r := q], subtract), AddTo(total, done, subtract);
    assert one.Keys == sum.Keys + {r};
    forall k | k in one
      ensures one[k] == sum[r := Lookup(total, r, 0) + Signed(q, subtract)][k]
    {
    }
  }

  /** The resource loops of updateNodePoolResources. */
  method AddAmounts(total: ResourceList, amounts: ResourceList, subtract: bool) returns (sum: ResourceList)
    ensures sum == AddTo(total, amounts, subtract)
  {
    sum := total;
    var todo := amounts.Keys;
    ghost var done: ResourceList := map[];
    while todo != {}
      invariant todo <= amounts.Keys
      invariant done == amounts - todo
      invariant sum == AddTo(total, done, subtract)
      decreases todo
    {
      var r :| r in todo;
      AddOne(total, done, r, amounts[r], subtract);
      sum := sum[r := Lookup(sum, r, 0) + Signed(amounts[r], subtract)];
      todo, done := todo - {r}, done[r := amounts[r]];
    }
    assert done == amounts;
  }

  method IsAllZero(total: ResourceList) returns (zero: bool)
    ensures zero == AllZero(total)
  {
    var todo := total.Keys;
    while todo != {}
      invariant todo <= total.Keys
      invariant forall r :: r in total && r !in todo ==> total[r] == 0
      decreases todo
    {
      var r :| r in todo;
      if total[r] != 0 {
        return false;
      }
      todo := todo - {r};
    }
    return true;
  }

  class Cluster {
    var nodes: map<string, StateNode>
    var bindings: map<PodKey, string>
    var nodeIds: map<string, string>
    var claimIds: map<string, string>
    var totals: Totals
    const nodePools: NodePoolState

    ghost function State(): View
      reads this, nodePools
    {
      View(nodes, bindings, nodeIds, claimIds, totals, nodePools.View())
    }

    ghost predicate Consistent()
      reads this, nodePools
    {
      Invariant(State())
    }

    constructor ()
      ensures State() == EMPTY && Consistent()
      ensures fresh(nodePools)
    {
      nodes, bindings, nodeIds, claimIds, totals := map[], map[], map[], map[], map[];
      nodePools := new NodePoolState();
      new;
      EmptyIsFine();
    }

    method ApplyTo(pool: string, amounts: ResourceList, subtract: bool)
      requires pool != "" && amounts != map[] ==> pool in totals
      modifies this`totals
      ensures totals == Apply(old(totals), pool, amounts, subtract)
    {
      if pool != "" && amounts != map[] {
        var sum := AddAmounts(totals[pool], amounts, subtract);
        totals := totals[pool := sum];
      }
    }

    method CollectGarbage(pool: string)
      modifies this`totals
      ensures totals == Collect(old(totals), pool)
    {
      var zero := IsAllZero(Lookup(totals, pool, map[]));
      if zero {
        totals := totals - {pool};
      }
    }

    /** A machine that counted has a total to subtract from, so no write goes to a missing map. */
    method UpdateNodePoolResources(oldNode: Option<StateNode>, newNode: Option<StateNode>)
      requires PoolOf(oldNode) != "" && Countable(oldNode) != map[] ==> PoolOf(oldNode) in totals
      modifies this`totals
      ensures totals == Adjust(old(totals), oldNode, newNode)
    {
      var oldPool, newPool := PoolOf(oldNode), PoolOf(newNode);
      if newPool !in totals && newPool != "" {
        totals := totals[newPool := map[]];
      }
      ApplyTo(oldPool, Countable(oldNode), true);
      ApplyTo(newPool, Countable(newNode), false);
      CollectGarbage(oldPool);
      CollectGarbage(newPool);
    }

    /** Replaces or removes a tracked machine together with its contribution to the totals. */
    method Store(id: string, n: Option<StateNode>)
      requires TotalsExact(State())
      modifies this`nodes, this`totals
      ensures State() == if n.Some? then old(State()).Put(id, n.value) else old(State()).Drop(id)
    {
      ghost var v := State();
      assert PoolOf(v.Find(id)) != "" && Countable(v.Find(id)) != map[] ==> PoolOf(v.Find(id)) in totals by {
        if id in nodes && Counted(nodes[id], nodes[id].Pool()) {
          CountedHasTotal(nodes, totals, id, nodes[id].Pool());
        }
      }
      UpdateNodePoolResources(if id in nodes then Some(nodes[id]) else None, n);
      if n.Some? {
        nodes := nodes[id := n.value];
      } else {
        nodes := nodes - {id};
      }
    }

    method SetMark(id: string, marked: bool)
      requires Consistent()
      modifies this, nodePools
      ensures State() == old(State()).Mark(id, marked)
    {
      if id in nodes {
        var n := nodes[id].(marked := marked);
        Store(id, Some(n));
        if n.claim.Some? && (marked || !n.claim.value.deleting) {
          if marked {
            nodePools.MarkNodeClaimDeleting(n.claim.value.Pool(), n.claim.value.name);
          } else {
            nodePools.MarkNodeClaimActive(n.claim.value.Pool(), n.claim.value.name);
          }
        }
      }
    }

    method MarkForDeletion(ids: seq<string>)
      requires Consistent()
      modifies this, nodePools
      ensures State() == old(State()).MarkAll(ids, true) && Consistent()
    {
      MarkEach(ids, true);
    }

    method UnmarkForDeletion(ids: seq<string>)
      requires Consistent()
      modifies this, nodePools
      ensures State() == old(State()).MarkAll(ids, false) && Consistent()
    {
      MarkEach(ids, false);
    }

    method MarkEach(ids: seq<string>, marked: bool)
      requires Consistent()
      modifies this, nodePools
      ensures State() == old(State()).MarkAll(ids, marked) && Consistent()
    {
      ghost var before := State();
      var i := 0;
      while i < |ids|
        invariant 0 <= i <= |ids|
        invariant Consistent()
        invariant before.MarkAll(ids, marked) == State().MarkAll(ids[i..], marked)
      {
        ghost var here := State();
        SetMark(ids[i], marked);
        assert ids[i..][1..] == ids[i + 1..];
        StepKeepsInvariant(here, MarkEvent([ids[i]], marked));
        assert here.MarkAll([ids[i]], marked) == State() by {
          assert [ids[i]][1..] == [];
        }
        i := i + 1;
      }
      assert ids[|ids|..] == [];
    }

    method CleanupNodeClaim(name: string)
      requires Consistent()
      modifies this, nodePools
      ensures State() == old(State()).CleanupClaim(name) && Consistent()
    {
      ghost var v := State();
      var id := Lookup(claimIds, name, "");
      if id != "" {
        if nodes[id].node.None? {
          Store(id, None);
        } else {
          Store(id, Some(nodes[id].(claim := None)));
        }
      }
      claimIds := claimIds - {name};
      nodePools.Cleanup(name);
      StepKeepsInvariant(v, DeleteClaimEvent(name));
    }

    /** Puts the claim on its machine, after forgetting the machine it was on before. */
    method PlaceClaim(c: NodeClaim)
      requires Consistent()
      modifies this, nodePools
      ensures
        var v := old(State());
        State() == (if v.ClaimMoves(c) then v.CleanupClaim(c.name) else v).Put(c.providerID, v.WithClaim(c))
    {
      var was := Lookup(nodes, c.providerID, NEW_NODE);
      var n := was.(claim := Some(c), podDisruptionCosts := map[]);
      if c.name in claimIds && claimIds[c.name] != c.providerID {
        CleanupNodeClaim(c.name);
      }
      Store(c.providerID, Some(n));
    }

    method UpdateNodeClaim(c: NodeClaim)
      requires Consistent() && Admissible(State(), UpdateClaimEvent(c))
      modifies this, nodePools
      ensures State() == old(State()).UpdateNodeClaim(c) && Consistent()
    {
      ghost var v := State();
      if c.providerID != "" {
        PlaceClaim(c);
      }
      var marked := c.providerID in nodes && nodes[c.providerID].MarkedForDeletion();
      nodePools.UpdateNodeClaim(c.name, c.Pool(), marked);
      claimIds := claimIds[c.name := c.providerID];
      assert State() == v.UpdateNodeClaim(c);
      StepKeepsInvariant(v, UpdateClaimEvent(c));
    }

    method DeleteNodeClaim(name: string)
      requires Consistent()
      modifies this, nodePools
      ensures State() == old(State()).CleanupClaim(name) && Consistent()
      ensures name !in claimIds && forall id :: id in nodes ==> !HoldsClaim(nodes[id], name)
    {
      CleanupNodeClaim(name);
      assert forall id :: id in nodes ==> Reachable(nodes[id], id, nodeIds, claimIds);
    }

    method CleanupNode(name: string)
      requires Consistent()
      modifies this, nodePools
      ensures State() == old(State()).CleanupNode(name) && Consistent()
    {
      ghost var v := State();
      var id := Lookup(nodeIds, name, "");
      if id != "" {
        if nodes[id].claim.None? {
          Store(id, None);
        } else {
          Store(id, Some(nodes[id].(node := None)));
        }
        nodeIds := nodeIds - {name};
      }
      StepKeepsInvariant(v, DeleteNodeEvent(name));
    }

    method DeleteNode(name: string)
      requires Consistent()
      modifies this, nodePools
      ensures State() == old(State()).CleanupNode(name) && Consistent()
      ensures name !in nodeIds && forall id :: id in nodes ==> !HoldsNode(nodes[id], name)
    {
      ghost var v := State();
      CleanupNodeMaps(v, name);
      CleanupNode(name);
      assert forall id :: id in nodes ==> Reachable(nodes[id], id, nodeIds, claimIds);
    }

    /** cleanupOldBindings, then the new binding. */
    method Bind(pod: Pod)
      modifies this`nodes, this`bindings
      ensures State() == old(State()).Bind(pod)
    {
      if pod.key in bindings && bindings[pod.key] != pod.nodeName {
        var id := Lookup(nodeIds, bindings[pod.key], "");
        if id in nodes {
          nodes := nodes[id := nodes[id].Discharge(pod.key)];
          bindings := bindings - {pod.key};
        }
      }
      bindings := bindings[pod.key := pod.nodeName];
      assert bindings == old(bindings)[pod.key := pod.nodeName];
    }

    method PopulateResourceRequests(n: StateNode, pods: seq<Pod>) returns (charged: Option<StateNode>)
      modifies this`nodes, this`bindings
      ensures (State(), charged) == old(State()).Populate(n, pods)
    {
      ghost var before := State();
      var m := n;
      var i := 0;
      while i < |pods|
        invariant 0 <= i <= |pods|
        invariant before.Populate(n, pods) == State().Populate(m, pods[i..])
      {
        assert pods[i..][1..] == pods[i + 1..];
        if !pods[i].terminal {
          var next := m.Charge(pods[i]);
          if next.None? {
            return None;
          }
          m := next.value;
          Bind(pods[i]);
        }
        i := i + 1;
      }
      assert pods[|pods|..] == [];
      return Some(m);
    }

    /** Puts the machine of a node in place, after forgetting the machine it was on before. */
    method InstallNode(name: string, id: string, n: StateNode)
      requires Consistent()
      modifies this, nodePools
      ensures State() == old(State()).InstallNode(name, id, n)
    {
      if name in nodeIds && nodeIds[name] != id {
        CleanupNode(name);
      }
      Store(id, Some(n));
      nodeIds := nodeIds[name := id];
    }

    method UpdateNode(update: NodeUpdate)
      requires Consistent() && Admissible(State(), UpdateNodeEvent(update))
      modifies this, nodePools
      ensures State() == old(State()).UpdateNode(update) && Consistent()
    {
      ghost var v := State();
      StepKeepsInvariant(v, UpdateNodeEvent(update));
      if update.Skipped() {
        return;
      }
      var node := update.Resolved();
      var was := Lookup(nodes, node.providerID, NEW_NODE);
      var n := StateNode(Some(node), was.claim, map[], map[], map[], was.marked);
      var charged: Option<StateNode> := None;
      if update.listed {
        charged := PopulateResourceRequests(n, update.pods);
      }
      assert (State(), charged) == Prepared(v, update);
      if charged.Some? && update.limitsKnown {
        PreparedIsFine(v, update);
        InstallNode(node.name, node.providerID, charged.value);
      }
    }

    method CompletePod(key: PodKey)
      requires Consistent()
      modifies this, nodePools
      ensures State() == old(State()).CompletePod(key) && Consistent()
      ensures forall id :: id in nodes && nodes[id].node.Some? ==> key !in nodes[id].Charged()
    {
      ghost var v := State();
      StepKeepsInvariant(v, DeletePodEvent(key));
      CompletedPodGone(v, key);
      if key in bindings {
        var name := bindings[key];
        bindings := bindings - {key};
        var id := Lookup(nodeIds, name, "");
        if id in nodes {
          nodes := nodes[id := nodes[id].Discharge(key)];
        }
      }
      assert nodes == v.CompletePod(key).nodes;
    }

    method UpdatePod(pod: Pod)
      requires Consistent()
      modifies this, nodePools
      ensures State() == old(State()).UpdatePod(pod) && Consistent()
    {
      ghost var v := State();
      StepKeepsInvariant(v, UpdatePodEvent(pod));
      if pod.terminal {
        CompletePod(pod.key);
        return;
      }
      var id := Lookup(nodeIds, pod.nodeName, "");
      if pod.nodeName == "" || id !in nodes {
        return;
      }
      var charged := nodes[id].Charge(pod);
      if charged.None? {
        return;
      }
      nodes := nodes[id := charged.value];
      Bind(pod);
    }

    method DeletePod(key: PodKey)
      requires Consistent()
      modifies this, nodePools
      ensures State() == old(State()).CompletePod(key) && Consistent()
      ensures key !in bindings
      ensures forall id :: id in nodes && nodes[id].node.Some? ==> key !in nodes[id].Charged()
    {
      CompletePod(key);
    }
  }
}
