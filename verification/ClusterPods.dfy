/**
 Pod bookkeeping: a pod charged to a live machine is bound to that machine's node, in every reachable state and
 also after a node rebuild that failed half way. So no pod is charged twice, and completing a pod
 clears its charge everywhere.
 */
module ClusterPods {
  import opened Common
  import opened StateNodes
  import opened NodePools
  import opened ClusterView
  import opened ClusterIndexes

  type Bindings = map<PodKey, string>

  ghost predicate ChargesBound(n: StateNode, name: string, bindings: Bindings) {
    forall pod :: pod in n.Charged() ==> pod in bindings && bindings[pod] == name
  }

  ghost predicate LiveChargesBound(nodes: Machines, bindings: Bindings) {
    forall id :: id in nodes && nodes[id].node.Some? ==> ChargesBound(nodes[id], nodes[id].node.value.name, bindings)
  }

  ghost predicate Bound(v: View) {
    LiveChargesBound(v.nodes, v.bindings)
  }

  /** No pod is charged to two live machines. */
  lemma NoDoubleCharge(v: View, a: string, b: string, pod: PodKey)
    requires Indexed(v) && Bound(v)
    requires a in v.nodes && v.nodes[a].node.Some? && pod in v.nodes[a].Charged()
    requires b in v.nodes && v.nodes[b].node.Some? && pod in v.nodes[b].Charged()
    ensures a == b
  {
    assert v.bindings[pod] == v.nodes[a].node.value.name == v.nodes[b].node.value.name;
    if a != b {
      NamesAreUnique(v, a, b);
    }
  }

  lemma ChargeCharges(n: StateNode, pod: Pod)
    requires n.Charge(pod).Some?
    ensures n.Charge(pod).value.Charged() <= n.Charged() + {pod.key}
    ensures pod.key in n.Charge(pod).value.Charged()
    ensures SameObjects(n, n.Charge(pod).value)
  {
  }

  lemma DischargeDischarges(n: StateNode, pod: PodKey)
    ensures n.Discharge(pod).Charged() == n.Charged() - {pod}
    ensures SameObjects(n, n.Discharge(pod))
  {
  }

  ghost predicate ChargesBoundBut(n: StateNode, name: string, bindings: Bindings, pod: Pod) {
    forall key :: key in n.Charged() && !(key == pod.key && name == pod.nodeName) ==> key in bindings && bindings[key] == name
  }

  /** Everything charged to live machines is bound where it is charged, except possibly `pod` on its own new node. */
  ghost predicate BoundBut(v: View, pod: Pod) {
    forall id :: id in v.nodes && v.nodes[id].node.Some? ==> ChargesBoundBut(v.nodes[id], v.nodes[id].node.value.name, v.bindings, pod)
  }

  /** The index leads from a live machine's node name back to the machine. */
  lemma LeadsBack(v: View, id: string)
    requires Indexed(v) && id in v.nodes && v.nodes[id].node.Some?
    ensures Lookup(v.nodeIds, v.nodes[id].node.value.name, "") == id
  {
    assert Reachable(v.nodes[id], id, v.nodeIds, v.claimIds);
  }

  /** What discharging a pod from the node it is bound to does to one live machine. */
  lemma DischargeAt(v: View, pod: PodKey, name: string, id: string)
    requires id in v.nodes && v.nodes[id].node.Some?
    requires Lookup(v.nodeIds, v.nodes[id].node.value.name, "") == id
    ensures id in v.DischargeFrom(name, pod).nodes && SameObjects(v.nodes[id], v.DischargeFrom(name, pod).nodes[id])
    ensures v.DischargeFrom(name, pod).nodes[id].Charged() <= v.nodes[id].Charged()
    ensures v.nodes[id].Charged() <= v.DischargeFrom(name, pod).nodes[id].Charged() + {pod}
    ensures v.nodes[id].node.value.name == name ==> pod !in v.DischargeFrom(name, pod).nodes[id].Charged()
  {
    DischargeDischarges(v.nodes[id], pod);
  }

  /** Once a machine that the pod left no longer has it, the new binding covers what is charged to it. */
  lemma RestoredCharges(n: StateNode, m: StateNode, name: string, bindings: Bindings, pod: Pod)
    requires ChargesBoundBut(n, name, bindings, pod) && m.Charged() <= n.Charged()
    requires pod.key in bindings && bindings[pod.key] == name && name != pod.nodeName ==> pod.key !in m.Charged()
    ensures ChargesBound(m, name, bindings[pod.key := pod.nodeName])
  {
  }

  lemma BindRestoresAt(v: View, pod: Pod, id: string)
    requires id in v.nodes && v.nodes[id].node.Some? && Lookup(v.nodeIds, v.nodes[id].node.value.name, "") == id
    requires ChargesBoundBut(v.nodes[id], v.nodes[id].node.value.name, v.bindings, pod)
    ensures id in v.Bind(pod).nodes && SameObjects(v.nodes[id], v.Bind(pod).nodes[id])
    ensures ChargesBound(v.Bind(pod).nodes[id], v.nodes[id].node.value.name, v.bindings[pod.key := pod.nodeName])
  {
    if pod.key in v.bindings && v.bindings[pod.key] != pod.nodeName {
      DischargeAt(v, pod.key, v.bindings[pod.key], id);
    }
    RestoredCharges(v.nodes[id], v.Bind(pod).nodes[id], v.nodes[id].node.value.name, v.bindings, pod);
  }

  lemma BindRestores(v: View, pod: Pod)
    requires Indexed(v) && BoundBut(v, pod)
    ensures Bound(v.Bind(pod))
    ensures v.Bind(pod).bindings == v.bindings[pod.key := pod.nodeName]
  {
    var after := v.Bind(pod);
    BindKeepsMachines(v, pod);
    forall id | id in after.nodes && after.nodes[id].node.Some?
      ensures ChargesBound(after.nodes[id], after.nodes[id].node.value.name, after.bindings)
    {
      assert SameObjects(v.nodes[id], after.nodes[id]);
      LeadsBack(v, id);
      BindRestoresAt(v, pod, id);
    }
  }

  lemma {:induction false} PopulateKeepsBound(v: View, n: StateNode, pods: seq<Pod>)
    requires Indexed(v) && Bound(v)
    requires n.node.Some? && ChargesBound(n, n.node.value.name, v.bindings)
    requires forall pod :: pod in pods ==> pod.nodeName == n.node.value.name
    ensures Bound(v.Populate(n, pods).0)
    ensures v.Populate(n, pods).1.Some? ==>
      ChargesBound(v.Populate(n, pods).1.value, n.node.value.name, v.Populate(n, pods).0.bindings)
    decreases |pods|
  {
    if pods == [] {
    } else if pods[0].terminal {
      PopulateKeepsBound(v, n, pods[1..]);
    } else if n.Charge(pods[0]).Some? {
      assert pods[0] in pods;
      BindRestores(v, pods[0]);
      BindKeepsMachines(v, pods[0]);
      SameMachinesKeepIndexes(v, v.Bind(pods[0]));
      ChargeCharges(n, pods[0]);
      PopulateKeepsBound(v.Bind(pods[0]), n.Charge(pods[0]).value, pods[1..]);
    }
  }

  /** Also when the rebuild fails after some pods were re-bound. */
  lemma NodeUpdateKeepsBound(v: View, update: NodeUpdate)
    requires Indexed(v) && Bound(v) && update.node.name != ""
    requires forall pod :: pod in update.pods ==> pod.nodeName == update.node.name
    ensures Bound(v.UpdateNode(update))
  {
    if !update.Skipped() {
      var node := update.Resolved();
      var (w, n) := Prepared(v, update);
      if update.listed {
        PopulateKeepsBound(v, v.WithNode(node, node.providerID), update.pods);
      }
      PreparedKeepsMachines(v, update);
      SameMachinesKeepIndexes(v, w);
      if n.Some? && update.limitsKnown {
        InstallMaps(w, node.name, node.providerID, n.value);
        if w.NodeMoves(node.name, node.providerID) {
          NodeCleanupKeepsBound(w, node.name);
          CleanupNodeMaps(w, node.name);
        }
        InstallBound(MovedNode(w, node.name, node.providerID), node.providerID, n.value);
      }
    }
  }

  lemma InstallBound(v: View, id: string, n: StateNode)
    requires Bound(v) && n.node.Some? ==> ChargesBound(n, n.node.value.name, v.bindings)
    requires Bound(v)
    ensures LiveChargesBound(v.nodes[id := n], v.bindings)
  {
  }

  lemma NodeCleanupKeepsBound(v: View, name: string)
    requires Indexed(v) && Bound(v)
    ensures Bound(v.CleanupNode(name))
  {
    CleanupNodeMaps(v, name);
  }

  lemma ClaimCleanupKeepsBound(v: View, name: string)
    requires Indexed(v) && Bound(v)
    ensures Bound(v.CleanupClaim(name))
  {
    CleanupClaimMaps(v, name);
    var id := Lookup(v.claimIds, name, "");
    if id in v.nodes && v.nodes[id].node.Some? {
      InstallBound(v, id, v.nodes[id].(claim := None));
    }
  }

  lemma ClaimUpdateKeepsBound(v: View, c: NodeClaim)
    requires Indexed(v) && Bound(v)
    ensures Bound(v.UpdateNodeClaim(c))
  {
    ClaimUpdateMaps(v, c);
    if c.providerID != "" {
      ClaimCleanupKeepsBound(v, c.name);
      MovedClaimMaps(v, c);
      InstallBound(MovedClaim(v, c), c.providerID, v.WithClaim(c));
    }
  }

  /** The state between charging a pod to its node and recording the binding. */
  ghost function ChargedAt(v: View, id: string, pod: Pod): View
    requires id in v.nodes && v.nodes[id].Charge(pod).Some?
  {
    v.(nodes := v.nodes[id := v.nodes[id].Charge(pod).value])
  }

  lemma ChargedAtIsBoundBut(v: View, id: string, pod: Pod)
    requires Bound(v) && id in v.nodes && v.nodes[id].Charge(pod).Some? && HoldsNode(v.nodes[id], pod.nodeName)
    ensures BoundBut(ChargedAt(v, id, pod), pod)
    ensures SameMachines(v, ChargedAt(v, id, pod))
  {
    ChargeCharges(v.nodes[id], pod);
    var charged := ChargedAt(v, id, pod);
    forall other | other in charged.nodes && charged.nodes[other].node.Some?
      ensures ChargesBoundBut(charged.nodes[other], charged.nodes[other].node.value.name, charged.bindings, pod)
    {
      assert ChargesBound(v.nodes[other], v.nodes[other].node.value.name, v.bindings);
    }
  }

  lemma BindPodKeepsBound(v: View, pod: Pod)
    requires Indexed(v) && Bound(v)
    ensures Bound(v.BindPod(pod))
  {
    var id := Lookup(v.nodeIds, pod.nodeName, "");
    if pod.nodeName != "" && id in v.nodes && v.nodes[id].Charge(pod).Some? {
      assert pod.nodeName in v.nodeIds && HoldsNode(v.nodes[id], pod.nodeName);
      ChargedAtIsBoundBut(v, id, pod);
      SameMachinesKeepIndexes(v, ChargedAt(v, id, pod));
      BindRestores(ChargedAt(v, id, pod), pod);
      assert v.BindPod(pod) == ChargedAt(v, id, pod).Bind(pod);
    }
  }

  lemma PodUpdateKeepsBound(v: View, pod: Pod)
    requires Indexed(v) && Bound(v)
    ensures Bound(v.UpdatePod(pod))
  {
    if pod.terminal {
      CompletePodKeepsBound(v, pod.key);
    } else {
      BindPodKeepsBound(v, pod);
    }
  }

  /** Discharging a pod where it is bound takes it off every live machine, and takes nothing else off. */
  lemma DischargeWhereBound(v: View, pod: PodKey, id: string)
    requires Indexed(v) && Bound(v) && pod in v.bindings && id in v.nodes && v.nodes[id].node.Some?
    ensures id in v.DischargeFrom(v.bindings[pod], pod).nodes
    ensures v.DischargeFrom(v.bindings[pod], pod).nodes[id].Charged() == v.nodes[id].Charged() - {pod}
  {
    LeadsBack(v, id);
    DischargeAt(v, pod, v.bindings[pod], id);
    assert ChargesBound(v.nodes[id], v.nodes[id].node.value.name, v.bindings);
  }

  /** Completing or deleting a pod leaves its charge on no live machine, and touches no other charge or binding. */
  lemma CompletedPodIsNowhere(v: View, pod: PodKey)
    requires Indexed(v) && Bound(v)
    ensures v.CompletePod(pod).bindings == v.bindings - {pod}
    ensures forall id :: id in v.nodes && v.nodes[id].node.Some? ==>
      id in v.CompletePod(pod).nodes && v.CompletePod(pod).nodes[id].Charged() == v.nodes[id].Charged() - {pod}
  {
    if pod in v.bindings {
      assert v.CompletePod(pod).nodes == v.DischargeFrom(v.bindings[pod], pod).nodes;
      forall id | id in v.nodes && v.nodes[id].node.Some?
        ensures id in v.CompletePod(pod).nodes && v.CompletePod(pod).nodes[id].Charged() == v.nodes[id].Charged() - {pod}
      {
        DischargeWhereBound(v, pod, id);
      }
    } else {
      forall id | id in v.nodes && v.nodes[id].node.Some?
        ensures pod !in v.nodes[id].Charged()
      {
        assert ChargesBound(v.nodes[id], v.nodes[id].node.value.name, v.bindings);
      }
    }
  }

  lemma CompletePodKeepsMachines(v: View, pod: PodKey)
    ensures SameMachines(v, v.CompletePod(pod))
  {
    if pod in v.bindings {
      DischargeKeepsMachines(v, v.bindings[pod], pod);
    }
  }

  lemma CompletedPodGone(v: View, pod: PodKey)
    requires Indexed(v) && Bound(v)
    ensures
      var after := v.CompletePod(pod);
      forall id :: id in after.nodes && after.nodes[id].node.Some? ==> pod !in after.nodes[id].Charged()
  {
    CompletedPodIsNowhere(v, pod);
    CompletePodKeepsMachines(v, pod);
    var after := v.CompletePod(pod);
    forall id | id in after.nodes && after.nodes[id].node.Some?
      ensures pod !in after.nodes[id].Charged()
    {
      assert SameObjects(v.nodes[id], after.nodes[id]);
    }
  }

  lemma CompletePodKeepsBound(v: View, pod: PodKey)
    requires Indexed(v) && Bound(v)
    ensures Bound(v.CompletePod(pod))
  {
    CompletedPodIsNowhere(v, pod);
    CompletePodKeepsMachines(v, pod);
    var after := v.CompletePod(pod);
    forall id | id in after.nodes && after.nodes[id].node.Some?
      ensures ChargesBound(after.nodes[id], after.nodes[id].node.value.name, after.bindings)
    {
      assert SameObjects(v.nodes[id], after.nodes[id]);
      assert ChargesBound(v.nodes[id], v.nodes[id].node.value.name, v.bindings);
    }
  }

  lemma MarkKeepsBound(v: View, id: string, marked: bool)
    requires Bound(v)
    ensures Bound(v.Mark(id, marked))
  {
    MarkMaps(v, id, marked);
    if id in v.nodes {
      InstallBound(v, id, v.nodes[id].(marked := marked));
    }
  }
}
