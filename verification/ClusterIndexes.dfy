/**
 The name indexes and the map of machines are mutually inverse in every reachable state, so no cleanup path
 looks up a machine that is not there. A claim update keeps them so exactly when its provider id is
 usable: not cleared, and not another claim's.
 */
module ClusterIndexes {
  import opened Common
  import opened StateNodes
  import opened NodePools
  import opened ClusterView

  type Machines = map<string, StateNode>
  type Ids = map<string, string>

  predicate HoldsNode(n: StateNode, name: string) {
    n.node.Some? && n.node.value.name == name
  }

  predicate HoldsClaim(n: StateNode, name: string) {
    n.claim.Some? && n.claim.value.name == name
  }

  /** The machine holds something, and both indexes lead back to it. */
  ghost predicate Reachable(n: StateNode, id: string, nodeIds: Ids, claimIds: Ids) {
    && (n.node.Some? || n.claim.Some?)
    && (n.node.Some? ==> n.node.value.name in nodeIds && nodeIds[n.node.value.name] == id)
    && (n.claim.Some? ==> n.claim.value.name in claimIds && claimIds[n.claim.value.name] == id)
  }

  ghost predicate NodeIdsLead(nodes: Machines, nodeIds: Ids) {
    forall name :: name in nodeIds ==> nodeIds[name] in nodes && HoldsNode(nodes[nodeIds[name]], name)
  }

  ghost predicate ClaimIdsLead(nodes: Machines, claimIds: Ids) {
    forall name :: name in claimIds && claimIds[name] != "" ==> claimIds[name] in nodes && HoldsClaim(nodes[claimIds[name]], name)
  }

  ghost predicate AllReachable(nodes: Machines, nodeIds: Ids, claimIds: Ids) {
    forall id :: id in nodes ==> Reachable(nodes[id], id, nodeIds, claimIds)
  }

  ghost predicate Inverse(nodes: Machines, nodeIds: Ids, claimIds: Ids) {
    "" !in nodes && NodeIdsLead(nodes, nodeIds) && ClaimIdsLead(nodes, claimIds) && AllReachable(nodes, nodeIds, claimIds)
  }

  ghost predicate Indexed(v: View) {
    Inverse(v.nodes, v.nodeIds, v.claimIds)
  }

  /** The provider id was not taken away from a launched claim, and no other claim has it. */
  ghost predicate ClaimIdUsable(v: View, c: NodeClaim) {
    if c.providerID == "" then
      c.name in v.claimIds ==> v.claimIds[c.name] == ""
    else
      c.providerID in v.nodes && v.nodes[c.providerID].claim.Some? ==> HoldsClaim(v.nodes[c.providerID], c.name)
  }

  /** No other node is tracked under the provider id. */
  ghost predicate NodeIdUsable(v: View, node: Node) {
    node.providerID in v.nodes && v.nodes[node.providerID].node.Some? ==> HoldsNode(v.nodes[node.providerID], node.name)
  }

  /* ----- what each operation does to the three maps ----- */

  function NodesWithoutClaim(nodes: Machines, id: string): Machines {
    if id !in nodes then nodes
    else if nodes[id].node.None? then nodes - {id}
    else nodes[id := nodes[id].(claim := None)]
  }

  function NodesWithoutNode(nodes: Machines, id: string): Machines {
    if id !in nodes then nodes
    else if nodes[id].claim.None? then nodes - {id}
    else nodes[id := nodes[id].(node := None)]
  }

  lemma StaysReachableWithoutClaim(nodes: Machines, nodeIds: Ids, claimIds: Ids, name: string, other: string)
    requires Inverse(nodes, nodeIds, claimIds) && other in NodesWithoutClaim(nodes, Lookup(claimIds, name, ""))
    ensures Reachable(NodesWithoutClaim(nodes, Lookup(claimIds, name, ""))[other], other, nodeIds, claimIds - {name})
  {
    assert Reachable(nodes[other], other, nodeIds, claimIds);
  }

  lemma ForgetClaim(nodes: Machines, nodeIds: Ids, claimIds: Ids, name: string)
    requires Inverse(nodes, nodeIds, claimIds)
    ensures Inverse(NodesWithoutClaim(nodes, Lookup(claimIds, name, "")), nodeIds, claimIds - {name})
  {
    var id := Lookup(claimIds, name, "");
    var after := NodesWithoutClaim(nodes, id);
    forall other | other in after
      ensures Reachable(after[other], other, nodeIds, claimIds - {name})
    {
      StaysReachableWithoutClaim(nodes, nodeIds, claimIds, name, other);
    }
    forall n | n in nodeIds
      ensures nodeIds[n] in after && HoldsNode(after[nodeIds[n]], n)
    {
      assert HoldsNode(nodes[nodeIds[n]], n);
    }
    ClaimIdsStayLeading(nodes, nodeIds, claimIds, name);
  }

  lemma ClaimIdsStayLeading(nodes: Machines, nodeIds: Ids, claimIds: Ids, name: string)
    requires Inverse(nodes, nodeIds, claimIds)
    ensures ClaimIdsLead(NodesWithoutClaim(nodes, Lookup(claimIds, name, "")), claimIds - {name})
  {
    var id := Lookup(claimIds, name, "");
    var after := NodesWithoutClaim(nodes, id);
    forall n | n in claimIds - {name} && claimIds[n] != ""
      ensures claimIds[n] in after && HoldsClaim(after[claimIds[n]], n)
    {
      assert HoldsClaim(nodes[claimIds[n]], n);
    }
  }

  lemma StaysReachableWithoutNode(nodes: Machines, nodeIds: Ids, claimIds: Ids, name: string, other: string)
    requires Inverse(nodes, nodeIds, claimIds) && other in NodesWithoutNode(nodes, Lookup(nodeIds, name, ""))
    ensures Reachable(NodesWithoutNode(nodes, Lookup(nodeIds, name, ""))[other], other, nodeIds - {name}, claimIds)
  {
    assert Reachable(nodes[other], other, nodeIds, claimIds);
    if name in nodeIds {
      assert HoldsNode(nodes[nodeIds[name]], name);
    }
  }

  lemma ForgetNode(nodes: Machines, nodeIds: Ids, claimIds: Ids, name: string)
    requires Inverse(nodes, nodeIds, claimIds)
    ensures Inverse(NodesWithoutNode(nodes, Lookup(nodeIds, name, "")), nodeIds - {name}, claimIds)
  {
    var id := Lookup(nodeIds, name, "");
    var after := NodesWithoutNode(nodes, id);
    forall other | other in after
      ensures Reachable(after[other], other, nodeIds - {name}, claimIds)
    {
      StaysReachableWithoutNode(nodes, nodeIds, claimIds, name, other);
    }
    forall n | n in claimIds && claimIds[n] != ""
      ensures claimIds[n] in after && HoldsClaim(after[claimIds[n]], n)
    {
      assert HoldsClaim(nodes[claimIds[n]], n);
    }
    NodeIdsStayLeading(nodes, nodeIds, claimIds, name);
  }

  lemma NodeIdsStayLeading(nodes: Machines, nodeIds: Ids, claimIds: Ids, name: string)
    requires Inverse(nodes, nodeIds, claimIds)
    ensures NodeIdsLead(NodesWithoutNode(nodes, Lookup(nodeIds, name, "")), nodeIds - {name})
  {
    var id := Lookup(nodeIds, name, "");
    var after := NodesWithoutNode(nodes, id);
    forall n | n in nodeIds - {name}
      ensures nodeIds[n] in after && HoldsNode(after[nodeIds[n]], n)
    {
      assert HoldsNode(nodes[nodeIds[n]], n);
    }
  }

  lemma InstallClaim(nodes: Machines, nodeIds: Ids, claimIds: Ids, id: string, n: StateNode)
    requires Inverse(nodes, nodeIds, claimIds) && id != "" && n.claim.Some?
    requires n.claim.value.name in claimIds ==> claimIds[n.claim.value.name] == id
    requires n.node == Lookup(nodes, id, NEW_NODE).node
    requires id in nodes && nodes[id].claim.Some? ==> HoldsClaim(nodes[id], n.claim.value.name)
    ensures Inverse(nodes[id := n], nodeIds, claimIds[n.claim.value.name := id])
  {
    var after, ids := nodes[id := n], claimIds[n.claim.value.name := id];
    forall other | other in after
      ensures Reachable(after[other], other, nodeIds, ids)
    {
      assert other in nodes ==> Reachable(nodes[other], other, nodeIds, claimIds);
    }
    forall name | name in nodeIds
      ensures nodeIds[name] in after && HoldsNode(after[nodeIds[name]], name)
    {
      assert HoldsNode(nodes[nodeIds[name]], name);
    }
    forall name | name in ids && ids[name] != ""
      ensures ids[name] in after && HoldsClaim(after[ids[name]], name)
    {
      assert name != n.claim.value.name ==> HoldsClaim(nodes[claimIds[name]], name);
    }
  }

  lemma InstallNodeMaps(nodes: Machines, nodeIds: Ids, claimIds: Ids, id: string, n: StateNode)
    requires Inverse(nodes, nodeIds, claimIds) && id != "" && n.node.Some?
    requires n.node.value.name in nodeIds ==> nodeIds[n.node.value.name] == id
    requires n.claim == Lookup(nodes, id, NEW_NODE).claim
    requires id in nodes && nodes[id].node.Some? ==> HoldsNode(nodes[id], n.node.value.name)
    ensures Inverse(nodes[id := n], nodeIds[n.node.value.name := id], claimIds)
  {
    var after, ids := nodes[id := n], nodeIds[n.node.value.name := id];
    forall other | other in after
      ensures Reachable(after[other], other, ids, claimIds)
    {
      assert other in nodes ==> Reachable(nodes[other], other, nodeIds, claimIds);
    }
    forall name | name in claimIds && claimIds[name] != ""
      ensures claimIds[name] in after && HoldsClaim(after[claimIds[name]], name)
    {
      assert HoldsClaim(nodes[claimIds[name]], name);
    }
    forall name | name in ids
      ensures ids[name] in after && HoldsNode(after[ids[name]], name)
    {
      assert name != n.node.value.name ==> HoldsNode(nodes[nodeIds[name]], name);
    }
  }

  lemma CleanupClaimMaps(v: View, name: string)
    requires "" !in v.nodes
    ensures
      var after := v.CleanupClaim(name);
      && after.nodes == NodesWithoutClaim(v.nodes, Lookup(v.claimIds, name, ""))
      && after.claimIds == v.claimIds - {name} && after.nodeIds == v.nodeIds && after.bindings == v.bindings
  {
  }

  lemma CleanupNodeMaps(v: View, name: string)
    requires "" !in v.nodes
    requires name in v.nodeIds ==> v.nodeIds[name] in v.nodes
    ensures
      var after := v.CleanupNode(name);
      && after.nodes == NodesWithoutNode(v.nodes, Lookup(v.nodeIds, name, ""))
      && after.nodeIds == v.nodeIds - {name} && after.claimIds == v.claimIds && after.bindings == v.bindings
  {
  }

  ghost function MovedClaim(v: View, c: NodeClaim): View {
    if v.ClaimMoves(c) then v.CleanupClaim(c.name) else v
  }

  lemma MovedClaimMaps(v: View, c: NodeClaim)
    requires Indexed(v) && c.providerID != ""
    ensures Indexed(MovedClaim(v, c))
    ensures MovedClaim(v, c).nodeIds == v.nodeIds && MovedClaim(v, c).bindings == v.bindings
    ensures c.name in MovedClaim(v, c).claimIds ==> MovedClaim(v, c).claimIds[c.name] == c.providerID
    ensures MovedClaim(v, c).Find(c.providerID) == v.Find(c.providerID)
    ensures forall other :: other != c.name && other in v.claimIds ==>
      other in MovedClaim(v, c).claimIds && MovedClaim(v, c).claimIds[other] == v.claimIds[other]
  {
    if v.ClaimMoves(c) {
      CleanupClaimMaps(v, c.name);
      ForgetClaim(v.nodes, v.nodeIds, v.claimIds, c.name);
    }
  }

  lemma ClaimUpdateMaps(v: View, c: NodeClaim)
    ensures
      var after := v.UpdateNodeClaim(c);
      var base := if c.providerID == "" then v else MovedClaim(v, c);
      && after.nodes == (if c.providerID == "" then v.nodes else base.nodes[c.providerID := v.WithClaim(c)])
      && after.nodeIds == base.nodeIds && after.claimIds == base.claimIds[c.name := c.providerID]
      && after.bindings == base.bindings
  {
  }

  /** A claim update keeps the indexes inverse if and only if the claim's provider id is usable. */
  lemma ClaimUpdateKeepsIndexesIff(v: View, c: NodeClaim)
    requires Indexed(v)
    ensures Indexed(v.UpdateNodeClaim(c)) <==> ClaimIdUsable(v, c)
  {
    ClaimUpdateMaps(v, c);
    if c.providerID == "" {
      ClearedIdKeepsInverseIff(v.nodes, v.nodeIds, v.claimIds, c.name);
    } else {
      MovedClaimMaps(v, c);
      var base := MovedClaim(v, c);
      if ClaimIdUsable(v, c) {
        InstallClaim(base.nodes, base.nodeIds, base.claimIds, c.providerID, v.WithClaim(c));
      } else {
        TakenIdBreaksIndexes(v, c);
      }
    }
  }

  lemma ClearedIdKeepsInverseIff(nodes: Machines, nodeIds: Ids, claimIds: Ids, name: string)
    requires Inverse(nodes, nodeIds, claimIds)
    ensures Inverse(nodes, nodeIds, claimIds[name := ""]) <==> Lookup(claimIds, name, "") == ""
  {
    var id := Lookup(claimIds, name, "");
    if id != "" {
      assert HoldsClaim(nodes[id], name);
      assert !Reachable(nodes[id], id, nodeIds, claimIds[name := ""]);
    } else {
      forall other | other in nodes
        ensures Reachable(nodes[other], other, nodeIds, claimIds[name := ""])
      {
        assert Reachable(nodes[other], other, nodeIds, claimIds);
      }
    }
  }

  lemma TakenIdBreaksIndexes(v: View, c: NodeClaim)
    requires Indexed(v) && c.providerID != "" && !ClaimIdUsable(v, c)
    ensures !Indexed(v.UpdateNodeClaim(c))
  {
    ClaimUpdateMaps(v, c);
    MovedClaimMaps(v, c);
    var id, after := c.providerID, v.UpdateNodeClaim(c);
    var other := v.nodes[id].claim.value.name;
    assert Reachable(v.nodes[id], id, v.nodeIds, v.claimIds);
    assert after.claimIds[other] == id && !HoldsClaim(after.nodes[id], other);
  }

  lemma ClaimDeleteKeepsIndexes(v: View, name: string)
    requires Indexed(v)
    ensures Indexed(v.CleanupClaim(name))
  {
    CleanupClaimMaps(v, name);
    ForgetClaim(v.nodes, v.nodeIds, v.claimIds, name);
  }

  lemma NodeDeleteKeepsIndexes(v: View, name: string)
    requires Indexed(v)
    ensures Indexed(v.CleanupNode(name))
  {
    CleanupNodeMaps(v, name);
    ForgetNode(v.nodes, v.nodeIds, v.claimIds, name);
  }

  /* ----- pods do not move machines ----- */

  predicate SameObjects(n: StateNode, m: StateNode) {
    n.node == m.node && n.claim == m.claim && n.marked == m.marked
  }

  /** Two states that differ only in what is charged to machines and in the bindings. */
  ghost predicate SameMachines(v: View, w: View) {
    && v.nodeIds == w.nodeIds && v.claimIds == w.claimIds && v.totals == w.totals && v.pools == w.pools
    && v.nodes.Keys == w.nodes.Keys
    && (forall id :: id in v.nodes ==> SameObjects(v.nodes[id], w.nodes[id]))
  }

  lemma DischargeKeepsMachines(v: View, name: string, pod: PodKey)
    ensures SameMachines(v, v.DischargeFrom(name, pod))
  {
    var id, after := Lookup(v.nodeIds, name, ""), v.DischargeFrom(name, pod);
    if id in v.nodes {
      assert after.nodes == v.nodes[id := v.nodes[id].Discharge(pod)];
    }
  }

  lemma BindKeepsMachines(v: View, pod: Pod)
    ensures SameMachines(v, v.Bind(pod))
  {
    if pod.key in v.bindings {
      DischargeKeepsMachines(v, v.bindings[pod.key], pod.key);
    }
  }

  lemma {:induction false} PopulateKeepsMachines(v: View, n: StateNode, pods: seq<Pod>)
    ensures SameMachines(v, v.Populate(n, pods).0)
    ensures v.Populate(n, pods).1.Some? ==> SameObjects(n, v.Populate(n, pods).1.value)
    decreases |pods|
  {
    if pods == [] {
    } else if pods[0].terminal {
      PopulateKeepsMachines(v, n, pods[1..]);
    } else if n.Charge(pods[0]).Some? {
      var w, m := v.Bind(pods[0]), n.Charge(pods[0]).value;
      assert v.Populate(n, pods) == w.Populate(m, pods[1..]);
      BindKeepsMachines(v, pods[0]);
      PopulateKeepsMachines(w, m, pods[1..]);
      SameMachinesTrans(v, w, w.Populate(m, pods[1..]).0);
    }
  }

  lemma ChargeKeepsMachines(v: View, id: string, pod: Pod)
    requires id in v.nodes && v.nodes[id].Charge(pod).Some?
    ensures SameMachines(v, v.(nodes := v.nodes[id := v.nodes[id].Charge(pod).value]))
  {
    assert SameObjects(v.nodes[id], v.nodes[id].Charge(pod).value);
  }

  lemma SameMachinesTrans(u: View, v: View, w: View)
    requires SameMachines(u, v) && SameMachines(v, w)
    ensures SameMachines(u, w)
  {
  }

  lemma PodUpdateKeepsMachines(v: View, pod: Pod)
    ensures SameMachines(v, v.UpdatePod(pod))
  {
    var id := Lookup(v.nodeIds, pod.nodeName, "");
    if pod.terminal {
      if pod.key in v.bindings {
        DischargeKeepsMachines(v, v.bindings[pod.key], pod.key);
      }
    } else if pod.nodeName != "" && id in v.nodes && v.nodes[id].Charge(pod).Some? {
      var charged := v.(nodes := v.nodes[id := v.nodes[id].Charge(pod).value]);
      ChargeKeepsMachines(v, id, pod);
      BindKeepsMachines(charged, pod);
      SameMachinesTrans(v, charged, charged.Bind(pod));
    }
  }

  lemma SameMachinesKeepIndexes(v: View, w: View)
    requires Indexed(v) && SameMachines(v, w)
    ensures Indexed(w)
  {
    forall id | id in w.nodes
      ensures Reachable(w.nodes[id], id, w.nodeIds, w.claimIds)
    {
      assert Reachable(v.nodes[id], id, v.nodeIds, v.claimIds);
    }
  }

  /* ----- nodes ----- */

  ghost function MovedNode(v: View, name: string, id: string): View {
    if v.NodeMoves(name, id) then v.CleanupNode(name) else v
  }

  lemma MovedNodeMaps(v: View, name: string, id: string)
    requires Indexed(v) && id != ""
    ensures Indexed(MovedNode(v, name, id))
    ensures MovedNode(v, name, id).claimIds == v.claimIds && MovedNode(v, name, id).bindings == v.bindings
    ensures name in MovedNode(v, name, id).nodeIds ==> MovedNode(v, name, id).nodeIds[name] == id
    ensures MovedNode(v, name, id).Find(id) == v.Find(id)
    ensures forall other :: other != name && other in v.nodeIds ==>
      other in MovedNode(v, name, id).nodeIds && MovedNode(v, name, id).nodeIds[other] == v.nodeIds[other]
  {
    if v.NodeMoves(name, id) {
      CleanupNodeMaps(v, name);
      ForgetNode(v.nodes, v.nodeIds, v.claimIds, name);
    }
  }

  lemma InstallMaps(v: View, name: string, id: string, n: StateNode)
    ensures
      var after := v.InstallNode(name, id, n);
      var base := MovedNode(v, name, id);
      && after.nodes == base.nodes[id := n] && after.nodeIds == base.nodeIds[name := id]
      && after.claimIds == base.claimIds && after.bindings == base.bindings
  {
  }

  /** The machine is what a node update builds at the node's provider id. */
  ghost predicate Rebuilt(v: View, n: StateNode) {
    && n.node.Some? && n.node.value.providerID != ""
    && SameObjects(n, v.WithNode(n.node.value, n.node.value.providerID))
  }

  /** Installing a node keeps the indexes inverse if and only if no other node has its provider id. */
  lemma InstallKeepsIndexesIff(v: View, n: StateNode)
    requires Indexed(v) && Rebuilt(v, n)
    ensures Indexed(v.InstallNode(n.node.value.name, n.node.value.providerID, n)) <==> NodeIdUsable(v, n.node.value)
  {
    var node := n.node.value;
    var id := node.providerID;
    var after, base := v.InstallNode(node.name, id, n), MovedNode(v, node.name, id);
    InstallMaps(v, node.name, id, n);
    MovedNodeMaps(v, node.name, id);
    if NodeIdUsable(v, node) {
      InstallNodeMaps(base.nodes, base.nodeIds, base.claimIds, id, n);
    } else {
      var other := v.nodes[id].node.value.name;
      assert Reachable(v.nodes[id], id, v.nodeIds, v.claimIds);
      assert after.nodeIds[other] == id && !HoldsNode(after.nodes[id], other);
    }
  }

  /** What UpdateNode has before it installs the machine: bindings brought up to date, and the rebuilt machine if all went well. */
  ghost function Prepared(v: View, update: NodeUpdate): (View, Option<StateNode>) {
    var node := update.Resolved();
    if update.listed then v.Populate(v.WithNode(node, node.providerID), update.pods) else (v, None)
  }

  lemma PreparedKeepsMachines(v: View, update: NodeUpdate)
    ensures SameMachines(v, Prepared(v, update).0)
    ensures Prepared(v, update).1.Some? ==>
      SameObjects(Prepared(v, update).1.value, v.WithNode(update.Resolved(), update.Resolved().providerID))
  {
    if update.listed {
      var node := update.Resolved();
      PopulateKeepsMachines(v, v.WithNode(node, node.providerID), update.pods);
    }
  }

  lemma NodeUpdateKeepsIndexes(v: View, update: NodeUpdate)
    requires Indexed(v) && update.node.name != "" && NodeIdUsable(v, update.Resolved())
    ensures Indexed(v.UpdateNode(update))
  {
    if !update.Skipped() {
      var (w, n) := Prepared(v, update);
      PreparedKeepsMachines(v, update);
      SameMachinesKeepIndexes(v, w);
      if n.Some? && update.limitsKnown {
        assert Rebuilt(w, n.value);
        InstallKeepsIndexesIff(w, n.value);
      }
    }
  }

  lemma MarkMaps(v: View, id: string, marked: bool)
    ensures
      var after := v.Mark(id, marked);
      && after.nodes == (if id in v.nodes then v.nodes[id := v.nodes[id].(marked := marked)] else v.nodes)
      && after.nodeIds == v.nodeIds && after.claimIds == v.claimIds && after.bindings == v.bindings
  {
  }

  lemma MarkKeepsIndexes(v: View, id: string, marked: bool)
    requires Indexed(v)
    ensures Indexed(v.Mark(id, marked))
  {
    MarkMaps(v, id, marked);
    var after := v.Mark(id, marked);
    forall i | i in after.nodes
      ensures Reachable(after.nodes[i], i, after.nodeIds, after.claimIds)
    {
      assert Reachable(v.nodes[i], i, v.nodeIds, v.claimIds);
    }
  }

  /** Each machine is the only one of its node name and of its claim name. */
  lemma NamesAreUnique(v: View, a: string, b: string)
    requires Indexed(v) && a in v.nodes && b in v.nodes && a != b
    ensures v.nodes[a].node.Some? ==> !HoldsNode(v.nodes[b], v.nodes[a].node.value.name)
    ensures v.nodes[a].claim.Some? ==> !HoldsClaim(v.nodes[b], v.nodes[a].claim.value.name)
  {
    assert Reachable(v.nodes[a], a, v.nodeIds, v.claimIds);
    assert Reachable(v.nodes[b], b, v.nodeIds, v.claimIds);
  }
}
