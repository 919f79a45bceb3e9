/**
 What each event leaves behind, told without the functions that perform it: which machines there are, which objects they
 hold, and which pods are charged to them.
 */
module ClusterEffects {
  import opened Common
  import opened StateNodes
  import opened NodePools
  import opened ClusterView
  import opened ClusterIndexes
  import opened ClusterPods

  function Get<K, V>(m: map<K, V>, k: K): Option<V> {
    if k in m then Some(m[k]) else None
  }

  /* ----- one machine and one pod ----- */

  /** The tables say the same of every pod but those of `keys`. */
  ghost predicate SameButFor(n: StateNode, m: StateNode, keys: set<PodKey>) {
    && n.podRequests - keys == m.podRequests - keys && n.daemonSetRequests - keys == m.daemonSetRequests - keys
    && n.podDisruptionCosts - keys == m.podDisruptionCosts - keys
  }

  /** The pod's requests are on the machine, and in the daemon table if it is a daemon pod; otherwise its cost is, if it has one. */
  ghost predicate Charges(n: StateNode, m: StateNode, pod: Pod) {
    && SameObjects(n, m) && SameButFor(n, m, {pod.key})
    && Get(m.podRequests, pod.key) == Some(pod.requests)
    && Get(m.daemonSetRequests, pod.key) == (if pod.daemon then Some(pod.requests) else Get(n.daemonSetRequests, pod.key))
    && Get(m.podDisruptionCosts, pod.key) ==
         (if pod.daemon then Get(n.podDisruptionCosts, pod.key) else if pod.evictionCost > 0.0 then Some(pod.evictionCost) else None)
  }

  /** The pods are on the machine no longer. */
  ghost predicate Discharges(n: StateNode, m: StateNode, keys: set<PodKey>) {
    SameObjects(n, m) && SameButFor(n, m, keys) && keys !! m.Charged()
  }

  lemma ChargeMeaning(n: StateNode, pod: Pod)
    ensures n.Charge(pod).Some? <==> pod.volumesKnown
    ensures pod.volumesKnown ==> Charges(n, n.Charge(pod).value, pod)
  {
    if pod.volumesKnown {
      var m := n.Charge(pod).value;
      assert n.podRequests - {pod.key} == m.podRequests - {pod.key};
      assert n.daemonSetRequests - {pod.key} == m.daemonSetRequests - {pod.key};
      assert n.podDisruptionCosts - {pod.key} == m.podDisruptionCosts - {pod.key};
    }
  }

  lemma DischargeMeaning(n: StateNode, key: PodKey)
    ensures Discharges(n, n.Discharge(key), {key})
  {
    var m := n.Discharge(key);
    assert n.podRequests - {key} == m.podRequests - {key};
    assert n.daemonSetRequests - {key} == m.daemonSetRequests - {key};
    assert n.podDisruptionCosts - {key} == m.podDisruptionCosts - {key};
  }

  lemma NotChargedDischarges(n: StateNode, keys: set<PodKey>)
    requires keys !! n.Charged()
    ensures Discharges(n, n, keys)
  {
  }

  /* ----- a pod is updated ----- */

  /** The pod is scheduled to a node that is tracked, and its volumes are known. */
  ghost predicate TakesPod(v: View, pod: Pod) {
    pod.nodeName != "" && pod.volumesKnown && exists id :: id in v.nodes && HoldsNode(v.nodes[id], pod.nodeName)
  }

  lemma Holder(v: View, name: string, id: string)
    requires Indexed(v) && id in v.nodes && HoldsNode(v.nodes[id], name)
    ensures name in v.nodeIds && v.nodeIds[name] == id
  {
    assert Reachable(v.nodes[id], id, v.nodeIds, v.claimIds);
  }

  /** Binding takes the pod off the node it was bound to before, and off nothing else. */
  lemma BindAt(v: View, pod: Pod, id: string)
    requires Indexed(v) && id in v.nodes
    ensures id in v.Bind(pod).nodes
    ensures
      var leaves := pod.key in v.bindings && v.bindings[pod.key] != pod.nodeName && HoldsNode(v.nodes[id], v.bindings[pod.key]);
      v.Bind(pod).nodes[id] == if leaves then v.nodes[id].Discharge(pod.key) else v.nodes[id]
  {
    if pod.key in v.bindings && v.bindings[pod.key] != pod.nodeName {
      var name := v.bindings[pod.key];
      if HoldsNode(v.nodes[id], name) {
        Holder(v, name, id);
      } else if name in v.nodeIds {
        assert HoldsNode(v.nodes[v.nodeIds[name]], name);
      }
    }
  }

  /** A live machine other than the pod's new node has nothing of the pod after binding it. */
  lemma BindElsewhere(v: View, pod: Pod, id: string)
    requires Indexed(v) && Bound(v) && id in v.nodes && v.nodes[id].node.Some? && v.nodes[id].node.value.name != pod.nodeName
    ensures id in v.Bind(pod).nodes && Discharges(v.nodes[id], v.Bind(pod).nodes[id], {pod.key})
  {
    BindAt(v, pod, id);
    DischargeMeaning(v.nodes[id], pod.key);
    assert ChargesBound(v.nodes[id], v.nodes[id].node.value.name, v.bindings);
    if pod.key !in v.nodes[id].Charged() {
      NotChargedDischarges(v.nodes[id], {pod.key});
    }
  }

  lemma ChargedElsewhere(v: View, holder: string, pod: Pod, id: string)
    requires Indexed(v) && Bound(v) && holder in v.nodes && HoldsNode(v.nodes[holder], pod.nodeName) && pod.volumesKnown
    requires id in v.nodes && id != holder && v.nodes[id].node.Some?
    ensures ChargedAt(v, holder, pod).nodes[id] == v.nodes[id]
    ensures id in ChargedAt(v, holder, pod).Bind(pod).nodes && Discharges(v.nodes[id], ChargedAt(v, holder, pod).Bind(pod).nodes[id], {pod.key})
  {
    var charged := ChargedAt(v, holder, pod);
    ChargedAtIsBoundBut(v, holder, pod);
    SameMachinesKeepIndexes(v, charged);
    NamesAreUnique(v, holder, id);
    BindAt(charged, pod, id);
    DischargeMeaning(v.nodes[id], pod.key);
    assert ChargesBound(v.nodes[id], v.nodes[id].node.value.name, v.bindings);
    if pod.key !in v.nodes[id].Charged() {
      NotChargedDischarges(v.nodes[id], {pod.key});
    }
  }

  /**
   Updating a pod that is not finished: the pod is charged to the machine of its node, to no other live machine, and
   nothing else is charged or discharged anywhere.
   */
  lemma PodUpdateAt(v: View, pod: Pod, id: string)
    requires Indexed(v) && Bound(v) && !pod.terminal && TakesPod(v, pod) && id in v.nodes
    ensures
      var n, after := v.nodes[id], v.UpdatePod(pod);
      id in after.nodes &&
      if HoldsNode(n, pod.nodeName) then Charges(n, after.nodes[id], pod)
      else if n.node.Some? then Discharges(n, after.nodes[id], {pod.key})
      else after.nodes[id] == n
  {
    var holder :| holder in v.nodes && HoldsNode(v.nodes[holder], pod.nodeName);
    Holder(v, pod.nodeName, holder);
    var charged := ChargedAt(v, holder, pod);
    assert v.UpdatePod(pod) == charged.Bind(pod);
    ChargeMeaning(v.nodes[holder], pod);
    ChargedAtIsBoundBut(v, holder, pod);
    SameMachinesKeepIndexes(v, charged);
    if id != holder {
      NamesAreUnique(v, holder, id);
    }
    if id == holder || v.nodes[id].node.None? {
      BindAt(charged, pod, id);
    } else {
      ChargedElsewhere(v, holder, pod, id);
    }
  }

  /** It binds the pod to its node; and a pod that cannot be charged changes nothing. */
  lemma PodUpdateBinds(v: View, pod: Pod)
    requires Indexed(v) && !pod.terminal
    ensures TakesPod(v, pod) ==> v.UpdatePod(pod).bindings == v.bindings[pod.key := pod.nodeName]
    ensures !TakesPod(v, pod) ==> v.UpdatePod(pod) == v
    ensures v.UpdatePod(pod).nodes.Keys == v.nodes.Keys
  {
    PodUpdateKeepsMachines(v, pod);
    var id := Lookup(v.nodeIds, pod.nodeName, "");
    if TakesPod(v, pod) {
      var holder :| holder in v.nodes && HoldsNode(v.nodes[holder], pod.nodeName);
      Holder(v, pod.nodeName, holder);
    } else if pod.nodeName in v.nodeIds {
      assert HoldsNode(v.nodes[id], pod.nodeName);
    }
  }

  /** Completing or deleting a pod takes it off every live machine, and takes nothing else off any machine. */
  lemma PodCompleteAt(v: View, key: PodKey, id: string)
    requires Indexed(v) && Bound(v) && id in v.nodes
    ensures
      var n, after := v.nodes[id], v.CompletePod(key);
      && after.bindings == v.bindings - {key} && id in after.nodes
      && if n.node.Some? then Discharges(n, after.nodes[id], {key}) else after.nodes[id] == n
  {
    var n := v.nodes[id];
    DischargeMeaning(n, key);
    if n.node.Some? {
      assert ChargesBound(n, n.node.value.name, v.bindings);
      Holder(v, n.node.value.name, id);
      if key !in n.Charged() {
        NotChargedDischarges(n, {key});
      }
    }
    if key in v.bindings && v.bindings[key] in v.nodeIds {
      assert HoldsNode(v.nodes[v.nodeIds[v.bindings[key]]], v.bindings[key]);
    }
  }

  /* ----- a node is rebuilt from a listing of its pods ----- */

  datatype Kind = Anyone | Daemons | Others

  predicate OfKind(pod: Pod, key: PodKey, kind: Kind) {
    pod.key == key && !pod.terminal && (kind == Daemons ==> pod.daemon) && (kind == Others ==> !pod.daemon)
  }

  /** The last unfinished pod of the key in a listing, among all, the daemon pods, or the others. */
  function LastListed(pods: seq<Pod>, key: PodKey, kind: Kind): Option<Pod> {
    if pods == [] then None
    else if LastListed(pods[1..], key, kind).Some? then LastListed(pods[1..], key, kind)
    else if OfKind(pods[0], key, kind) then Some(pods[0]) else None
  }

  lemma {:induction false} LastListedMeaning(pods: seq<Pod>, key: PodKey, kind: Kind)
    ensures LastListed(pods, key, kind).None? <==> forall i :: 0 <= i < |pods| ==> !OfKind(pods[i], key, kind)
    ensures LastListed(pods, key, kind).Some? ==>
      exists i :: 0 <= i < |pods| && pods[i] == LastListed(pods, key, kind).value && OfKind(pods[i], key, kind)
        && forall j :: i < j < |pods| ==> !OfKind(pods[j], key, kind)
  {
    if pods != [] {
      var rest := pods[1..];
      LastListedMeaning(rest, key, kind);
      if LastListed(rest, key, kind).Some? {
        var i :| 0 <= i < |rest| && rest[i] == LastListed(rest, key, kind).value && OfKind(rest[i], key, kind)
          && forall j :: i < j < |rest| ==> !OfKind(rest[j], key, kind);
        assert pods[i + 1] == rest[i];
        forall j | i + 1 < j < |pods|
          ensures !OfKind(pods[j], key, kind)
        {
          assert pods[j] == rest[j - 1];
        }
      } else {
        forall j | 1 <= j < |pods|
          ensures !OfKind(pods[j], key, kind)
        {
          assert pods[j] == rest[j - 1];
        }
        assert OfKind(pods[0], key, kind) ==> pods[0] == LastListed(pods, key, kind).value;
      }
    }
  }

  function Cost(pod: Pod): Option<real> {
    if pod.evictionCost > 0.0 then Some(pod.evictionCost) else None
  }

  /** What the tables of a machine say of one pod once a listing was charged to it. */
  ghost predicate ChargesListed(n: StateNode, m: StateNode, pods: seq<Pod>, key: PodKey) {
    var last, daemon, other := LastListed(pods, key, Anyone), LastListed(pods, key, Daemons), LastListed(pods, key, Others);
    && Get(m.podRequests, key) == (if last.Some? then Some(last.value.requests) else Get(n.podRequests, key))
    && Get(m.daemonSetRequests, key) == (if daemon.Some? then Some(daemon.value.requests) else Get(n.daemonSetRequests, key))
    && Get(m.podDisruptionCosts, key) == (if other.Some? then Cost(other.value) else Get(n.podDisruptionCosts, key))
  }

  ghost predicate VolumesKnown(pods: seq<Pod>) {
    forall i :: 0 <= i < |pods| && !pods[i].terminal ==> pods[i].volumesKnown
  }

  lemma VolumesKnownFirst(pods: seq<Pod>)
    requires pods != []
    ensures VolumesKnown(pods) <==> (pods[0].terminal || pods[0].volumesKnown) && VolumesKnown(pods[1..])
  {
    var rest := pods[1..];
    if VolumesKnown(rest) && (pods[0].terminal || pods[0].volumesKnown) {
      forall i | 0 <= i < |pods| && !pods[i].terminal
        ensures pods[i].volumesKnown
      {
        assert i > 0 ==> pods[i] == rest[i - 1];
      }
    }
    if VolumesKnown(pods) {
      forall i | 0 <= i < |rest| && !rest[i].terminal
        ensures rest[i].volumesKnown
      {
        assert rest[i] == pods[i + 1];
      }
    }
  }

  lemma ChargeThenListed(n: StateNode, first: StateNode, m: StateNode, pods: seq<Pod>, key: PodKey)
    requires pods != [] && !pods[0].terminal && Charges(n, first, pods[0]) && ChargesListed(first, m, pods[1..], key)
    ensures ChargesListed(n, m, pods, key)
  {
    LastListedFirst(pods, key, Anyone);
    LastListedFirst(pods, key, Daemons);
    LastListedFirst(pods, key, Others);
    if key != pods[0].key {
      OtherKey(n, first, pods[0].key, key);
    }
  }

  lemma LastListedFirst(pods: seq<Pod>, key: PodKey, kind: Kind)
    requires pods != []
    ensures LastListed(pods, key, kind) ==
      var rest := LastListed(pods[1..], key, kind);
      if rest.Some? then rest else if OfKind(pods[0], key, kind) then Some(pods[0]) else None
  {
  }

  lemma OtherKey(n: StateNode, m: StateNode, key: PodKey, other: PodKey)
    requires SameButFor(n, m, {key}) && other != key
    ensures Get(n.podRequests, other) == Get(m.podRequests, other) && Get(n.daemonSetRequests, other) == Get(m.daemonSetRequests, other)
    ensures Get(n.podDisruptionCosts, other) == Get(m.podDisruptionCosts, other)
  {
    assert Get(n.podRequests, other) == Get(n.podRequests - {key}, other) == Get(m.podRequests - {key}, other);
    assert Get(n.daemonSetRequests, other) == Get(n.daemonSetRequests - {key}, other) == Get(m.daemonSetRequests - {key}, other);
    assert Get(n.podDisruptionCosts, other) == Get(n.podDisruptionCosts - {key}, other) == Get(m.podDisruptionCosts - {key}, other);
  }

  /** Charging a listing succeeds if and only if all volumes are known, and then charges and binds exactly what it lists. */
  lemma {:induction false} PopulateCharges(v: View, n: StateNode, pods: seq<Pod>, key: PodKey, r: (View, Option<StateNode>))
    requires r == v.Populate(n, pods)
    ensures r.1.Some? <==> VolumesKnown(pods)
    ensures r.1.Some? ==> ChargesListed(n, r.1.value, pods, key)
    ensures r.1.Some? ==>
      var last := LastListed(pods, key, Anyone);
      Get(r.0.bindings, key) == if last.Some? then Some(last.value.nodeName) else Get(v.bindings, key)
    decreases |pods|
  {
    if pods != [] {
      VolumesKnownFirst(pods);
      ChargeMeaning(n, pods[0]);
      if pods[0].terminal {
        PopulateCharges(v, n, pods[1..], key, r);
      } else if pods[0].volumesKnown {
        var w, first := v.Bind(pods[0]), n.Charge(pods[0]).value;
        PopulateCharges(w, first, pods[1..], key, r);
        if r.1.Some? {
          ChargeThenListed(n, first, r.1.value, pods, key);
        }
        assert w.bindings == v.bindings[pods[0].key := pods[0].nodeName];
      }
    }
  }

  ghost function ListedKeys(pods: seq<Pod>): set<PodKey> {
    set i | 0 <= i < |pods| && !pods[i].terminal :: pods[i].key
  }

  lemma ListedKeysFirst(pods: seq<Pod>)
    requires pods != []
    ensures ListedKeys(pods) == (if pods[0].terminal then {} else {pods[0].key}) + ListedKeys(pods[1..])
  {
    var rest := pods[1..];
    forall key
      ensures key in ListedKeys(pods) <==> (!pods[0].terminal && key == pods[0].key) || key in ListedKeys(rest)
    {
      if key in ListedKeys(rest) {
        var i :| 0 <= i < |rest| && !rest[i].terminal && rest[i].key == key;
        assert pods[i + 1] == rest[i];
      }
      if key in ListedKeys(pods) {
        var i :| 0 <= i < |pods| && !pods[i].terminal && pods[i].key == key;
        assert i > 0 ==> pods[i] == rest[i - 1];
      }
    }
  }

  lemma DischargesJoin(n: StateNode, m: StateNode, k: StateNode, a: set<PodKey>, b: set<PodKey>)
    requires Discharges(n, m, a) && Discharges(m, k, b)
    ensures Discharges(n, k, a + b)
  {
    TablesJoin(n.podRequests, m.podRequests, k.podRequests, a, b);
    TablesJoin(n.daemonSetRequests, m.daemonSetRequests, k.daemonSetRequests, a, b);
    TablesJoin(n.podDisruptionCosts, m.podDisruptionCosts, k.podDisruptionCosts, a, b);
  }

  lemma TablesJoin<V>(n: map<PodKey, V>, m: map<PodKey, V>, k: map<PodKey, V>, a: set<PodKey>, b: set<PodKey>)
    requires n - a == m - a && m - b == k - b && a !! m.Keys && b !! k.Keys
    ensures n - (a + b) == k - (a + b) && (a + b) !! k.Keys
  {
    assert n - (a + b) == n - a - b && m - (a + b) == m - b - a && k - (a + b) == k - b - a && m - a - b == m - b - a;
    forall key | key in a
      ensures key !in k
    {
      assert key in k - b <==> key in m - b;
    }
  }

  /** What a listing of a node's pods does to another live machine: the listed pods are off it. */
  lemma {:induction false} PopulateElsewhere(v: View, n: StateNode, pods: seq<Pod>, id: string, r: (View, Option<StateNode>))
    requires r == v.Populate(n, pods) && r.1.Some? && Indexed(v) && Bound(v)
    requires id in v.nodes && v.nodes[id].node.Some?
    requires forall i :: 0 <= i < |pods| ==> pods[i].nodeName != v.nodes[id].node.value.name
    ensures id in r.0.nodes && Discharges(v.nodes[id], r.0.nodes[id], ListedKeys(pods))
    decreases |pods|
  {
    if pods == [] {
      NotChargedDischarges(v.nodes[id], {});
    } else {
      ListedKeysFirst(pods);
      var rest := pods[1..];
      if pods[0].terminal {
        PopulateElsewhere(v, n, rest, id, r);
        assert ListedKeys(pods) == ListedKeys(rest);
      } else {
        var w := v.Bind(pods[0]);
        BindElsewhere(v, pods[0], id);
        BindRestores(v, pods[0]);
        BindKeepsMachines(v, pods[0]);
        SameMachinesKeepIndexes(v, w);
        PopulateElsewhere(w, n.Charge(pods[0]).value, rest, id, r);
        DischargesJoin(v.nodes[id], w.nodes[id], r.0.nodes[id], {pods[0].key}, ListedKeys(rest));
      }
    }
  }

  /** ... and to a machine without a node, or of the same node: nothing. */
  lemma {:induction false} PopulateKeepsOthers(v: View, n: StateNode, pods: seq<Pod>, id: string, r: (View, Option<StateNode>))
    requires r == v.Populate(n, pods) && Indexed(v) && id in v.nodes
    requires v.nodes[id].node.None? || forall i :: 0 <= i < |pods| ==> pods[i].nodeName == v.nodes[id].node.value.name
    ensures id in r.0.nodes && r.0.nodes[id] == v.nodes[id]
    decreases |pods|
  {
    if pods != [] {
      var rest := pods[1..];
      if pods[0].terminal {
        PopulateKeepsOthers(v, n, rest, id, r);
      } else if n.Charge(pods[0]).Some? {
        var w := v.Bind(pods[0]);
        BindAt(v, pods[0], id);
        BindKeepsMachines(v, pods[0]);
        SameMachinesKeepIndexes(v, w);
        PopulateKeepsOthers(w, n.Charge(pods[0]).value, rest, id, r);
      }
    }
  }

  /**
   A node update takes effect: the node belongs to no pool, or it has a provider id and an instance type or was initialized;
   its pods were listed and their volumes known; and the volume limits were known.
   */
  ghost predicate TakesNode(update: NodeUpdate) {
    && (Lookup(update.node.labels, NODEPOOL_LABEL, "") != "" ==>
          && update.node.providerID != ""
          && (Lookup(update.node.labels, INSTANCE_TYPE_LABEL, "") != "" || Lookup(update.node.labels, INITIALIZED_LABEL, "") != ""))
    && update.listed && VolumesKnown(update.pods) && update.limitsKnown
  }

  /** The node as it is tracked: under its own name when it has no provider id. */
  predicate TrackedAs(node: Node, update: NodeUpdate) {
    node == update.node.(providerID := if update.node.providerID != "" then update.node.providerID else update.node.name)
  }

  ghost predicate ListsOwn(update: NodeUpdate) {
    forall pod :: pod in update.pods ==> pod.nodeName == update.node.name
  }

  lemma TakesNodeIff(v: View, update: NodeUpdate)
    ensures TakesNode(update) <==> !update.Skipped() && Prepared(v, update).1.Some? && update.limitsKnown
    ensures TrackedAs(update.Resolved(), update)
  {
    if update.listed {
      var node := update.Resolved();
      PopulateCharges(v, v.WithNode(node, node.providerID), update.pods, "", Prepared(v, update));
    }
  }

  /** What a rebuilt machine is: the node as updated, the claim and the mark it had, and the pods of the listing. */
  ghost predicate IsRebuilt(v: View, n: StateNode, node: Node, pods: seq<Pod>) {
    var was := Lookup(v.nodes, node.providerID, NEW_NODE);
    && n.node == Some(node) && n.claim == was.claim && n.marked == was.marked
    && forall key :: ChargesListed(NEW_NODE, n, pods, key)
  }

  lemma PreparedIsRebuilt(v: View, update: NodeUpdate)
    requires update.listed && VolumesKnown(update.pods)
    ensures Prepared(v, update).1.Some? && IsRebuilt(v, Prepared(v, update).1.value, update.Resolved(), update.pods)
  {
    var node := update.Resolved();
    var n, r := v.WithNode(node, node.providerID), Prepared(v, update);
    PreparedKeepsMachines(v, update);
    PopulateCharges(v, n, update.pods, "", r);
    forall key
      ensures ChargesListed(NEW_NODE, r.1.value, update.pods, key)
    {
      PopulateCharges(v, n, update.pods, key, r);
    }
  }

  lemma UpdateIsInstall(v: View, update: NodeUpdate)
    requires TakesNode(update)
    ensures Prepared(v, update).1.Some?
    ensures
      var (w, n), node := Prepared(v, update), update.Resolved();
      v.UpdateNode(update) == w.InstallNode(node.name, node.providerID, n.value)
  {
    TakesNodeIff(v, update);
  }

  lemma InstallAt(v: View, name: string, id: string, n: StateNode)
    requires Indexed(v)
    ensures
      var after := v.InstallNode(name, id, n);
      && id in after.nodes && after.nodes[id] == n && after.nodeIds == v.nodeIds[name := id]
      && after.claimIds == v.claimIds && after.pools == v.pools && after.bindings == v.bindings
  {
    InstallMaps(v, name, id, n);
    MovedNodeIds(v, name, id);
  }

  lemma MovedNodeIds(v: View, name: string, id: string)
    requires Indexed(v)
    ensures
      var base := MovedNode(v, name, id);
      && base.nodeIds[name := id] == v.nodeIds[name := id] && base.claimIds == v.claimIds
      && base.pools == v.pools && base.bindings == v.bindings
  {
    if v.NodeMoves(name, id) {
      CleanupNodeMaps(v, name);
      assert (v.nodeIds - {name})[name := id] == v.nodeIds[name := id];
    }
  }

  /** A node update that takes effect installs the rebuilt machine, and binds what it lists. */
  lemma NodeUpdateInstalls(v: View, update: NodeUpdate)
    requires Indexed(v) && TakesNode(update)
    ensures
      var after, node := v.UpdateNode(update), update.Resolved();
      && TrackedAs(node, update)
      && node.providerID in after.nodes && IsRebuilt(v, after.nodes[node.providerID], node, update.pods)
      && after.nodeIds == v.nodeIds[node.name := node.providerID] && after.claimIds == v.claimIds && after.pools == v.pools
  {
    var node := update.Resolved();
    var (w, n) := Prepared(v, update);
    UpdateIsInstall(v, update);
    PreparedIsRebuilt(v, update);
    PreparedKeepsMachines(v, update);
    SameMachinesKeepIndexes(v, w);
    InstallAt(w, node.name, node.providerID, n.value);
  }

  lemma NodeUpdateBinds(v: View, update: NodeUpdate, key: PodKey)
    requires TakesNode(update) && ListsOwn(update)
    ensures Get(v.UpdateNode(update).bindings, key) == if key in ListedKeys(update.pods) then Some(update.node.name) else Get(v.bindings, key)
  {
    UpdateIsInstall(v, update);
    var node := update.Resolved();
    var (w, n) := Prepared(v, update);
    PopulateCharges(v, v.WithNode(node, node.providerID), update.pods, key, (w, n));
    LastListedMeaning(update.pods, key, Anyone);
    InstallBindings(w, node.name, node.providerID, n.value);
    if key in ListedKeys(update.pods) {
      var i :| 0 <= i < |update.pods| && !update.pods[i].terminal && update.pods[i].key == key;
      assert OfKind(update.pods[i], key, Anyone);
    }
  }

  lemma InstallBindings(v: View, name: string, id: string, n: StateNode)
    ensures v.InstallNode(name, id, n).bindings == v.bindings
  {
  }

  /**
   What it does to every other machine: one that held the node before loses it, and is gone without a claim; other live
   machines lose the listed pods; machines without a node stay as they are.
   */
  lemma NodeUpdateElsewhere(v: View, update: NodeUpdate, id: string)
    requires Indexed(v) && Bound(v) && TakesNode(update) && ListsOwn(update)
    requires id in v.nodes && id != update.Resolved().providerID
    ensures
      var n, after := v.nodes[id], v.UpdateNode(update).nodes;
      if HoldsNode(n, update.node.name) then
        if n.claim.None? then id !in after else id in after && after[id] == n.(node := None)
      else id in after && if n.node.Some? then Discharges(n, after[id], ListedKeys(update.pods)) else after[id] == n
  {
    var node := update.Resolved();
    var (w, n) := Prepared(v, update);
    UpdateIsInstall(v, update);
    PreparedElsewhere(v, update, id);
    PreparedKeepsMachines(v, update);
    SameMachinesKeepIndexes(v, w);
    InstallMaps(w, node.name, node.providerID, n.value);
    MovedNodeElsewhere(w, node.name, node.providerID, id);
  }

  lemma PreparedElsewhere(v: View, update: NodeUpdate, id: string)
    requires Indexed(v) && Bound(v) && ListsOwn(update) && update.listed && Prepared(v, update).1.Some? && id in v.nodes
    ensures
      var n, after := v.nodes[id], Prepared(v, update).0.nodes;
      id in after && if n.node.Some? && !HoldsNode(n, update.node.name) then Discharges(n, after[id], ListedKeys(update.pods)) else after[id] == n
  {
    var node := update.Resolved();
    assert forall i :: 0 <= i < |update.pods| ==> update.pods[i] in update.pods;
    if v.nodes[id].node.None? || HoldsNode(v.nodes[id], node.name) {
      PopulateKeepsOthers(v, v.WithNode(node, node.providerID), update.pods, id, Prepared(v, update));
    } else {
      PopulateElsewhere(v, v.WithNode(node, node.providerID), update.pods, id, Prepared(v, update));
    }
  }

  lemma MovedNodeElsewhere(v: View, name: string, id: string, other: string)
    requires Indexed(v) && other in v.nodes && other != id
    ensures
      var n, after := v.nodes[other], MovedNode(v, name, id).nodes;
      if !HoldsNode(n, name) then other in after && after[other] == n
      else if n.claim.None? then other !in after else other in after && after[other] == n.(node := None)
  {
    NodeDeleteAt(v, name, other);
    if HoldsNode(v.nodes[other], name) {
      Holder(v, name, other);
    }
  }

  /** A node update that does not take effect moves no object and no index. */
  lemma NodeUpdateFails(v: View, update: NodeUpdate)
    requires !TakesNode(update)
    ensures SameMachines(v, v.UpdateNode(update))
  {
    TakesNodeIff(v, update);
    PreparedKeepsMachines(v, update);
  }

  /* ----- nodes and claims go ----- */

  lemma NodeDeleteAt(v: View, name: string, id: string)
    requires Indexed(v) && id in v.nodes
    ensures
      var n, after := v.nodes[id], v.CleanupNode(name).nodes;
      if !HoldsNode(n, name) then id in after && after[id] == n
      else if n.claim.None? then id !in after else id in after && after[id] == n.(node := None)
    ensures v.CleanupNode(name).nodes.Keys <= v.nodes.Keys && v.CleanupNode(name).pools == v.pools
  {
    CleanupNodeMaps(v, name);
    if HoldsNode(v.nodes[id], name) {
      Holder(v, name, id);
    } else if name in v.nodeIds {
      assert HoldsNode(v.nodes[v.nodeIds[name]], name);
    }
  }

  lemma ClaimDeleteAt(v: View, name: string, id: string)
    requires Indexed(v) && id in v.nodes
    ensures
      var n, after := v.nodes[id], v.CleanupClaim(name).nodes;
      if !HoldsClaim(n, name) then id in after && after[id] == n
      else if n.node.None? then id !in after else id in after && after[id] == n.(claim := None)
    ensures v.CleanupClaim(name).nodes.Keys <= v.nodes.Keys
  {
    CleanupClaimMaps(v, name);
    if HoldsClaim(v.nodes[id], name) {
      assert Reachable(v.nodes[id], id, v.nodeIds, v.claimIds);
    } else if name in v.claimIds && v.claimIds[name] != "" {
      assert HoldsClaim(v.nodes[v.claimIds[name]], name);
    }
  }

  /* ----- a claim is updated ----- */

  /** A machine that a claim was put on: the very claim, no pod costs, and everything else as it was. */
  ghost predicate IsClaimed(v: View, n: StateNode, c: NodeClaim) {
    var was := Lookup(v.nodes, c.providerID, NEW_NODE);
    && n.claim == Some(c) && n.node == was.node && n.marked == was.marked
    && n.podRequests == was.podRequests && n.daemonSetRequests == was.daemonSetRequests && n.podDisruptionCosts == map[]
  }

  lemma ClaimUpdateInstalls(v: View, c: NodeClaim)
    requires Indexed(v) && ClaimIdUsable(v, c)
    ensures
      var after := v.UpdateNodeClaim(c);
      && after.claimIds == v.claimIds[c.name := c.providerID] && after.nodeIds == v.nodeIds && after.bindings == v.bindings
      && (c.providerID == "" ==> after.nodes == v.nodes)
      && (c.providerID != "" ==> c.providerID in after.nodes && IsClaimed(v, after.nodes[c.providerID], c))
  {
    ClaimUpdateMaps(v, c);
    if c.providerID != "" {
      MovedClaimIds(v, c);
    }
  }

  lemma MovedClaimIds(v: View, c: NodeClaim)
    requires Indexed(v)
    ensures
      var base := MovedClaim(v, c);
      base.claimIds[c.name := c.providerID] == v.claimIds[c.name := c.providerID] && base.nodeIds == v.nodeIds && base.bindings == v.bindings
  {
    if v.ClaimMoves(c) {
      CleanupClaimMaps(v, c.name);
      assert (v.claimIds - {c.name})[c.name := c.providerID] == v.claimIds[c.name := c.providerID];
    }
  }

  /** A machine that had the claim before loses it, and is gone without a node; every other machine stays as it is. */
  lemma ClaimUpdateElsewhere(v: View, c: NodeClaim, id: string)
    requires Indexed(v) && ClaimIdUsable(v, c) && id in v.nodes && id != c.providerID
    ensures
      var n, after := v.nodes[id], v.UpdateNodeClaim(c).nodes;
      if !HoldsClaim(n, c.name) then id in after && after[id] == n
      else if n.node.None? then id !in after else id in after && after[id] == n.(claim := None)
  {
    ClaimUpdateMaps(v, c);
    ClaimDeleteAt(v, c.name, id);
    if HoldsClaim(v.nodes[id], c.name) {
      assert Reachable(v.nodes[id], id, v.nodeIds, v.claimIds);
    }
  }

  lemma ClaimUpdateKeys(v: View, c: NodeClaim)
    requires Indexed(v)
    ensures v.UpdateNodeClaim(c).nodes.Keys <= v.nodes.Keys + {c.providerID}
  {
    ClaimUpdateMaps(v, c);
    if c.providerID != "" {
      CleanupClaimMaps(v, c.name);
    }
  }

  /* ----- marks ----- */

  /** Marking changes the marks of the tracked machines among the ids, and no other part of any machine. */
  lemma {:induction false} MarkAllAt(v: View, ids: seq<string>, marked: bool, id: string)
    ensures v.MarkAll(ids, marked).nodes.Keys == v.nodes.Keys
    ensures id in v.nodes ==> v.MarkAll(ids, marked).nodes[id] == if id in ids then v.nodes[id].(marked := marked) else v.nodes[id]
    ensures v.MarkAll(ids, marked).nodeIds == v.nodeIds && v.MarkAll(ids, marked).claimIds == v.claimIds
    ensures v.MarkAll(ids, marked).bindings == v.bindings
    decreases |ids|
  {
    if ids != [] {
      MarkMaps(v, ids[0], marked);
      MarkAllAt(v.Mark(ids[0], marked), ids[1..], marked, id);
      assert id in ids <==> id == ids[0] || id in ids[1..];
    }
  }
}
