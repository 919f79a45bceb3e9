/**
 Cluster state as a value, and every event that changes it as a function on that value.

 Quantities a pool holds are kept as running totals, adjusted on each event by subtracting what the old
 machine contributed and adding what the new one does. The later modules show that these
 totals, the name indexes and the pod bookkeeping agree with what recomputation would give.
 */
module ClusterView {
  import opened Common
  import opened StateNodes
  import opened NodePools

  type Totals = map<string, ResourceList>

  /* ----- the running totals ----- */

  function PoolOf(n: Option<StateNode>): string {
    if n.Some? then n.value.Pool() else ""
  }

  /** What a machine puts into its pool's total: nothing once it is marked for deletion. */
  function Countable(n: Option<StateNode>): ResourceList {
    if n.None? || !n.value.Present() || n.value.MarkedForDeletion() then map[] else n.value.Capacity()
  }

  function Signed(x: int, subtract: bool): int {
    if subtract then -x else x
  }

  function AddTo(total: ResourceList, amounts: ResourceList, subtract: bool): ResourceList {
    map r | r in total.Keys + amounts.Keys :: Lookup(total, r, 0) + Signed(Lookup(amounts, r, 0), subtract)
  }

  predicate AllZero(total: ResourceList) {
    forall r :: r in total ==> total[r] == 0
  }

  function Ensure(totals: Totals, pool: string): Totals {
    if pool != "" && pool !in totals then totals[pool := map[]] else totals
  }

  function Apply(totals: Totals, pool: string, amounts: ResourceList, subtract: bool): Totals {
    if pool == "" || amounts == map[] then totals
    else totals[pool := AddTo(Lookup(totals, pool, map[]), amounts, subtract)]
  }

  function Collect(totals: Totals, pool: string): Totals {
    if AllZero(Lookup(totals, pool, map[])) then totals - {pool} else totals
  }

  /** Takes amounts off one pool's total, puts amounts on another's, and garbage-collects empty totals. */
  function Shift(totals: Totals, oldPool: string, oldAmounts: ResourceList, newPool: string, newAmounts: ResourceList): Totals {
    var t1 := Ensure(totals, newPool);
    var t2 := Apply(t1, oldPool, oldAmounts, true);
    var t3 := Apply(t2, newPool, newAmounts, false);
    Collect(Collect(t3, oldPool), newPool)
  }

  /** updateNodePoolResources. */
  function Adjust(totals: Totals, oldNode: Option<StateNode>, newNode: Option<StateNode>): Totals {
    Shift(totals, PoolOf(oldNode), Countable(oldNode), PoolOf(newNode), Countable(newNode))
  }

  /* ----- the state ----- */

  datatype View = View(
    nodes: map<string, StateNode>,        // provider id -> machine
    bindings: map<PodKey, string>,        // pod -> node name
    nodeIds: map<string, string>,         // node name -> provider id
    claimIds: map<string, string>,        // claim name -> provider id, "" until launched
    totals: Totals,                       // pool -> running total
    pools: Pools)
  {
    function Find(id: string): Option<StateNode> {
      if id in nodes then Some(nodes[id]) else None
    }

    /** Replaces the machine at `id` and adjusts the totals of its old and new pool. */
    function Put(id: string, n: StateNode): View {
      this.(totals := Adjust(totals, Find(id), Some(n)), nodes := nodes[id := n])
    }

    function Drop(id: string): View {
      this.(totals := Adjust(totals, Find(id), None), nodes := nodes - {id})
    }

    /* ----- claims ----- */

    function CleanupClaim(name: string): View {
      var id := Lookup(claimIds, name, "");
      var v :=
        if id == "" || id !in nodes then this
        else if nodes[id].node.None? then Drop(id)
        else Put(id, nodes[id].(claim := None));
      v.(claimIds := claimIds - {name}, pools := pools.Cleanup(name))
    }

    /** The machine a claim update leaves at its provider id. */
    function WithClaim(c: NodeClaim): StateNode {
      Lookup(nodes, c.providerID, NEW_NODE).(claim := Some(c), podDisruptionCosts := map[])
    }

    predicate ClaimMoves(c: NodeClaim) {
      c.name in claimIds && claimIds[c.name] != c.providerID
    }

    function UpdateNodeClaim(c: NodeClaim): View {
      var v :=
        if c.providerID == "" then this
        else (if ClaimMoves(c) then CleanupClaim(c.name) else this).Put(c.providerID, WithClaim(c));
      var marked := c.providerID in v.nodes && v.nodes[c.providerID].MarkedForDeletion();
      v.(pools := v.pools.UpdateClaim(c.name, c.Pool(), marked), claimIds := v.claimIds[c.name := c.providerID])
    }

    /* ----- pods ----- */

    /** Takes the pod's charge off the machine of that node name, if it is tracked. */
    function DischargeFrom(name: string, pod: PodKey): View {
      var id := Lookup(nodeIds, name, "");
      if id in nodes then this.(nodes := nodes[id := nodes[id].Discharge(pod)]) else this
    }

    /** cleanupOldBindings, then the new binding. */
    function Bind(pod: Pod): View {
      var v := if pod.key in bindings && bindings[pod.key] != pod.nodeName
               then DischargeFrom(bindings[pod.key], pod.key) else this;
      v.(bindings := v.bindings[pod.key := pod.nodeName])
    }

    function CompletePod(pod: PodKey): View {
      if pod !in bindings then this
      else DischargeFrom(bindings[pod], pod).(bindings := bindings - {pod})
    }

    function BindPod(pod: Pod): View {
      var id := Lookup(nodeIds, pod.nodeName, "");
      if pod.nodeName == "" || id !in nodes || nodes[id].Charge(pod).None? then this
      else this.(nodes := nodes[id := nodes[id].Charge(pod).value]).Bind(pod)
    }

    function UpdatePod(pod: Pod): View {
      if pod.terminal then CompletePod(pod.key) else BindPod(pod)
    }

    /* ----- nodes ----- */

    function CleanupNode(name: string): View {
      var id := Lookup(nodeIds, name, "");
      if id == "" || id !in nodes then this
      else
        (if nodes[id].claim.None? then Drop(id) else Put(id, nodes[id].(node := None)))
        .(nodeIds := nodeIds - {name})
    }

    /** populateResourceRequests: stops at the first pod whose volumes are unknown, keeping the bindings made so far. */
    function Populate(n: StateNode, pods: seq<Pod>): (View, Option<StateNode>)
      decreases |pods|
    {
      if pods == [] then (this, Some(n))
      else if pods[0].terminal then Populate(n, pods[1..])
      else if n.Charge(pods[0]).None? then (this, None)
      else Bind(pods[0]).Populate(n.Charge(pods[0]).value, pods[1..])
    }

    /** The machine a node update starts from, before its pods are charged. */
    function WithNode(node: Node, id: string): StateNode {
      var was := Lookup(nodes, id, NEW_NODE);
      StateNode(Some(node), was.claim, map[], map[], map[], was.marked)
    }

    predicate NodeMoves(name: string, id: string) {
      name in nodeIds && nodeIds[name] != id
    }

    /** The part of a node update after its pods were charged. */
    function InstallNode(name: string, id: string, n: StateNode): View {
      var v := (if NodeMoves(name, id) then CleanupNode(name) else this).Put(id, n);
      v.(nodeIds := v.nodeIds[name := id])
    }

    /** UpdateNode; `listed` and `limitsKnown` say whether the API server answered. */
    function UpdateNode(update: NodeUpdate): View {
      if update.Skipped() then this else
      var node := update.Resolved();
      var (v, n) := if update.listed then Populate(WithNode(node, node.providerID), update.pods) else (this, None);
      if n.None? || !update.limitsKnown then v else v.InstallNode(node.name, node.providerID, n.value)
    }

    /* ----- marks ----- */

    function Mark(id: string, marked: bool): View {
      if id !in nodes then this else
      var n := nodes[id].(marked := marked);
      var v := Put(id, n);
      if n.claim.None? || (!marked && n.claim.value.deleting) then v
      else v.(pools := v.pools.MarkClaim(n.claim.value.Pool(), n.claim.value.name, if marked then Deleting else Active))
    }

    function MarkAll(ids: seq<string>, marked: bool): View
      decreases |ids|
    {
      if ids == [] then this else Mark(ids[0], marked).MarkAll(ids[1..], marked)
    }
  }

  datatype NodeUpdate = NodeUpdate(node: Node, listed: bool, pods: seq<Pod>, limitsKnown: bool) {
    predicate Skipped() {
      var managed := Lookup(node.labels, NODEPOOL_LABEL, "") != "";
      || (managed && node.providerID == "")
      || (managed && Lookup(node.labels, INSTANCE_TYPE_LABEL, "") == "" && Lookup(node.labels, INITIALIZED_LABEL, "") == "")
    }

    /** A node without a provider id is tracked under its name. */
    function Resolved(): Node {
      if node.providerID == "" then node.(providerID := node.name) else node
    }
  }

  const EMPTY := View(map[], map[], map[], map[], map[], NO_POOLS)
}
