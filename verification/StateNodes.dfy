/**
 What cluster state caches about one machine: its Node, its NodeClaim, or both, together with the
 resources charged to it by the pods bound to it.
 */
module StateNodes {
  import opened Common

  type ResourceList = map<string, int>
  type Labels = map<string, string>
  type PodKey = string

  const NODEPOOL_LABEL := "karpenter.sh/nodepool"
  const REGISTERED_LABEL := "karpenter.sh/registered"
  const INITIALIZED_LABEL := "karpenter.sh/initialized"
  const INSTANCE_TYPE_LABEL := "node.kubernetes.io/instance-type"

  /** The resource under which a machine counts as one node. */
  const NODES := "nodes"

  datatype Node = Node(name: string, providerID: string, labels: Labels, deleting: bool, capacity: ResourceList)

  datatype NodeClaim = NodeClaim(
    name: string, providerID: string, labels: Labels,
    deleting: bool,      // has a deletion timestamp
    terminating: bool,   // carries the InstanceTerminating condition
    capacity: ResourceList)
  {
    function Pool(): string {
      Lookup(labels, NODEPOOL_LABEL, "")
    }
  }

  /** A pod as the API server lists it; `volumesKnown` is whether its volumes could be looked up. */
  datatype Pod = Pod(key: PodKey, nodeName: string, terminal: bool, daemon: bool,
                     requests: ResourceList, evictionCost: real, volumesKnown: bool)

  datatype StateNode = StateNode(
    node: Option<Node>, claim: Option<NodeClaim>,
    podRequests: map<PodKey, ResourceList>, daemonSetRequests: map<PodKey, ResourceList>,
    podDisruptionCosts: map<PodKey, real>,
    marked: bool)
  {
    predicate Present() {
      node.Some? || claim.Some?
    }

    predicate Managed() {
      claim.Some?
    }

    predicate Registered() {
      Managed() ==> node.Some? && Lookup(node.value.labels, REGISTERED_LABEL, "") == "true"
    }

    predicate Initialized() {
      Managed() ==> node.Some? && Lookup(node.value.labels, INITIALIZED_LABEL, "") == "true"
    }

    function GetLabels(): Labels
      requires Present()
    {
      if node.None? then claim.value.labels
      else if claim.None? then node.value.labels
      else if !Registered() then claim.value.labels
      else node.value.labels
    }

    function Pool(): string {
      if Present() then Lookup(GetLabels(), NODEPOOL_LABEL, "") else ""
    }

    predicate Deleted() {
      || (claim.Some? && (claim.value.deleting || claim.value.terminating))
      || (node.Some? && claim.None? && node.value.deleting)
    }

    predicate MarkedForDeletion() {
      marked || Deleted()
    }

    /** The machine's capacity; whatever its objects report, it is one node. */
    function Capacity(): ResourceList
      requires Present()
    {
      if !Initialized() && claim.Some? then
        if node.Some? then
          OverrideZeros(node.value.capacity, claim.value.capacity)[NODES := 1]
        else
          claim.value.capacity[NODES := 1]
      else
        node.value.capacity[NODES := 1]
    }

    /** Every pod that some per-pod table of this machine still mentions. */
    function Charged(): set<PodKey> {
      podRequests.Keys + daemonSetRequests.Keys + podDisruptionCosts.Keys
    }

    /** updateForPod: nothing changes when the pod's volumes cannot be looked up. */
    function Charge(pod: Pod): Option<StateNode> {
      if !pod.volumesKnown then None else
      var charged := this.(podRequests := podRequests[pod.key := pod.requests]);
      Some(if pod.daemon then
             charged.(daemonSetRequests := daemonSetRequests[pod.key := pod.requests])
           else if pod.evictionCost > 0.0 then
             charged.(podDisruptionCosts := podDisruptionCosts[pod.key := pod.evictionCost])
           else
             charged.(podDisruptionCosts := podDisruptionCosts - {pod.key}))
    }

    function Discharge(pod: PodKey): StateNode {
      this.(podRequests := podRequests - {pod}, daemonSetRequests := daemonSetRequests - {pod},
            podDisruptionCosts := podDisruptionCosts - {pod})
    }
  }

  const NEW_NODE := StateNode(None, None, map[], map[], map[], false)

  /** Quantities of `base`, with the ones that are missing or zero taken from `fallback`. */
  function OverrideZeros(base: ResourceList, fallback: ResourceList): ResourceList {
    map r | r in base.Keys + fallback.Keys ::
      if r in fallback && Lookup(base, r, 0) == 0 then fallback[r] else Lookup(base, r, 0)
  }

  /**
   Per resource: an initialized machine, or one without a claim, has what its node reports; one without a node has what its claim
   says; and one that is not initialized has what its node reports unless that is zero, and then what its claim says. Of
   nodes it has one.
   */
  lemma CapacityMeaning(n: StateNode, r: string)
    requires n.Present()
    ensures Lookup(n.Capacity(), NODES, 0) == 1
    ensures r != NODES ==>
      var have := Lookup(n.Capacity(), r, 0);
      if n.claim.None? || (n.node.Some? && Lookup(n.node.value.labels, INITIALIZED_LABEL, "") == "true") then
        have == Lookup(n.node.value.capacity, r, 0)
      else if n.node.None? then have == Lookup(n.claim.value.capacity, r, 0)
      else have == if Lookup(n.node.value.capacity, r, 0) != 0 then Lookup(n.node.value.capacity, r, 0) else Lookup(n.claim.value.capacity, r, 0)
  {
  }

  /** The labels of a machine are its node's once the node is registered or has no claim, and its claim's before that. */
  lemma LabelsMeaning(n: StateNode)
    requires n.Present()
    ensures
      var registered := n.node.Some? && (n.claim.None? || Lookup(n.node.value.labels, REGISTERED_LABEL, "") == "true");
      n.GetLabels() == if registered then n.node.value.labels else n.claim.value.labels
  {
  }

  /** A machine counts as deleting when it is marked, when its claim is deleted or terminating, or when it has no claim and its node is deleted. */
  lemma MarkedMeaning(n: StateNode)
    ensures n.MarkedForDeletion() <==>
      || n.marked
      || (n.claim.Some? && (n.claim.value.deleting || n.claim.value.terminating))
      || (n.claim.None? && n.node.Some? && n.node.value.deleting)
  {
  }
}
