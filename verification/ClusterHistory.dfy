/**
 Cluster state holds the latest objects: after every run of events its machines are those of the latest claims and nodes,
 joined by provider id, whatever else happened in between.
 */
module ClusterHistory {
  import opened Common
  import opened StateNodes
  import opened ClusterView
  import opened ClusterIndexes
  import opened ClusterPods
  import opened ClusterEffects
  import opened ClusterRuns

  /** The latest object of every name, from the events alone. */
  datatype Objects = Objects(claims: map<string, NodeClaim>, nodes: map<string, Node>)

  const NOTHING := Objects(map[], map[])

  /** A node without a provider id is tracked under its name. */
  function AsTracked(node: Node): Node {
    if node.providerID != "" then node else node.(providerID := node.name)
  }

  ghost function See(o: Objects, e: Event): Objects {
    match e
    case UpdateClaimEvent(claim) => o.(claims := o.claims[claim.name := claim])
    case DeleteClaimEvent(name) => o.(claims := o.claims - {name})
    case UpdateNodeEvent(update) => if TakesNode(update) then o.(nodes := o.nodes[update.node.name := AsTracked(update.node)]) else o
    case DeleteNodeEvent(name) => o.(nodes := o.nodes - {name})
    case _ => o
  }

  ghost function SeeAll(o: Objects, events: seq<Event>): Objects
    decreases |events|
  {
    if events == [] then o else SeeAll(See(o, events[0]), events[1..])
  }

  ghost predicate ClaimIsTracked(v: View, c: NodeClaim, name: string) {
    && name in v.claimIds && v.claimIds[name] == c.providerID
    && (c.providerID != "" ==> c.providerID in v.nodes && v.nodes[c.providerID].claim == Some(c))
  }

  ghost predicate NodeIsTracked(v: View, n: Node, name: string) {
    && name in v.nodeIds && v.nodeIds[name] == n.providerID
    && n.providerID in v.nodes && v.nodes[n.providerID].node == Some(n)
  }

  /** The indexes know exactly these objects, and the machines hold them as they were last seen. */
  ghost predicate Tracks(v: View, o: Objects) {
    && v.claimIds.Keys == o.claims.Keys && (forall name :: name in o.claims ==> ClaimIsTracked(v, o.claims[name], name))
    && v.nodeIds.Keys == o.nodes.Keys && (forall name :: name in o.nodes ==> NodeIsTracked(v, o.nodes[name], name))
  }

  /** Indexes as they were, and every machine with the objects that it had. */
  lemma SameObjectsTrack(v: View, w: View, o: Objects)
    requires Tracks(v, o) && w.claimIds == v.claimIds && w.nodeIds == v.nodeIds && v.nodes.Keys == w.nodes.Keys
    requires forall id :: id in v.nodes ==> w.nodes[id].node == v.nodes[id].node && w.nodes[id].claim == v.nodes[id].claim
    ensures Tracks(w, o)
  {
    forall name | name in o.claims
      ensures ClaimIsTracked(w, o.claims[name], name)
    {
      assert ClaimIsTracked(v, o.claims[name], name);
    }
    forall name | name in o.nodes
      ensures NodeIsTracked(w, o.nodes[name], name)
    {
      assert NodeIsTracked(v, o.nodes[name], name);
    }
  }

  lemma SameMachinesTrack(v: View, w: View, o: Objects)
    requires Tracks(v, o) && SameMachines(v, w)
    ensures Tracks(w, o)
  {
    forall id | id in v.nodes
      ensures w.nodes[id].node == v.nodes[id].node && w.nodes[id].claim == v.nodes[id].claim
    {
      assert SameObjects(v.nodes[id], w.nodes[id]);
    }
    SameObjectsTrack(v, w, o);
  }

  /* ----- claims ----- */

  lemma ClaimUpdateTracks(v: View, o: Objects, c: NodeClaim)
    requires Indexed(v) && Tracks(v, o) && ClaimIdUsable(v, c)
    ensures Tracks(v.UpdateNodeClaim(c), See(o, UpdateClaimEvent(c)))
  {
    var after, seen := v.UpdateNodeClaim(c), See(o, UpdateClaimEvent(c));
    ClaimUpdateInstalls(v, c);
    forall name | name in seen.claims
      ensures ClaimIsTracked(after, seen.claims[name], name)
    {
      if name != c.name {
        ClaimStaysTracked(v, o, c, name);
      }
    }
    forall name | name in seen.nodes
      ensures NodeIsTracked(after, seen.nodes[name], name)
    {
      NodeStaysTracked(v, o, c, name);
    }
  }

  lemma ClaimStaysTracked(v: View, o: Objects, c: NodeClaim, name: string)
    requires Indexed(v) && Tracks(v, o) && ClaimIdUsable(v, c) && name in o.claims && name != c.name
    ensures ClaimIsTracked(v.UpdateNodeClaim(c), o.claims[name], name)
  {
    ClaimUpdateInstalls(v, c);
    var id := o.claims[name].providerID;
    assert ClaimIsTracked(v, o.claims[name], name);
    if id != "" {
      assert HoldsClaim(v.nodes[id], name);
      ClaimUpdateElsewhere(v, c, id);
    }
  }

  lemma NodeStaysTracked(v: View, o: Objects, c: NodeClaim, name: string)
    requires Indexed(v) && Tracks(v, o) && ClaimIdUsable(v, c) && name in o.nodes
    ensures NodeIsTracked(v.UpdateNodeClaim(c), o.nodes[name], name)
  {
    ClaimUpdateInstalls(v, c);
    var id := o.nodes[name].providerID;
    assert NodeIsTracked(v, o.nodes[name], name);
    if id != c.providerID {
      ClaimUpdateElsewhere(v, c, id);
    }
  }

  lemma ClaimDeleteTracks(v: View, o: Objects, name: string)
    requires Indexed(v) && Tracks(v, o)
    ensures Tracks(v.CleanupClaim(name), See(o, DeleteClaimEvent(name)))
  {
    var after, seen := v.CleanupClaim(name), See(o, DeleteClaimEvent(name));
    CleanupClaimMaps(v, name);
    forall other | other in seen.claims
      ensures ClaimIsTracked(after, seen.claims[other], other)
    {
      assert ClaimIsTracked(v, o.claims[other], other);
      var id := o.claims[other].providerID;
      if id != "" {
        assert HoldsClaim(v.nodes[id], other);
        ClaimDeleteAt(v, name, id);
      }
    }
    forall other | other in seen.nodes
      ensures NodeIsTracked(after, seen.nodes[other], other)
    {
      assert NodeIsTracked(v, o.nodes[other], other);
      ClaimDeleteAt(v, name, o.nodes[other].providerID);
    }
  }

  /* ----- nodes ----- */

  lemma NodeDeleteTracks(v: View, o: Objects, name: string)
    requires Indexed(v) && Tracks(v, o)
    ensures Tracks(v.CleanupNode(name), See(o, DeleteNodeEvent(name)))
  {
    var after, seen := v.CleanupNode(name), See(o, DeleteNodeEvent(name));
    CleanupNodeMaps(v, name);
    forall other | other in seen.claims
      ensures ClaimIsTracked(after, seen.claims[other], other)
    {
      assert ClaimIsTracked(v, o.claims[other], other);
      if o.claims[other].providerID != "" {
        NodeDeleteAt(v, name, o.claims[other].providerID);
      }
    }
    forall other | other in seen.nodes
      ensures NodeIsTracked(after, seen.nodes[other], other)
    {
      assert NodeIsTracked(v, o.nodes[other], other);
      var id := o.nodes[other].providerID;
      assert HoldsNode(v.nodes[id], other);
      NodeDeleteAt(v, name, id);
    }
  }

  /** Another machine keeps its claim, and its node unless it is the one that was updated. */
  lemma NodeUpdateKeepsObjects(v: View, update: NodeUpdate, id: string)
    requires Indexed(v) && Bound(v) && TakesNode(update) && ListsOwn(update)
    requires id in v.nodes && id != update.Resolved().providerID
    ensures
      var n, after := v.nodes[id], v.UpdateNode(update).nodes;
      && (n.claim.Some? ==> id in after && after[id].claim == n.claim)
      && (n.node.Some? && !HoldsNode(n, update.node.name) ==> id in after && after[id].node == n.node)
  {
    NodeUpdateElsewhere(v, update, id);
  }

  lemma NodeUpdateTracks(v: View, o: Objects, update: NodeUpdate)
    requires Indexed(v) && Bound(v) && Tracks(v, o) && TakesNode(update) && ListsOwn(update) && NodeIdUsable(v, update.Resolved())
    ensures Tracks(v.UpdateNode(update), See(o, UpdateNodeEvent(update)))
  {
    var after, seen := v.UpdateNode(update), See(o, UpdateNodeEvent(update));
    NodeUpdateInstalls(v, update);
    assert update.Resolved() == AsTracked(update.node);
    forall name | name in seen.claims
      ensures ClaimIsTracked(after, seen.claims[name], name)
    {
      assert ClaimIsTracked(v, o.claims[name], name);
      var id := o.claims[name].providerID;
      if id != "" && id != update.Resolved().providerID {
        NodeUpdateKeepsObjects(v, update, id);
      }
    }
    forall name | name in seen.nodes
      ensures NodeIsTracked(after, seen.nodes[name], name)
    {
      if name != update.node.name {
        OtherNodeStaysTracked(v, o, update, name);
      }
    }
  }

  lemma OtherNodeStaysTracked(v: View, o: Objects, update: NodeUpdate, name: string)
    requires Indexed(v) && Bound(v) && Tracks(v, o) && TakesNode(update) && ListsOwn(update) && NodeIdUsable(v, update.Resolved())
    requires name in o.nodes && name != update.node.name
    ensures NodeIsTracked(v.UpdateNode(update), o.nodes[name], name)
  {
    NodeUpdateInstalls(v, update);
    var id := o.nodes[name].providerID;
    assert NodeIsTracked(v, o.nodes[name], name) && HoldsNode(v.nodes[id], name);
    NodeUpdateKeepsObjects(v, update, id);
  }

  /* ----- runs ----- */

  lemma MarksTrack(v: View, o: Objects, ids: seq<string>, marked: bool)
    requires Tracks(v, o)
    ensures Tracks(v.MarkAll(ids, marked), o)
  {
    var after := v.MarkAll(ids, marked);
    MarkAllAt(v, ids, marked, "");
    forall id | id in v.nodes
      ensures after.nodes[id].node == v.nodes[id].node && after.nodes[id].claim == v.nodes[id].claim
    {
      MarkAllAt(v, ids, marked, id);
    }
    SameObjectsTrack(v, after, o);
  }

  lemma StepTracks(v: View, o: Objects, e: Event)
    requires Invariant(v) && Admissible(v, e) && Tracks(v, o)
    ensures Tracks(Step(v, e), See(o, e))
  {
    match e
    case UpdateClaimEvent(claim) => ClaimUpdateTracks(v, o, claim);
    case DeleteClaimEvent(name) => ClaimDeleteTracks(v, o, name);
    case UpdateNodeEvent(update) =>
      if TakesNode(update) {
        NodeUpdateTracks(v, o, update);
      } else {
        NodeUpdateFails(v, update);
        SameMachinesTrack(v, v.UpdateNode(update), o);
      }
    case DeleteNodeEvent(name) => NodeDeleteTracks(v, o, name);
    case UpdatePodEvent(pod) =>
      PodUpdateKeepsMachines(v, pod);
      SameMachinesTrack(v, v.UpdatePod(pod), o);
    case DeletePodEvent(key) =>
      CompletePodKeepsMachines(v, key);
      SameMachinesTrack(v, v.CompletePod(key), o);
    case MarkEvent(ids, marked) => MarksTrack(v, o, ids, marked);
  }

  lemma {:induction false} RunTracks(v: View, o: Objects, events: seq<Event>)
    requires Invariant(v) && Tracks(v, o) && Run(v, events)
    ensures Invariant(After(v, events)) && Tracks(After(v, events), SeeAll(o, events))
    decreases |events|
  {
    if events != [] {
      StepKeepsInvariant(v, events[0]);
      StepTracks(v, o, events[0]);
      RunTracks(Step(v, events[0]), See(o, events[0]), events[1..]);
    }
  }

  /** The latest claim or the latest node, if one of that provider id was seen last. */
  ghost predicate SeenAt(o: Objects, id: string) {
    (exists name :: name in o.claims && o.claims[name].providerID == id) || (exists name :: name in o.nodes && o.nodes[name].providerID == id)
  }

  /**
   After every run from the empty state there is a machine for exactly the provider ids of the latest claims and nodes; each
   claim and each node is on the machine of its provider id as it was last seen; and a machine holds no other object.
   */
  lemma MachinesAreTheLatest(events: seq<Event>, id: string)
    requires Run(EMPTY, events) && id != ""
    ensures
      var v, o := After(EMPTY, events), SeeAll(NOTHING, events);
      && (id in v.nodes <==> SeenAt(o, id))
      && (forall name :: name in o.claims && o.claims[name].providerID == id ==> v.nodes[id].claim == Some(o.claims[name]))
      && (forall name :: name in o.nodes && o.nodes[name].providerID == id ==> v.nodes[id].node == Some(o.nodes[name]))
      && (id in v.nodes && v.nodes[id].claim.Some? ==> exists name :: name in o.claims && o.claims[name] == v.nodes[id].claim.value)
      && (id in v.nodes && v.nodes[id].node.Some? ==> exists name :: name in o.nodes && o.nodes[name] == v.nodes[id].node.value)
  {
    EmptyIsFine();
    assert Tracks(EMPTY, NOTHING);
    RunTracks(EMPTY, NOTHING, events);
    var v, o := After(EMPTY, events), SeeAll(NOTHING, events);
    forall name | name in o.claims && o.claims[name].providerID == id
      ensures id in v.nodes && v.nodes[id].claim == Some(o.claims[name])
    {
      assert ClaimIsTracked(v, o.claims[name], name);
    }
    forall name | name in o.nodes && o.nodes[name].providerID == id
      ensures id in v.nodes && v.nodes[id].node == Some(o.nodes[name])
    {
      assert NodeIsTracked(v, o.nodes[name], name);
    }
    if id in v.nodes {
      HeldIsSeen(v, o, id);
    }
  }

  lemma HeldIsSeen(v: View, o: Objects, id: string)
    requires Indexed(v) && Tracks(v, o) && id in v.nodes
    ensures SeenAt(o, id)
    ensures v.nodes[id].claim.Some? ==> exists name :: name in o.claims && o.claims[name] == v.nodes[id].claim.value
    ensures v.nodes[id].node.Some? ==> exists name :: name in o.nodes && o.nodes[name] == v.nodes[id].node.value
  {
    var n := v.nodes[id];
    assert Reachable(n, id, v.nodeIds, v.claimIds) && id != "";
    if n.claim.Some? {
      var name := n.claim.value.name;
      assert ClaimIsTracked(v, o.claims[name], name);
    }
    if n.node.Some? {
      var name := n.node.value.name;
      assert NodeIsTracked(v, o.nodes[name], name);
    }
  }
}
