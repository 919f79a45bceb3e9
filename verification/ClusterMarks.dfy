/**
 How the claim sets of NodePoolState follow the marks of cluster state: over every run of events a claim of a tracked machine is
 filed as deleting once it is marked or deleted, and as active when it is neither.
 */
module ClusterMarks {
  import opened Common
  import opened StateNodes
  import opened NodePools
  import opened ClusterView
  import opened ClusterIndexes
  import opened ClusterPods
  import opened ClusterEffects
  import opened ClusterRuns

  /** The machine's claim is filed under its pool: as deleting if it must be, and only if the machine counts as deleting. */
  ghost predicate FiledAs(n: StateNode, p: Pools) {
    n.claim.Some? && n.claim.value.Pool() != "" ==>
      var claim := n.claim.value;
      var sets := p.Sets(claim.Pool());
      && (n.marked || claim.deleting ==> claim.name in sets.deleting)
      && (claim.name in sets.deleting ==> n.marked || claim.deleting || claim.terminating)
      && (claim.name in sets.active || claim.name in sets.deleting)
  }

  ghost predicate Filed(v: View) {
    v.pools.WellFormed() && forall id :: id in v.nodes ==> FiledAs(v.nodes[id], v.pools)
  }

  /** The two filings of a claim that a change of the pools leaves alone. */
  ghost predicate SameFiling(p: Pools, q: Pools, pool: string, claim: string) {
    && (claim in p.Sets(pool).active <==> claim in q.Sets(pool).active)
    && (claim in p.Sets(pool).deleting <==> claim in q.Sets(pool).deleting)
  }

  lemma StaysFiled(n: StateNode, m: StateNode, p: Pools, q: Pools)
    requires FiledAs(n, p) && m.claim == n.claim && m.marked == n.marked
    requires n.claim.Some? ==> SameFiling(p, q, n.claim.value.Pool(), n.claim.value.name)
    ensures FiledAs(m, q)
  {
  }

  lemma SameMachinesStayFiled(v: View, w: View)
    requires Filed(v) && SameMachines(v, w)
    ensures Filed(w)
  {
    forall id | id in w.nodes
      ensures FiledAs(w.nodes[id], w.pools)
    {
      assert SameObjects(v.nodes[id], w.nodes[id]);
      StaysFiled(v.nodes[id], w.nodes[id], v.pools, w.pools);
    }
  }

  /* ----- what the pools do ----- */

  /** Marking a claim files it as the mark says, and leaves the filing of other claims alone. */
  lemma MarkFiles(p: Pools, pool: string, claim: string, mark: Mark)
    requires p.WellFormed()
    ensures
      var after := p.MarkClaim(pool, claim, mark);
      && after.WellFormed()
      && (claim in after.Sets(pool).active <==> mark == Active) && (claim in after.Sets(pool).deleting <==> mark == Deleting)
      && (forall q, other :: other != claim || q != pool ==> SameFiling(p, after, q, other))
  {
    MarkMoves(p, pool, claim, mark);
    var before, after := p.Sets(pool), p.MarkClaim(pool, claim, mark).Sets(pool);
    assert before.Of(Active) == before.active && before.Of(Deleting) == before.deleting;
    assert after.Of(Active) == after.active && after.Of(Deleting) == after.deleting;
  }

  /** An update files a claim as deleting if the machine counts as deleting, and as active otherwise. */
  lemma UpdateFiles(p: Pools, claim: string, pool: string, marked: bool)
    requires p.WellFormed() && pool != "" && claim != ""
    ensures
      var after := p.UpdateClaim(claim, pool, marked);
      && after.WellFormed()
      && (claim in after.Sets(pool).deleting <==> marked) && (claim in after.Sets(pool).active <==> !marked)
      && (forall q, other :: other != claim || q != pool ==> SameFiling(p, after, q, other))
  {
    var entered := p.EnsureEntry(pool).(owner := p.owner[claim := pool]);
    EntryFilesNothing(p, claim, pool);
    var mark := if marked then Deleting else Active;
    MarkFiles(entered, pool, claim, mark);
    var after := p.UpdateClaim(claim, pool, marked);
    forall q, other | other != claim || q != pool
      ensures SameFiling(p, after, q, other)
    {
      assert SameFiling(entered, after, q, other);
    }
  }

  lemma EntryFilesNothing(p: Pools, claim: string, pool: string)
    requires p.WellFormed()
    ensures
      var entered := p.EnsureEntry(pool).(owner := p.owner[claim := pool]);
      entered.WellFormed() && forall q :: entered.Sets(q) == p.Sets(q)
  {
    var entered := p.EnsureEntry(pool).(owner := p.owner[claim := pool]);
    assert entered.claims.Keys == p.claims.Keys + {pool} && entered.reserved.Keys == p.reserved.Keys + {pool};
  }

  /** Cleaning a claim up leaves every other claim filed that was filed as active or deleting. */
  lemma CleanupKeepsFiling(p: Pools, claim: string, pool: string, other: string)
    requires p.WellFormed() && other != claim && (other in p.Sets(pool).active || other in p.Sets(pool).deleting)
    ensures p.Cleanup(claim).WellFormed() && SameFiling(p, p.Cleanup(claim), pool, other)
  {
  }

  lemma CleanupIsWellFormed(p: Pools, claim: string)
    requires p.WellFormed()
    ensures p.Cleanup(claim).WellFormed()
  {
  }

  /* ----- what events do ----- */

  lemma ClaimDeleteStaysFiled(v: View, name: string)
    requires Indexed(v) && Filed(v)
    ensures Filed(v.CleanupClaim(name))
  {
    var after := v.CleanupClaim(name);
    CleanupIsWellFormed(v.pools, name);
    ClaimDeleteAfter(v, name);
    forall id | id in after.nodes
      ensures FiledAs(after.nodes[id], after.pools)
    {
      ClaimDeleteStaysFiledAt(v, name, id);
    }
  }

  lemma ClaimDeleteAfter(v: View, name: string)
    requires Indexed(v)
    ensures v.CleanupClaim(name).nodes.Keys <= v.nodes.Keys && v.CleanupClaim(name).pools == v.pools.Cleanup(name)
  {
    CleanupClaimMaps(v, name);
  }

  lemma ClaimDeleteStaysFiledAt(v: View, name: string, id: string)
    requires Indexed(v) && Filed(v) && id in v.CleanupClaim(name).nodes
    ensures FiledAs(v.CleanupClaim(name).nodes[id], v.pools.Cleanup(name))
  {
    ClaimDeleteAfter(v, name);
    ClaimDeleteAt(v, name, id);
    var n := v.nodes[id];
    if n.claim.Some? && n.claim.value.name != name && n.claim.value.Pool() != "" {
      assert FiledAs(n, v.pools);
      CleanupKeepsFiling(v.pools, name, n.claim.value.Pool(), n.claim.value.name);
    }
  }

  /** The pools after a claim update: those of a cleanup if the claim moved, with the claim filed anew. */
  lemma ClaimUpdatePools(v: View, c: NodeClaim)
    requires Indexed(v) && ClaimIdUsable(v, c)
    ensures
      var base := if c.providerID != "" && v.ClaimMoves(c) then v.pools.Cleanup(c.name) else v.pools;
      var marked := c.providerID != "" && v.WithClaim(c).MarkedForDeletion();
      v.UpdateNodeClaim(c).pools == base.UpdateClaim(c.name, c.Pool(), marked)
  {
  }

  lemma ClaimUpdateStaysFiledAt(v: View, c: NodeClaim, id: string)
    requires Indexed(v) && Filed(v) && c.name != "" && ClaimIdUsable(v, c) && id in v.UpdateNodeClaim(c).nodes && id != c.providerID
    ensures FiledAs(v.UpdateNodeClaim(c).nodes[id], v.UpdateNodeClaim(c).pools)
  {
    ClaimUpdateKeys(v, c);
    ClaimUpdateElsewhere(v, c, id);
    ClaimUpdatePools(v, c);
    var n := v.nodes[id];
    if n.claim.Some? && n.claim.value.name != c.name && n.claim.value.Pool() != "" {
      OtherStaysFiled(v.pools, c.name, c.Pool(), n, c.providerID != "" && v.ClaimMoves(c), c.providerID != "" && v.WithClaim(c).MarkedForDeletion());
    }
  }

  lemma OtherStaysFiled(p: Pools, claim: string, pool: string, n: StateNode, moves: bool, marked: bool)
    requires p.WellFormed() && FiledAs(n, p) && n.claim.Some? && n.claim.value.name != claim && n.claim.value.Pool() != "" && claim != ""
    ensures
      var base := if moves then p.Cleanup(claim) else p;
      FiledAs(n, base.UpdateClaim(claim, pool, marked))
  {
    var base := if moves then p.Cleanup(claim) else p;
    if moves {
      CleanupIsWellFormed(p, claim);
      CleanupKeepsFiling(p, claim, n.claim.value.Pool(), n.claim.value.name);
    }
    StaysFiled(n, n, p, base);
    if pool != "" {
      UpdateFiles(base, claim, pool, marked);
      StaysFiled(n, n, base, base.UpdateClaim(claim, pool, marked));
    }
  }

  lemma ClaimUpdateFiles(v: View, c: NodeClaim)
    requires Indexed(v) && v.pools.WellFormed() && c.name != "" && ClaimIdUsable(v, c)
    ensures v.UpdateNodeClaim(c).pools.WellFormed()
    ensures c.providerID != "" ==> c.providerID in v.UpdateNodeClaim(c).nodes && FiledAs(v.UpdateNodeClaim(c).nodes[c.providerID], v.UpdateNodeClaim(c).pools)
  {
    ClaimUpdatePools(v, c);
    ClaimUpdateInstalls(v, c);
    CleanupIsWellFormed(v.pools, c.name);
    var base := if c.providerID != "" && v.ClaimMoves(c) then v.pools.Cleanup(c.name) else v.pools;
    if c.Pool() != "" {
      UpdateFiles(base, c.name, c.Pool(), c.providerID != "" && v.WithClaim(c).MarkedForDeletion());
    }
  }

  lemma ClaimUpdateStaysFiled(v: View, c: NodeClaim)
    requires Indexed(v) && Filed(v) && c.name != "" && ClaimIdUsable(v, c)
    ensures Filed(v.UpdateNodeClaim(c))
  {
    var after := v.UpdateNodeClaim(c);
    ClaimUpdateFiles(v, c);
    ClaimUpdateKeys(v, c);
    ClaimUpdateInstalls(v, c);
    forall id | id in after.nodes
      ensures FiledAs(after.nodes[id], after.pools)
    {
      if id != c.providerID {
        ClaimUpdateStaysFiledAt(v, c, id);
      }
    }
  }

  lemma NodeDeleteStaysFiled(v: View, name: string)
    requires Indexed(v) && Filed(v)
    ensures Filed(v.CleanupNode(name))
  {
    var after := v.CleanupNode(name);
    CleanupNodeMaps(v, name);
    forall id | id in after.nodes
      ensures FiledAs(after.nodes[id], after.pools)
    {
      NodeDeleteAt(v, name, id);
      StaysFiled(v.nodes[id], after.nodes[id], v.pools, after.pools);
    }
  }

  lemma NodeUpdateStaysFiled(v: View, update: NodeUpdate)
    requires Indexed(v) && Bound(v) && Filed(v) && TakesNode(update) && ListsOwn(update)
    ensures Filed(v.UpdateNode(update))
  {
    var after, at := v.UpdateNode(update), update.Resolved().providerID;
    NodeUpdateInstalls(v, update);
    NodeUpdateKeys(v, update);
    forall id | id in after.nodes
      ensures FiledAs(after.nodes[id], after.pools)
    {
      if id == at {
        if id in v.nodes {
          StaysFiled(v.nodes[id], after.nodes[id], v.pools, after.pools);
        }
      } else {
        NodeUpdateElsewhere(v, update, id);
        StaysFiled(v.nodes[id], after.nodes[id], v.pools, after.pools);
      }
    }
  }

  lemma NodeUpdateKeys(v: View, update: NodeUpdate)
    requires Indexed(v) && TakesNode(update)
    ensures v.UpdateNode(update).nodes.Keys <= v.nodes.Keys + {update.Resolved().providerID}
  {
    var node := update.Resolved();
    var (w, n) := Prepared(v, update);
    UpdateIsInstall(v, update);
    PreparedKeepsMachines(v, update);
    SameMachinesKeepIndexes(v, w);
    InstallMaps(w, node.name, node.providerID, n.value);
    if w.NodeMoves(node.name, node.providerID) {
      CleanupNodeMaps(w, node.name);
    }
  }

  /** The pools after a mark: the claim is filed anew, unless it is unmarked while it is being deleted. */
  lemma MarkPools(v: View, id: string, marked: bool)
    requires id in v.nodes
    ensures
      var claim := v.nodes[id].claim;
      v.Mark(id, marked).pools ==
        if claim.None? || (!marked && claim.value.deleting) then v.pools
        else v.pools.MarkClaim(claim.value.Pool(), claim.value.name, if marked then Deleting else Active)
  {
  }

  lemma MarkStaysFiled(v: View, id: string, marked: bool)
    requires Indexed(v) && Filed(v)
    ensures Filed(v.Mark(id, marked))
  {
    MarkMaps(v, id, marked);
    if id in v.nodes {
      MarkPools(v, id, marked);
      var claim, after := v.nodes[id].claim, v.Mark(id, marked);
      if claim.Some? {
        MarkFiles(v.pools, claim.value.Pool(), claim.value.name, if marked then Deleting else Active);
      }
      forall other | other in after.nodes
        ensures FiledAs(after.nodes[other], after.pools)
      {
        MarkStaysFiledAt(v, id, marked, other);
      }
    }
  }

  lemma MarkStaysFiledAt(v: View, id: string, marked: bool, other: string)
    requires Indexed(v) && Filed(v) && id in v.nodes && other in v.nodes
    ensures other in v.Mark(id, marked).nodes && FiledAs(v.Mark(id, marked).nodes[other], v.Mark(id, marked).pools)
  {
    MarkMaps(v, id, marked);
    MarkPools(v, id, marked);
    var claim, n, after := v.nodes[id].claim, v.nodes[other], v.Mark(id, marked);
    assert FiledAs(n, v.pools);
    if claim.Some? {
      if other == id {
        MarkedIsFiled(n, v.pools, marked);
      } else {
        NamesAreUnique(v, id, other);
        MarkFiles(v.pools, claim.value.Pool(), claim.value.name, if marked then Deleting else Active);
        StaysFiled(n, n, v.pools, after.pools);
      }
    }
  }

  /** The marked machine itself is filed as its new mark says. */
  lemma MarkedIsFiled(n: StateNode, p: Pools, marked: bool)
    requires p.WellFormed() && n.claim.Some? && FiledAs(n, p)
    ensures
      var claim := n.claim.value;
      var after := if !marked && claim.deleting then p else p.MarkClaim(claim.Pool(), claim.name, if marked then Deleting else Active);
      FiledAs(n.(marked := marked), after)
  {
    var claim := n.claim.value;
    MarkFiles(p, claim.Pool(), claim.name, if marked then Deleting else Active);
  }

  lemma {:induction false} MarkAllStaysFiled(v: View, ids: seq<string>, marked: bool)
    requires Indexed(v) && Filed(v)
    ensures Filed(v.MarkAll(ids, marked))
    decreases |ids|
  {
    if ids != [] {
      MarkStaysFiled(v, ids[0], marked);
      MarkKeepsIndexes(v, ids[0], marked);
      MarkAllStaysFiled(v.Mark(ids[0], marked), ids[1..], marked);
    }
  }

  /* ----- runs ----- */

  lemma StepStaysFiled(v: View, e: Event)
    requires Invariant(v) && Filed(v) && Admissible(v, e)
    ensures Filed(Step(v, e))
  {
    match e
    case UpdateClaimEvent(claim) => ClaimUpdateStaysFiled(v, claim);
    case DeleteClaimEvent(name) => ClaimDeleteStaysFiled(v, name);
    case UpdateNodeEvent(update) =>
      if TakesNode(update) {
        NodeUpdateStaysFiled(v, update);
      } else {
        NodeUpdateFails(v, update);
        SameMachinesStayFiled(v, v.UpdateNode(update));
      }
    case DeleteNodeEvent(name) => NodeDeleteStaysFiled(v, name);
    case UpdatePodEvent(pod) =>
      PodUpdateKeepsMachines(v, pod);
      SameMachinesStayFiled(v, v.UpdatePod(pod));
    case DeletePodEvent(key) =>
      CompletePodKeepsMachines(v, key);
      SameMachinesStayFiled(v, v.CompletePod(key));
    case MarkEvent(ids, marked) => MarkAllStaysFiled(v, ids, marked);
  }

  lemma {:induction false} RunStaysFiled(v: View, events: seq<Event>)
    requires Invariant(v) && Filed(v) && Run(v, events)
    ensures Filed(After(v, events))
    decreases |events|
  {
    if events != [] {
      StepKeepsInvariant(v, events[0]);
      StepStaysFiled(v, events[0]);
      RunStaysFiled(Step(v, events[0]), events[1..]);
    }
  }

  /**
   Over every run: the claim of a tracked machine is in one of the two sets of its pool. If it is more than just terminating, it is among
   the deleting ones if and only if the machine is marked for deletion or the claim is deleted.
   */
  lemma ClaimsAreFiled(events: seq<Event>, id: string)
    requires Run(EMPTY, events) && id in After(EMPTY, events).nodes
    ensures
      var v := After(EMPTY, events);
      var n := v.nodes[id];
      n.claim.Some? && n.claim.value.Pool() != "" ==>
        var sets, name := v.pools.Sets(n.claim.value.Pool()), n.claim.value.name;
        && (name in sets.active <==> name !in sets.deleting)
        && (!n.claim.value.terminating || n.claim.value.deleting || n.marked ==> (name in sets.deleting <==> n.MarkedForDeletion()))
  {
    EmptyIsFine();
    RunStaysFiled(EMPTY, events);
    var v := After(EMPTY, events);
    assert FiledAs(v.nodes[id], v.pools);
    var n := v.nodes[id];
    if n.claim.Some? && n.claim.value.Pool() in v.pools.claims {
      assert v.pools.claims[n.claim.value.Pool()].Disjoint();
    }
  }

  /* ----- a terminating claim ----- */

  const TERMINATING := NodeClaim("c", "i", map[NODEPOOL_LABEL := "p"], false, true, map[])

  lemma TwoEvents(v: View, a: Event, b: Event)
    requires Admissible(v, a) && Admissible(Step(v, a), b)
    ensures Run(v, [a, b]) && After(v, [a, b]) == Step(Step(v, a), b)
  {
    var w := Step(Step(v, a), b);
    assert [a, b][1..] == [b] && [b][1..] == [];
    assert Run(w, []) && After(w, []) == w;
    assert Run(Step(v, a), [b]) && After(Step(v, a), [b]) == w;
  }

  lemma MarkOne(v: View, id: string, marked: bool)
    ensures v.MarkAll([id], marked) == v.Mark(id, marked)
  {
    assert [id][1..] == [];
    assert v.Mark(id, marked).MarkAll([], marked) == v.Mark(id, marked);
  }

  /** Unmarking a machine whose claim is just terminating files the claim as active, though the machine counts as deleting. */
  lemma UnmarkedTerminating(v: View, id: string)
    requires v.pools.WellFormed() && id in v.nodes && v.nodes[id].claim == Some(TERMINATING)
    ensures
      var after := v.Mark(id, false);
      && id in after.nodes && after.nodes[id].MarkedForDeletion()
      && "c" in after.pools.Sets("p").active && "c" !in after.pools.Sets("p").deleting
  {
    MarkMaps(v, id, false);
    MarkPools(v, id, false);
    assert TERMINATING.Pool() == "p";
    MarkFiles(v.pools, "p", "c", Active);
  }

  /** A run in which that happens. */
  lemma TerminatingClaimBecomesActive()
    ensures
      var events := [UpdateClaimEvent(TERMINATING), MarkEvent(["i"], false)];
      && Run(EMPTY, events)
      && var v := After(EMPTY, events);
         "i" in v.nodes && v.nodes["i"].MarkedForDeletion() && "c" in v.pools.Sets("p").active && "c" !in v.pools.Sets("p").deleting
  {
    var claimed := EMPTY.UpdateNodeClaim(TERMINATING);
    EmptyIsFine();
    ClaimUpdateInstalls(EMPTY, TERMINATING);
    ClaimUpdateFiles(EMPTY, TERMINATING);
    UnmarkedTerminating(claimed, "i");
    MarkOne(claimed, "i", false);
    TwoEvents(EMPTY, UpdateClaimEvent(TERMINATING), MarkEvent(["i"], false));
  }
}
