/**
 The running per-pool totals equal what recomputing them over all tracked machines would give,
 after every sequence of events.
 */
module ClusterTotals {
  import opened Common
  import opened StateNodes
  import opened ClusterView
  import opened ClusterIndexes

  /* ----- the reference: recompute from all machines ----- */

  /** The machine counts towards the pool: it is in it, and not marked for deletion. */
  predicate Counted(n: StateNode, pool: string) {
    pool != "" && n.Present() && n.Pool() == pool && !n.MarkedForDeletion()
  }

  function Contribution(n: StateNode, pool: string, r: string): int {
    if Counted(n, pool) then Lookup(n.Capacity(), r, 0) else 0
  }

  ghost function Sum(nodes: Machines, pool: string, r: string): int
    decreases |nodes|
  {
    if nodes == map[] then 0 else
    var id :| id in nodes;
    Contribution(nodes[id], pool, r) + Sum(nodes - {id}, pool, r)
  }

  /** Every total is the recomputed sum, and a pool has an entry exactly when some machine counts towards it. */
  ghost predicate Exact(nodes: Machines, totals: Totals) {
    && (forall pool, r :: Amount(totals, pool, r) == Sum(nodes, pool, r))
    && (forall pool :: pool in totals <==> Sum(nodes, pool, NODES) > 0)
  }

  function Amount(totals: Totals, pool: string, r: string): int {
    Lookup(Lookup(totals, pool, map[]), r, 0)
  }

  /* ----- the sum, one machine at a time ----- */

  lemma {:induction false} SumRemove(nodes: Machines, id: string, pool: string, r: string)
    requires id in nodes
    ensures Sum(nodes, pool, r) == Contribution(nodes[id], pool, r) + Sum(nodes - {id}, pool, r)
    decreases |nodes|
  {
    var first :| first in nodes && Sum(nodes, pool, r) == Contribution(nodes[first], pool, r) + Sum(nodes - {first}, pool, r);
    if first != id {
      SumRemove(nodes - {first}, id, pool, r);
      SumRemove(nodes - {id}, first, pool, r);
      assert nodes - {first} - {id} == nodes - {id} - {first};
    }
  }

  lemma SumPut(nodes: Machines, id: string, n: StateNode, pool: string, r: string)
    ensures Sum(nodes[id := n], pool, r) == Sum(nodes - {id}, pool, r) + Contribution(n, pool, r)
  {
    SumRemove(nodes[id := n], id, pool, r);
    assert nodes[id := n] - {id} == nodes - {id};
  }

  lemma SumWithout(nodes: Machines, id: string, pool: string, r: string)
    ensures Sum(nodes - {id}, pool, r) == Sum(nodes, pool, r) - (if id in nodes then Contribution(nodes[id], pool, r) else 0)
  {
    if id in nodes {
      SumRemove(nodes, id, pool, r);
    } else {
      assert nodes - {id} == nodes;
    }
  }

  /** The count is positive exactly when there is a machine to count, and without one every sum is zero. */
  lemma {:induction false} SumCounts(nodes: Machines, pool: string, r: string)
    ensures Sum(nodes, pool, NODES) >= 0
    ensures Sum(nodes, pool, NODES) > 0 <==> exists id :: id in nodes && Counted(nodes[id], pool)
    ensures Sum(nodes, pool, NODES) == 0 ==> Sum(nodes, pool, r) == 0
    decreases |nodes|
  {
    if nodes != map[] {
      var id :| id in nodes;
      SumRemove(nodes, id, pool, r);
      SumRemove(nodes, id, pool, NODES);
      SumCounts(nodes - {id}, pool, r);
      if Sum(nodes - {id}, pool, NODES) > 0 {
        var other :| other in nodes - {id} && Counted((nodes - {id})[other], pool);
        assert other in nodes && Counted(nodes[other], pool);
      } else if Counted(nodes[id], pool) {
      } else {
        forall other | other in nodes
          ensures !Counted(nodes[other], pool)
        {
          if other != id {
            assert other in nodes - {id} && nodes[other] == (nodes - {id})[other];
          }
        }
      }
    }
  }

  lemma SameContribution(n: StateNode, m: StateNode, pool: string, r: string)
    requires SameObjects(n, m)
    ensures Contribution(n, pool, r) == Contribution(m, pool, r)
  {
    assert n == m.(podRequests := n.podRequests, daemonSetRequests := n.daemonSetRequests, podDisruptionCosts := n.podDisruptionCosts);
  }

  lemma {:induction false} SumSameObjects(nodes: Machines, others: Machines, pool: string, r: string)
    requires nodes.Keys == others.Keys
    requires forall id :: id in nodes ==> SameObjects(nodes[id], others[id])
    ensures Sum(nodes, pool, r) == Sum(others, pool, r)
    decreases |nodes|
  {
    if nodes == map[] {
      assert others == map[];
    } else {
      var id :| id in nodes;
      SumRemove(nodes, id, pool, r);
      SumRemove(others, id, pool, r);
      SameContribution(nodes[id], others[id], pool, r);
      SumSameObjects(nodes - {id}, others - {id}, pool, r);
    }
  }

  /* ----- one adjustment ----- */

  function Part(pool: string, of: string, amounts: ResourceList, r: string): int {
    if pool != "" && pool == of then Lookup(amounts, r, 0) else 0
  }

  lemma ApplyAmount(totals: Totals, of: string, amounts: ResourceList, subtract: bool, pool: string, r: string)
    ensures Amount(Apply(totals, of, amounts, subtract), pool, r) == Amount(totals, pool, r) + Signed(Part(pool, of, amounts, r), subtract)
  {
  }

  lemma CollectAmount(totals: Totals, of: string, pool: string, r: string)
    ensures Amount(Collect(totals, of), pool, r) == Amount(totals, pool, r)
  {
  }

  lemma ShiftAmount(totals: Totals, oldPool: string, old_: ResourceList, newPool: string, new_: ResourceList, pool: string, r: string)
    ensures Amount(Shift(totals, oldPool, old_, newPool, new_), pool, r)
         == Amount(totals, pool, r) - Part(pool, oldPool, old_, r) + Part(pool, newPool, new_, r)
  {
    var t1 := Ensure(totals, newPool);
    var t2 := Apply(t1, oldPool, old_, true);
    var t3 := Apply(t2, newPool, new_, false);
    assert Amount(t1, pool, r) == Amount(totals, pool, r);
    ApplyAmount(t1, oldPool, old_, true, pool, r);
    ApplyAmount(t2, newPool, new_, false, pool, r);
    CollectAmount(t3, oldPool, pool, r);
    CollectAmount(Collect(t3, oldPool), newPool, pool, r);
  }

  /** A touched pool keeps an entry exactly when its total is not zero; other entries stay as they were. */
  lemma ShiftKeys(totals: Totals, oldPool: string, old_: ResourceList, newPool: string, new_: ResourceList, pool: string)
    requires "" !in totals
    requires oldPool != "" && oldPool !in totals && oldPool != newPool ==> old_ == map[]
    ensures
      var after := Shift(totals, oldPool, old_, newPool, new_);
      if pool != "" && (pool == oldPool || pool == newPool)
      then pool in after <==> !AllZero(Lookup(after, pool, map[]))
      else pool in after <==> pool in totals
  {
  }

  lemma AmountsDecide(total: ResourceList)
    ensures AllZero(total) <==> forall r :: Lookup(total, r, 0) == 0
  {
    if forall r :: Lookup(total, r, 0) == 0 {
      forall r | r in total
        ensures total[r] == 0
      {
        assert Lookup(total, r, 0) == 0;
      }
    }
  }

  ghost function Share(n: Option<StateNode>, pool: string, r: string): int {
    if n.None? then 0 else Contribution(n.value, pool, r)
  }

  lemma PartIsShare(n: Option<StateNode>, pool: string, r: string)
    ensures Part(pool, PoolOf(n), Countable(n), r) == Share(n, pool, r)
  {
  }

  /** Adjusting by what leaves and what comes keeps the totals exact. */
  lemma AdjustKeepsExact(nodes: Machines, totals: Totals, after: Machines, leaving: Option<StateNode>, coming: Option<StateNode>)
    requires Exact(nodes, totals)
    requires forall pool, r :: Sum(after, pool, r) == Sum(nodes, pool, r) - Share(leaving, pool, r) + Share(coming, pool, r)
    requires leaving.Some? ==> forall pool :: Counted(leaving.value, pool) ==> pool in totals
    ensures Exact(after, Adjust(totals, leaving, coming))
  {
    var oldPool, newPool := PoolOf(leaving), PoolOf(coming);
    var adjusted := Adjust(totals, leaving, coming);
    forall pool, r
      ensures Amount(adjusted, pool, r) == Sum(after, pool, r)
    {
      ShiftAmount(totals, oldPool, Countable(leaving), newPool, Countable(coming), pool, r);
      PartIsShare(leaving, pool, r);
      PartIsShare(coming, pool, r);
    }
    assert "" !in totals by {
      SumCounts(nodes, "", NODES);
    }
    forall pool
      ensures pool in adjusted <==> Sum(after, pool, NODES) > 0
    {
      ShiftKeys(totals, oldPool, Countable(leaving), newPool, Countable(coming), pool);
      AmountsDecide(Lookup(adjusted, pool, map[]));
      SumCounts(after, pool, NODES);
      if pool != "" && (pool == oldPool || pool == newPool) {
        if Sum(after, pool, NODES) == 0 {
          forall r
            ensures Lookup(Lookup(adjusted, pool, map[]), r, 0) == 0
          {
            SumCounts(after, pool, r);
            assert Amount(adjusted, pool, r) == Sum(after, pool, r);
          }
        } else {
          assert Amount(adjusted, pool, NODES) == Sum(after, pool, NODES);
        }
      } else {
        assert Sum(after, pool, NODES) == Sum(nodes, pool, NODES);
      }
    }
  }

  ghost predicate TotalsExact(v: View) {
    Exact(v.nodes, v.totals)
  }

  /** A machine that counts has an entry to subtract from: no update writes to a missing total. */
  lemma CountedHasTotal(nodes: Machines, totals: Totals, id: string, pool: string)
    requires Exact(nodes, totals) && id in nodes && Counted(nodes[id], pool)
    ensures pool in totals
  {
    SumCounts(nodes, pool, NODES);
  }

  lemma PutKeepsExact(v: View, id: string, n: StateNode)
    requires TotalsExact(v)
    ensures Exact(v.Put(id, n).nodes, v.Put(id, n).totals)
  {
    forall pool, r
      ensures Sum(v.nodes[id := n], pool, r) == Sum(v.nodes, pool, r) - Share(v.Find(id), pool, r) + Share(Some(n), pool, r)
    {
      SumPut(v.nodes, id, n, pool, r);
      SumWithout(v.nodes, id, pool, r);
    }
    if id in v.nodes {
      forall pool | Counted(v.nodes[id], pool)
        ensures pool in v.totals
      {
        CountedHasTotal(v.nodes, v.totals, id, pool);
      }
    }
    AdjustKeepsExact(v.nodes, v.totals, v.nodes[id := n], v.Find(id), Some(n));
  }

  lemma DropKeepsExact(v: View, id: string)
    requires TotalsExact(v)
    ensures Exact(v.Drop(id).nodes, v.Drop(id).totals)
  {
    forall pool, r
      ensures Sum(v.nodes - {id}, pool, r) == Sum(v.nodes, pool, r) - Share(v.Find(id), pool, r) + Share(None, pool, r)
    {
      SumWithout(v.nodes, id, pool, r);
    }
    if id in v.nodes {
      forall pool | Counted(v.nodes[id], pool)
        ensures pool in v.totals
      {
        CountedHasTotal(v.nodes, v.totals, id, pool);
      }
    }
    AdjustKeepsExact(v.nodes, v.totals, v.nodes - {id}, v.Find(id), None);
  }

  /* ----- every operation ----- */

  lemma ClaimCleanupKeepsTotals(v: View, name: string)
    requires TotalsExact(v)
    ensures TotalsExact(v.CleanupClaim(name))
  {
    var id := Lookup(v.claimIds, name, "");
    if id != "" && id in v.nodes {
      DropKeepsExact(v, id);
      PutKeepsExact(v, id, v.nodes[id].(claim := None));
    }
  }

  lemma ClaimUpdateKeepsTotals(v: View, c: NodeClaim)
    requires TotalsExact(v)
    ensures TotalsExact(v.UpdateNodeClaim(c))
  {
    if c.providerID != "" {
      ClaimCleanupKeepsTotals(v, c.name);
      PutKeepsExact(MovedClaim(v, c), c.providerID, v.WithClaim(c));
    }
  }

  lemma NodeCleanupKeepsTotals(v: View, name: string)
    requires TotalsExact(v)
    ensures TotalsExact(v.CleanupNode(name))
  {
    var id := Lookup(v.nodeIds, name, "");
    if id != "" && id in v.nodes {
      DropKeepsExact(v, id);
      PutKeepsExact(v, id, v.nodes[id].(node := None));
    }
  }

  lemma SameMachinesKeepTotals(v: View, w: View)
    requires TotalsExact(v) && SameMachines(v, w)
    ensures TotalsExact(w)
  {
    forall pool, r
      ensures Sum(v.nodes, pool, r) == Sum(w.nodes, pool, r)
    {
      SumSameObjects(v.nodes, w.nodes, pool, r);
    }
  }

  lemma NodeUpdateKeepsTotals(v: View, update: NodeUpdate)
    requires TotalsExact(v)
    ensures TotalsExact(v.UpdateNode(update))
  {
    if !update.Skipped() {
      var node := update.Resolved();
      var (w, n) := Prepared(v, update);
      PreparedKeepsMachines(v, update);
      SameMachinesKeepTotals(v, w);
      if n.Some? && update.limitsKnown {
        NodeCleanupKeepsTotals(w, node.name);
        PutKeepsExact(MovedNode(w, node.name, node.providerID), node.providerID, n.value);
      }
    }
  }

  lemma MarkKeepsTotals(v: View, id: string, marked: bool)
    requires TotalsExact(v)
    ensures TotalsExact(v.Mark(id, marked))
  {
    if id in v.nodes {
      PutKeepsExact(v, id, v.nodes[id].(marked := marked));
    }
  }
}
