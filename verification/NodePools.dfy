/**
 The per-NodePool claim sets and reservation counters of `NodePoolState`, as a value:
 every operation is a function from one `Pools` to the next. `NodePoolState` below is
 the mutable object, whose methods are proved to perform exactly these functions.
 */
module NodePools {
  import opened Common

  datatype ClaimSets = ClaimSets(active: set<string>, deleting: set<string>, pending: set<string>) {
    function All(): set<string> {
      active + deleting + pending
    }

    predicate Disjoint() {
      active !! deleting && active !! pending && deleting !! pending
    }

    function Without(claim: string): ClaimSets {
      ClaimSets(active - {claim}, deleting - {claim}, pending - {claim})
    }

    function Count(): int {
      |active| + |deleting| + |pending|
    }

    /** The set that a mark names. */
    function Of(mark: Mark): set<string> {
      match mark
      case Active => active
      case Deleting => deleting
      case PendingDisruption => pending
    }
  }

  const NO_CLAIMS := ClaimSets({}, {}, {})

  datatype Mark = Active | Deleting | PendingDisruption

  datatype Pools = Pools(claims: map<string, ClaimSets>, owner: map<string, string>, reserved: map<string, int>) {

    function Sets(pool: string): ClaimSets {
      Lookup(claims, pool, NO_CLAIMS)
    }

    function Reserved(pool: string): int {
      Lookup(reserved, pool, 0)
    }

    function EnsureEntry(pool: string): Pools {
      Pools(claims[pool := Sets(pool)], owner, reserved[pool := Reserved(pool)])
    }

    /** MarkNodeClaimActive, MarkNodeClaimDeleting and MarkNodeClaimPendingDisruption. */
    function MarkClaim(pool: string, claim: string, mark: Mark): Pools {
      var rest := Sets(pool).Without(claim);
      var sets := match mark
        case Active => rest.(active := rest.active + {claim})
        case Deleting => rest.(deleting := rest.deleting + {claim})
        case PendingDisruption => rest.(pending := rest.pending + {claim});
      EnsureEntry(pool).(claims := claims[pool := sets])
    }

    function UpdateClaim(claim: string, pool: string, markedForDeletion: bool): Pools {
      if pool == "" then this else
      var mapped := if claim == "" then this else EnsureEntry(pool).(owner := owner[claim := pool]);
      mapped.MarkClaim(pool, claim, if markedForDeletion then Deleting else Active)
    }

    /** The pool whose entry Cleanup(claim) works on. */
    function OwnerOf(claim: string): string {
      Lookup(owner, claim, "")
    }

    /** Whether Cleanup(claim) deletes the whole pool entry, reservations included. */
    predicate CleanupDrops(claim: string) {
      var pool := OwnerOf(claim);
      pool in claims && claims[pool].active <= {claim} && claims[pool].deleting <= {claim}
    }

    function Cleanup(claim: string): Pools {
      var pool := OwnerOf(claim);
      if pool !in claims then
        this.(owner := owner - {claim})
      else if CleanupDrops(claim) then
        Pools(claims - {pool}, owner - {claim}, reserved - {pool})
      else
        Pools(claims[pool := claims[pool].Without(claim)], owner - {claim}, reserved)
    }

    /** How many of the wanted slots ReserveNodeCount grants. */
    function Grant(pool: string, limit: int, wanted: int): int {
      var remaining := limit - Sets(pool).Count() - Reserved(pool);
      if remaining < 0 then 0 else Min(wanted, remaining)
    }

    function Reserve(pool: string, limit: int, wanted: int): Pools {
      EnsureEntry(pool).(reserved := reserved[pool := Reserved(pool) + Grant(pool, limit, wanted)])
    }

    function Release(pool: string, count: int): Pools {
      if pool !in reserved then this else this.(reserved := reserved[pool := Max(reserved[pool] - count, 0)])
    }

    /** Entries are created and dropped in both maps together, and no claim is in two sets of a pool. */
    ghost predicate WellFormed() {
      && claims.Keys == reserved.Keys
      && (forall pool :: pool in claims ==> claims[pool].Disjoint())
    }

  }

  const NO_POOLS := Pools(map[], map[], map[])

  ghost predicate Moved(before: ClaimSets, after: ClaimSets, claim: string, mark: Mark) {
    forall m :: after.Of(m) == if m == mark then before.Of(m) + {claim} else before.Of(m) - {claim}
  }

  /** Marking moves a claim into the set the mark names, out of the other two, and touches no other claim or pool. */
  lemma MarkMoves(p: Pools, pool: string, claim: string, mark: Mark)
    requires p.WellFormed()
    ensures Moved(p.Sets(pool), p.MarkClaim(pool, claim, mark).Sets(pool), claim, mark)
    ensures p.MarkClaim(pool, claim, mark).WellFormed()
    ensures p.MarkClaim(pool, claim, mark).Sets(pool).All() == p.Sets(pool).All() + {claim}
    ensures forall other :: other != pool ==> p.MarkClaim(pool, claim, mark).Sets(other) == p.Sets(other)
    ensures forall q :: p.MarkClaim(pool, claim, mark).Reserved(q) == p.Reserved(q)
  {
    var after := p.MarkClaim(pool, claim, mark);
    assert after.claims.Keys == p.claims.Keys + {pool};
    assert after.reserved.Keys == p.reserved.Keys + {pool};
    assert after.Sets(pool).Disjoint();
    assert p.Sets(pool).Of(mark) - {claim} + {claim} == p.Sets(pool).Of(mark) + {claim};
  }

  /** A claim that is new to the pool makes it one larger, whatever the mark. */
  lemma MarkCounts(p: Pools, pool: string, claim: string, mark: Mark)
    requires p.WellFormed() && claim !in p.Sets(pool).All()
    ensures p.MarkClaim(pool, claim, mark).Sets(pool).Count() == p.Sets(pool).Count() + 1
  {
    var sets := p.Sets(pool);
    assert sets.active - {claim} == sets.active && sets.deleting - {claim} == sets.deleting && sets.pending - {claim} == sets.pending;
  }

  /** A claim is never in two sets of its pool, and the size of the pool is the sum of the three counts. */
  lemma CountIsSize(sets: ClaimSets)
    requires sets.Disjoint()
    ensures |sets.All()| == sets.Count()
  {
    assert |sets.active + sets.deleting| == |sets.active| + |sets.deleting|;
  }

  /** Cleaning a claim up drops its pool's entry if and only if no other claim is active or deleting; pending ones do not keep it. */
  lemma CleanupMeaning(p: Pools, claim: string)
    requires p.WellFormed() && p.OwnerOf(claim) in p.claims
    ensures
      var pool, after := p.OwnerOf(claim), p.Cleanup(claim);
      && after.owner == p.owner - {claim}
      && (pool in after.claims <==> exists other :: other != claim && (other in p.Sets(pool).active || other in p.Sets(pool).deleting))
      && (pool in after.claims ==> after.Reserved(pool) == p.Reserved(pool) && forall m :: after.Sets(pool).Of(m) == p.Sets(pool).Of(m) - {claim})
      && (pool !in after.claims ==> after.Reserved(pool) == 0 && after.Sets(pool) == NO_CLAIMS)
      && (forall q :: q != pool ==> after.Sets(q) == p.Sets(q) && after.Reserved(q) == p.Reserved(q))
  {
    var pool := p.OwnerOf(claim);
    var sets := p.claims[pool];
    if !p.CleanupDrops(claim) {
      var other :| other in sets.active + sets.deleting && other != claim;
      assert other in p.Sets(pool).active || other in p.Sets(pool).deleting;
    }
  }

  /** A release gives slots of a known pool back, down to none, and touches no other. */
  lemma ReleaseMeaning(p: Pools, pool: string, count: int)
    ensures p.Release(pool, count).Reserved(pool) == if pool in p.reserved then Max(p.Reserved(pool) - count, 0) else 0
    ensures forall q :: q != pool ==> p.Release(pool, count).Reserved(q) == p.Reserved(q)
    ensures p.Release(pool, count).claims == p.claims && p.Release(pool, count).owner == p.owner
  {
  }

  /** As many of the wanted slots are granted as fit under the limit beside what the pool has and has promised. */
  lemma GrantMeaning(p: Pools, pool: string, limit: int, wanted: int, k: int)
    requires wanted >= 0 && k >= 1
    ensures p.Grant(pool, limit, wanted) >= 0
    ensures k <= p.Grant(pool, limit, wanted) <==> k <= wanted && p.Sets(pool).Count() + p.Reserved(pool) + k <= limit
  {
  }

  /**
   The object the controllers share. Each method runs under its mutex, so it is one atomic step; each is
   proved to perform the function of the same name on `Pools`.
   */
  class NodePoolState {
    var claims: map<string, ClaimSets>
    var owner: map<string, string>
    var reserved: map<string, int>

    ghost function View(): Pools
      reads this
    {
      Pools(claims, owner, reserved)
    }

    constructor ()
      ensures View() == NO_POOLS
    {
      claims, owner, reserved := map[], map[], map[];
    }

    method EnsureNodePoolEntry(pool: string)
      modifies this
      ensures View() == old(View()).EnsureEntry(pool)
      ensures pool in claims && pool in reserved
    {
      ghost var before := View();
      if pool !in claims {
        claims := claims[pool := NO_CLAIMS];
      }
      if pool !in reserved {
        reserved := reserved[pool := 0];
      }
      assert claims == before.claims[pool := before.Sets(pool)];
      assert reserved == before.reserved[pool := before.Reserved(pool)];
    }

    method SetNodeClaimMapping(pool: string, claim: string)
      modifies this
      ensures View() == if pool == "" || claim == "" then old(View())
                        else old(View()).EnsureEntry(pool).(owner := old(owner)[claim := pool])
    {
      if pool == "" || claim == "" {
        return;
      }
      EnsureNodePoolEntry(pool);
      owner := owner[claim := pool];
    }

    method MarkNodeClaimActive(pool: string, claim: string)
      modifies this
      ensures View() == old(View()).MarkClaim(pool, claim, Active)
    {
      EnsureNodePoolEntry(pool);
      var sets := claims[pool];
      sets := sets.(pending := sets.pending - {claim});
      sets := sets.(deleting := sets.deleting - {claim});
      sets := sets.(active := sets.active + {claim});
      assert sets.active == claims[pool].active - {claim} + {claim};
      claims := claims[pool := sets];
    }

    method MarkNodeClaimDeleting(pool: string, claim: string)
      modifies this
      ensures View() == old(View()).MarkClaim(pool, claim, Deleting)
    {
      EnsureNodePoolEntry(pool);
      var sets := claims[pool];
      sets := sets.(pending := sets.pending - {claim});
      sets := sets.(deleting := sets.deleting + {claim});
      sets := sets.(active := sets.active - {claim});
      assert sets.deleting == claims[pool].deleting - {claim} + {claim};
      claims := claims[pool := sets];
    }

    method MarkNodeClaimPendingDisruption(pool: string, claim: string)
      modifies this
      ensures View() == old(View()).MarkClaim(pool, claim, PendingDisruption)
    {
      EnsureNodePoolEntry(pool);
      var sets := claims[pool];
      sets := sets.(active := sets.active - {claim});
      sets := sets.(deleting := sets.deleting - {claim});
      sets := sets.(pending := sets.pending + {claim});
      assert sets.pending == claims[pool].pending - {claim} + {claim};
      claims := claims[pool := sets];
    }

    method Cleanup(claim: string)
      modifies this
      ensures View() == old(View()).Cleanup(claim)
    {
      var pool := Lookup(owner, claim, "");
      if pool in claims {
        var sets := claims[pool];
        sets := sets.(deleting := sets.deleting - {claim});
        sets := sets.(active := sets.active - {claim});
        sets := sets.(pending := sets.pending - {claim});
        assert sets.active == {} && sets.deleting == {} <==> View().CleanupDrops(claim);
        if |sets.active| == 0 && |sets.deleting| == 0 {
          claims := claims - {pool};
          reserved := reserved - {pool};
        } else {
          claims := claims[pool := sets];
        }
      }
      owner := owner - {claim};
    }

    method UpdateNodeClaim(claim: string, pool: string, markedForDeletion: bool)
      modifies this
      ensures View() == old(View()).UpdateClaim(claim, pool, markedForDeletion)
    {
      if pool == "" {
        return;
      }
      SetNodeClaimMapping(pool, claim);
      if markedForDeletion {
        MarkNodeClaimDeleting(pool, claim);
      } else {
        MarkNodeClaimActive(pool, claim);
      }
    }

    method GetNodeCount(pool: string) returns (active: int, deleting: int, pending: int)
      ensures View().WellFormed() ==> active + deleting + pending == |View().Sets(pool).All()|
      ensures active == |View().Sets(pool).active|
      ensures deleting == |View().Sets(pool).deleting|
      ensures pending == |View().Sets(pool).pending|
    {
      if pool in claims {
        active, deleting, pending := |claims[pool].active|, |claims[pool].deleting|, |claims[pool].pending|;
        assert View().WellFormed() ==> |View().Sets(pool).All()| == View().Sets(pool).Count() by {
          if View().WellFormed() {
            CountIsSize(View().Sets(pool));
          }
        }
      } else {
        active, deleting, pending := 0, 0, 0;
      }
    }

    method CompareAndSwap(pool: string, expected: int, updated: int) returns (swapped: bool)
      requires pool in reserved
      modifies this`reserved
      ensures swapped == (old(reserved)[pool] == expected)
      ensures reserved == if swapped then old(reserved)[pool := updated] else old(reserved)
    {
      swapped := reserved[pool] == expected;
      if swapped {
        reserved := reserved[pool := updated];
      }
    }

    /** The grant never takes the pool past the limit, and never exceeds what was asked for. */
    method ReserveNodeCount(pool: string, limit: int, wanted: int) returns (granted: int)
      modifies this
      ensures View() == old(View()).Reserve(pool, limit, wanted)
      ensures granted == old(View()).Grant(pool, limit, wanted)
      ensures granted <= wanted || granted == 0
      ensures granted > 0 ==> View().Sets(pool).Count() + View().Reserved(pool) <= limit
    {
      EnsureNodePoolEntry(pool);
      var active, deleting, pending := GetNodeCount(pool);
      var count := active + deleting + pending;
      granted := 0;
      var swapped := false;
      while !swapped
        invariant !swapped ==> View() == old(View()).EnsureEntry(pool) && pool in reserved
        invariant swapped ==> View() == old(View()).Reserve(pool, limit, wanted) && granted == old(View()).Grant(pool, limit, wanted)
        decreases !swapped
      {
        var current := reserved[pool];
        var remaining := limit - count - current;
        if remaining < 0 {
          return 0;
        }
        granted := if wanted > remaining then remaining else wanted;
        swapped := CompareAndSwap(pool, current, current + granted);
      }
    }

    method ReleaseNodeCount(pool: string, count: int)
      modifies this
      ensures View() == old(View()).Release(pool, count)
    {
      var swapped := false;
      while !swapped
        invariant !swapped ==> View() == old(View())
        invariant swapped ==> View() == old(View()).Release(pool, count)
        decreases !swapped
      {
        if pool !in reserved {
          return;
        }
        var current := reserved[pool];
        swapped := CompareAndSwap(pool, current, if current - count < 0 then 0 else current - count);
      }
    }
  }
}
