/**
 The reserve / create / release protocol of a static NodePool, as interleaved atomic steps.

 The ledger adds to the shared `Pools` what the code does not store: which claims of the
 pool exist, and how many granted slots are outstanding. A slot is `unspent` until the claim it was
 reserved for appears, `spent` from then until it is released.
 */
module Reservations {
  import opened Common
  import opened NodePools
  import opened SetMaps

  datatype Ledger = Ledger(pools: Pools, live: set<string>, unspent: nat, spent: nat)

  /** The static pool whose limit is under study. The limit does not change during a run. */
  datatype Static = Static(pool: string, limit: int)

  datatype Step =
    | Reserve(pool: string, limit: int, wanted: nat)
    | Create(pool: string, claim: string)                      // a new claim first appears
    | Release(pool: string, count: nat, created: bool)         // after creation, or without one
    | MarkStep(pool: string, claim: string, mark: Mark)
    | Observe(pool: string, claim: string, marked: bool)       // update of a claim that is known, or was
    | Relaunch(pool: string, claim: string, marked: bool)      // first launch: Cleanup, then re-added
    | Remove(claim: string)                                    // Cleanup of a deleted claim

  /**
   What the callers of each step guarantee: slots are released once, names are fresh, pool labels are stable. A mark or
   an update may come at any time and for any claim, also for one that was cleaned up in the meantime.
   */
  ghost predicate Allowed(st: Static, l: Ledger, s: Step) {
    match s
    case Reserve(pool, limit, _) => pool == st.pool ==> limit == st.limit
    case Create(pool, claim) =>
      claim != "" && pool != "" && claim !in l.pools.owner && (pool == st.pool ==> l.unspent > 0)
    case Release(pool, count, created) => pool == st.pool ==> count <= if created then l.spent else l.unspent
    case MarkStep(_, _, _) => true
    case Observe(pool, claim, _) => claim != "" && pool != "" && (claim in l.pools.owner ==> l.pools.owner[claim] == pool)
    case Relaunch(pool, claim, _) => claim != "" && claim in l.pools.owner && l.pools.owner[claim] == pool
    case Remove(_) => true
  }

  /** The claim a step hands to Cleanup, if it does. */
  function CleanedUp(s: Step): Option<string> {
    match s
    case Relaunch(_, claim, _) => Some(claim)
    case Remove(claim) => Some(claim)
    case _ => None
  }

  /**
   Cleanup of the pool's own claim either leaves its entry in place, or the claim is the last one of
   the pool and no slot is outstanding, so that dropping the entry forgets nothing.
   */
  ghost predicate ForgetsNothing(st: Static, l: Ledger, claim: string) {
    l.pools.OwnerOf(claim) == st.pool && l.pools.CleanupDrops(claim) ==> l.live <= {claim} && l.unspent + l.spent == 0
  }

  ghost predicate Guarded(st: Static, l: Ledger, s: Step) {
    CleanedUp(s).Some? ==> ForgetsNothing(st, l, CleanedUp(s).value)
  }

  function Next(st: Static, l: Ledger, s: Step): Ledger {
    match s
    case Reserve(pool, limit, wanted) =>
      var granted := l.pools.Grant(pool, limit, wanted);
      Ledger(l.pools.Reserve(pool, limit, wanted), l.live, if pool == st.pool then Max(l.unspent + granted, 0) else l.unspent, l.spent)
    case Create(pool, claim) =>
      var pools := l.pools.UpdateClaim(claim, pool, false);
      if pool == st.pool then Ledger(pools, l.live + {claim}, Max(l.unspent - 1, 0), l.spent + 1) else l.(pools := pools)
    case Release(pool, count, created) =>
      var pools := l.pools.Release(pool, count);
      if pool != st.pool then l.(pools := pools)
      else if created then l.(pools := pools, spent := Max(l.spent - count, 0))
      else l.(pools := pools, unspent := Max(l.unspent - count, 0))
    case MarkStep(pool, claim, mark) => l.(pools := l.pools.MarkClaim(pool, claim, mark))
    case Observe(pool, claim, marked) => l.(pools := l.pools.UpdateClaim(claim, pool, marked))
    case Relaunch(pool, claim, marked) => l.(pools := l.pools.Cleanup(claim).UpdateClaim(claim, pool, marked))
    case Remove(claim) => l.(pools := l.pools.Cleanup(claim), live := l.live - {claim})
  }

  /** Every claim of the pool is in its sets and known as its own, and the counter is what is outstanding. */
  ghost predicate Accounted(st: Static, l: Ledger) {
    && st.pool != ""
    && l.pools.WellFormed()
    && (forall claim :: claim in l.pools.owner ==> l.pools.owner[claim] != "")
    && l.live <= l.pools.Sets(st.pool).All()
    && (forall claim :: claim in l.live ==> l.pools.OwnerOf(claim) == st.pool)
    && l.pools.Reserved(st.pool) == l.unspent + l.spent
  }

  /** Moreover the pool holds and owns nothing else. */
  ghost predicate Exact(st: Static, l: Ledger) {
    && Accounted(st, l) && l.pools.Sets(st.pool).All() == l.live
    && (forall claim :: l.pools.OwnerOf(claim) == st.pool ==> claim in l.live)
  }

  ghost predicate WithinLimit(st: Static, l: Ledger) {
    |l.live| + l.unspent <= st.limit
  }

  lemma EntryChangesNothing(p: Pools, pool: string, claim: string)
    requires p.WellFormed()
    ensures
      var entered := p.EnsureEntry(pool).(owner := p.owner[claim := pool]);
      entered.WellFormed() && forall q :: entered.Sets(q) == p.Sets(q) && entered.Reserved(q) == p.Reserved(q)
  {
    var entered := p.EnsureEntry(pool).(owner := p.owner[claim := pool]);
    assert entered.claims.Keys == p.claims.Keys + {pool};
    assert entered.reserved.Keys == p.reserved.Keys + {pool};
  }

  lemma UpdateClaimTracks(st: Static, l: Ledger, claim: string, pool: string, marked: bool)
    requires l.pools.WellFormed() && pool != "" && claim != ""
    ensures
      var after := l.pools.UpdateClaim(claim, pool, marked);
      && after.WellFormed()
      && after.Sets(pool).All() == l.pools.Sets(pool).All() + {claim}
      && after.owner == l.pools.owner[claim := pool]
      && (forall q :: after.Reserved(q) == l.pools.Reserved(q))
      && (forall q :: q != pool ==> after.Sets(q) == l.pools.Sets(q))
  {
    var entered := l.pools.EnsureEntry(pool).(owner := l.pools.owner[claim := pool]);
    EntryChangesNothing(l.pools, pool, claim);
    MarkMoves(entered, pool, claim, if marked then Deleting else Active);
  }

  /** What Cleanup leaves of the sets of a pool that owns the claim. */
  lemma CleanupSets(p: Pools, pool: string, claim: string)
    requires p.WellFormed() && pool != "" && p.OwnerOf(claim) == pool
    ensures
      var after := p.Cleanup(claim);
      && after.WellFormed() && after.owner == p.owner - {claim}
      && after.Sets(pool).All() == (if p.CleanupDrops(claim) then {} else p.Sets(pool).All() - {claim})
      && after.Reserved(pool) == (if p.CleanupDrops(claim) then 0 else p.Reserved(pool))
  {
    var after, sets := p.Cleanup(claim), p.Sets(pool);
    if !p.CleanupDrops(claim) {
      assert after.Sets(pool).All() == sets.All() - {claim};
    }
  }

  /** Cleanup of one of the pool's claims keeps the books if and only if it forgets nothing. */
  lemma RemoveKeepsBooksIff(st: Static, l: Ledger, claim: string)
    requires Accounted(st, l) && l.pools.OwnerOf(claim) == st.pool
    ensures Accounted(st, Next(st, l, Remove(claim))) <==> ForgetsNothing(st, l, claim)
    ensures Exact(st, l) && ForgetsNothing(st, l, claim) ==> Exact(st, Next(st, l, Remove(claim)))
  {
    CleanupSets(l.pools, st.pool, claim);
    assert l.live - {claim} <= {} <==> l.live <= {claim};
  }

  /** What a first launch leaves: the claim is back, and nothing else of a dropped entry. */
  lemma RelaunchSets(st: Static, l: Ledger, claim: string, marked: bool)
    requires Accounted(st, l) && claim != "" && l.pools.OwnerOf(claim) == st.pool
    ensures
      var after := Next(st, l, Relaunch(st.pool, claim, marked)).pools;
      && after.WellFormed() && after.owner == l.pools.owner
      && after.Sets(st.pool).All() == (if l.pools.CleanupDrops(claim) then {claim} else l.pools.Sets(st.pool).All() + {claim})
      && after.Reserved(st.pool) == (if l.pools.CleanupDrops(claim) then 0 else l.pools.Reserved(st.pool))
  {
    CleanupSets(l.pools, st.pool, claim);
    UpdateClaimTracks(st, l.(pools := l.pools.Cleanup(claim)), claim, st.pool, marked);
    assert (l.pools.owner - {claim})[claim := st.pool] == l.pools.owner;
  }

  /** So does the first launch of a claim, which cleans it up and adds it again. */
  lemma RelaunchKeepsBooksIff(st: Static, l: Ledger, claim: string, marked: bool)
    requires Accounted(st, l) && claim != "" && l.pools.OwnerOf(claim) == st.pool
    ensures Accounted(st, Next(st, l, Relaunch(st.pool, claim, marked))) <==> ForgetsNothing(st, l, claim)
    ensures Exact(st, l) && ForgetsNothing(st, l, claim) ==> Exact(st, Next(st, l, Relaunch(st.pool, claim, marked)))
  {
    RelaunchSets(st, l, claim, marked);
  }

  /** Cleanup of a claim that some other pool owns, or nobody owns, leaves this pool alone. */
  lemma ForeignCleanup(p: Pools, pool: string, claim: string)
    requires p.WellFormed() && pool != "" && p.OwnerOf(claim) != pool
    ensures
      var after := p.Cleanup(claim);
      && after.WellFormed()
      && after.Sets(pool) == p.Sets(pool) && after.Reserved(pool) == p.Reserved(pool)
      && after.owner == p.owner - {claim}
  {
  }

  /** Reserving and releasing touch counters only. */
  lemma SlotsOnly(p: Pools, pool: string, limit: int, wanted: int, count: int)
    requires p.WellFormed()
    ensures
      var reserved, released := p.Reserve(pool, limit, wanted), p.Release(pool, count);
      && reserved.WellFormed() && released.WellFormed() && reserved.owner == p.owner && released.owner == p.owner
      && (forall q :: reserved.Sets(q) == p.Sets(q) && released.Sets(q) == p.Sets(q))
      && (forall q :: q != pool ==> reserved.Reserved(q) == p.Reserved(q) && released.Reserved(q) == p.Reserved(q))
  {
    var reserved, released := p.Reserve(pool, limit, wanted), p.Release(pool, count);
    assert reserved.claims.Keys == p.claims.Keys + {pool} && reserved.reserved.Keys == p.reserved.Keys + {pool};
    assert released.reserved.Keys == p.reserved.Keys;
  }

  lemma GrantAdds(p: Pools, pool: string, limit: int, wanted: nat)
    ensures p.Grant(pool, limit, wanted) >= 0
    ensures p.Reserve(pool, limit, wanted).Reserved(pool) == p.Reserved(pool) + p.Grant(pool, limit, wanted)
  {
  }

  lemma ReserveKeepsBooks(st: Static, l: Ledger, pool: string, limit: int, wanted: nat)
    requires Accounted(st, l)
    ensures Accounted(st, Next(st, l, Reserve(pool, limit, wanted)))
    ensures Exact(st, l) ==> Exact(st, Next(st, l, Reserve(pool, limit, wanted)))
  {
    SlotsOnly(l.pools, pool, limit, wanted, 0);
    GrantAdds(l.pools, pool, limit, wanted);
  }

  lemma ReleaseKeepsBooks(st: Static, l: Ledger, pool: string, count: nat, created: bool)
    requires Accounted(st, l) && Allowed(st, l, Release(pool, count, created))
    ensures Accounted(st, Next(st, l, Release(pool, count, created)))
    ensures Exact(st, l) ==> Exact(st, Next(st, l, Release(pool, count, created)))
  {
    SlotsOnly(l.pools, pool, 0, 0, count);
  }

  lemma SlotStepKeepsBooks(st: Static, l: Ledger, s: Step)
    requires Accounted(st, l) && Allowed(st, l, s) && (s.Reserve? || s.Release?)
    ensures Accounted(st, Next(st, l, s))
    ensures Exact(st, l) ==> Exact(st, Next(st, l, s))
  {
    match s
    case Reserve(pool, limit, wanted) => ReserveKeepsBooks(st, l, pool, limit, wanted);
    case Release(pool, count, created) => ReleaseKeepsBooks(st, l, pool, count, created);
  }

  lemma CreateKeepsBooks(st: Static, l: Ledger, pool: string, claim: string)
    requires Accounted(st, l) && Allowed(st, l, Create(pool, claim))
    ensures Accounted(st, Next(st, l, Create(pool, claim)))
    ensures Exact(st, l) ==> Exact(st, Next(st, l, Create(pool, claim)))
  {
    UpdateClaimTracks(st, l, claim, pool, false);
  }

  lemma MarkKeepsBooks(st: Static, l: Ledger, pool: string, claim: string, mark: Mark)
    requires Accounted(st, l)
    ensures Accounted(st, Next(st, l, MarkStep(pool, claim, mark)))
    ensures Exact(st, l) && !Late(st, l, MarkStep(pool, claim, mark)) ==> Exact(st, Next(st, l, MarkStep(pool, claim, mark)))
  {
    MarkMoves(l.pools, pool, claim, mark);
  }

  lemma ObserveKeepsBooks(st: Static, l: Ledger, pool: string, claim: string, marked: bool)
    requires Accounted(st, l) && Allowed(st, l, Observe(pool, claim, marked))
    ensures Accounted(st, Next(st, l, Observe(pool, claim, marked)))
    ensures Exact(st, l) && !Late(st, l, Observe(pool, claim, marked)) ==> Exact(st, Next(st, l, Observe(pool, claim, marked)))
  {
    UpdateClaimTracks(st, l, claim, pool, marked);
  }

  lemma ClaimStepKeepsBooks(st: Static, l: Ledger, s: Step)
    requires Accounted(st, l) && Allowed(st, l, s) && (s.Create? || s.MarkStep? || s.Observe?)
    ensures Accounted(st, Next(st, l, s))
    ensures Exact(st, l) && !Late(st, l, s) ==> Exact(st, Next(st, l, s))
  {
    match s
    case Create(pool, claim) => CreateKeepsBooks(st, l, pool, claim);
    case MarkStep(pool, claim, mark) => MarkKeepsBooks(st, l, pool, claim, mark);
    case Observe(pool, claim, marked) => ObserveKeepsBooks(st, l, pool, claim, marked);
  }

  lemma ForeignStepKeepsBooks(st: Static, l: Ledger, s: Step)
    requires Accounted(st, l) && Allowed(st, l, s) && CleanedUp(s).Some? && l.pools.OwnerOf(CleanedUp(s).value) != st.pool
    ensures Accounted(st, Next(st, l, s))
    ensures Exact(st, l) ==> Exact(st, Next(st, l, s))
  {
    ForeignCleanup(l.pools, st.pool, CleanedUp(s).value);
    if s.Relaunch? {
      UpdateClaimTracks(st, l.(pools := l.pools.Cleanup(s.claim)), s.claim, s.pool, s.marked);
    }
  }

  /** A mark or an update in this pool for a claim that is not, or no longer, the pool's. */
  ghost predicate Late(st: Static, l: Ledger, s: Step) {
    (s.MarkStep? || s.Observe?) && s.pool == st.pool && l.pools.OwnerOf(s.claim) != st.pool
  }

  lemma StepKeepsBooks(st: Static, l: Ledger, s: Step)
    requires Accounted(st, l) && Allowed(st, l, s) && Guarded(st, l, s)
    ensures Accounted(st, Next(st, l, s))
    ensures Exact(st, l) && !Late(st, l, s) ==> Exact(st, Next(st, l, s))
  {
    if s.Reserve? || s.Release? {
      SlotStepKeepsBooks(st, l, s);
    } else if s.Create? || s.MarkStep? || s.Observe? {
      ClaimStepKeepsBooks(st, l, s);
    } else if l.pools.OwnerOf(CleanedUp(s).value) != st.pool {
      ForeignStepKeepsBooks(st, l, s);
    } else if s.Relaunch? {
      RelaunchKeepsBooksIff(st, l, s.claim, s.marked);
    } else {
      RemoveKeepsBooksIff(st, l, s.claim);
    }
  }

  /** What a late step does to the pool: one claim more in its sets, and none more in existence. */
  lemma LateStepAdds(st: Static, l: Ledger, s: Step)
    requires Exact(st, l) && Allowed(st, l, s) && Late(st, l, s)
    ensures
      var late := Next(st, l, s);
      && late.live == l.live && late.unspent == l.unspent && late.spent == l.spent && s.claim !in l.live
      && late.pools.Sets(st.pool).Count() == l.pools.Sets(st.pool).Count() + 1
      && late.pools.Sets(st.pool).All() == l.live + {s.claim}
      && late.pools.Reserved(st.pool) == l.pools.Reserved(st.pool)
  {
    match s
    case MarkStep(pool, claim, mark) =>
      MarkMoves(l.pools, pool, claim, mark);
      MarkCounts(l.pools, pool, claim, mark);
    case Observe(pool, claim, marked) =>
      var entered := l.pools.EnsureEntry(pool).(owner := l.pools.owner[claim := pool]);
      var mark := if marked then Deleting else Active;
      EntryChangesNothing(l.pools, pool, claim);
      MarkMoves(entered, pool, claim, mark);
      MarkCounts(entered, pool, claim, mark);
  }

  /** A step leaves the books exact if and only if it is not late. */
  lemma StepStaysExactIff(st: Static, l: Ledger, s: Step)
    requires Exact(st, l) && Allowed(st, l, s) && Guarded(st, l, s)
    ensures Exact(st, Next(st, l, s)) <==> !Late(st, l, s)
  {
    StepKeepsBooks(st, l, s);
    if Late(st, l, s) {
      LateStepAdds(st, l, s);
    }
  }

  lemma ReserveStaysWithinLimit(st: Static, l: Ledger, s: Step)
    requires Accounted(st, l) && WithinLimit(st, l) && Allowed(st, l, s) && s.Reserve?
    ensures WithinLimit(st, Next(st, l, s))
  {
    var sets := l.pools.Sets(st.pool);
    assert sets.Disjoint();
    CountIsSize(sets);
    SubsetSize(l.live, sets.All());
  }

  lemma StepStaysWithinLimit(st: Static, l: Ledger, s: Step)
    requires Accounted(st, l) && WithinLimit(st, l) && Allowed(st, l, s)
    ensures WithinLimit(st, Next(st, l, s))
  {
    match s
    case Reserve(pool, limit, wanted) => ReserveStaysWithinLimit(st, l, s);
    case Remove(claim) => assert |l.live - {claim}| <= |l.live|;
    case Create(pool, claim) => assert |l.live + {claim}| <= |l.live| + 1;
    case _ =>
  }

  ghost predicate Enabled(st: Static, l: Ledger, s: Step) {
    Allowed(st, l, s) && Guarded(st, l, s)
  }

  /** A run: each step is allowed where it happens, and no cleanup forgets anything. */
  ghost predicate Run(st: Static, l: Ledger, steps: seq<Step>)
    decreases |steps|
  {
    steps == [] || (Enabled(st, l, steps[0]) && Run(st, Next(st, l, steps[0]), steps[1..]))
  }

  ghost function After(st: Static, l: Ledger, steps: seq<Step>): Ledger
    decreases |steps|
  {
    if steps == [] then l else After(st, Next(st, l, steps[0]), steps[1..])
  }

  /**
   In every interleaving, marks and updates of claims that are already gone included, existing claims plus unspent reservations never
   exceed the limit, every claim stays counted, and the counter stays what is outstanding.
   */
  lemma {:induction false} LimitHoldsOverRuns(st: Static, l: Ledger, steps: seq<Step>)
    requires Accounted(st, l) && WithinLimit(st, l) && Run(st, l, steps)
    ensures Accounted(st, After(st, l, steps)) && WithinLimit(st, After(st, l, steps))
    decreases |steps|
  {
    if steps != [] {
      StepKeepsBooks(st, l, steps[0]);
      StepStaysWithinLimit(st, l, steps[0]);
      LimitHoldsOverRuns(st, Next(st, l, steps[0]), steps[1..]);
    }
  }

  /** No step marks or updates a claim of the pool that is already gone. */
  ghost predicate InTime(st: Static, l: Ledger, steps: seq<Step>)
    decreases |steps|
  {
    steps == [] || (!Late(st, l, steps[0]) && InTime(st, Next(st, l, steps[0]), steps[1..]))
  }

  /** Then the stored sets are exactly the claims that exist, all along. */
  lemma {:induction false} ExactOverRuns(st: Static, l: Ledger, steps: seq<Step>)
    requires Exact(st, l) && Run(st, l, steps) && InTime(st, l, steps)
    ensures Exact(st, After(st, l, steps))
    decreases |steps|
  {
    if steps != [] {
      StepStaysExactIff(st, l, steps[0]);
      ExactOverRuns(st, Next(st, l, steps[0]), steps[1..]);
    }
  }

  /* ----- what a late step costs ----- */

  /** All that a pool can still be granted. */
  function Free(p: Pools, pool: string, limit: int): int {
    p.Grant(pool, limit, limit)
  }

  lemma FreeIs(p: Pools, pool: string, limit: int)
    requires p.Reserved(pool) >= 0
    ensures Free(p, pool, limit) == Max(limit - p.Sets(pool).Count() - p.Reserved(pool), 0)
  {
  }

  /** What is left to grant, when the books are exact. */
  lemma FreeSlots(st: Static, l: Ledger)
    requires Exact(st, l)
    ensures l.pools.Sets(st.pool).Count() == |l.live|
    ensures Free(l.pools, st.pool, st.limit) == Max(st.limit - |l.live| - l.unspent - l.spent, 0)
  {
    var sets := l.pools.Sets(st.pool);
    assert sets.Disjoint();
    CountIsSize(sets);
    FreeIs(l.pools, st.pool, st.limit);
  }

  lemma FreeOneLess(p: Pools, q: Pools, pool: string, limit: int)
    requires p.Reserved(pool) == q.Reserved(pool) >= 0 && q.Sets(pool).Count() == p.Sets(pool).Count() + 1
    ensures Free(q, pool, limit) == Max(Free(p, pool, limit) - 1, 0)
  {
    FreeIs(p, pool, limit);
    FreeIs(q, pool, limit);
  }

  /** A late step costs the pool a slot: one less is left to grant, though no claim came into existence. */
  lemma LateStepCostsSlot(st: Static, l: Ledger, s: Step)
    requires Exact(st, l) && Allowed(st, l, s) && Late(st, l, s)
    ensures
      var late := Next(st, l, s);
      late.live == l.live && Free(late.pools, st.pool, st.limit) == Max(Free(l.pools, st.pool, st.limit) - 1, 0)
  {
    LateStepAdds(st, l, s);
    FreeOneLess(l.pools, Next(st, l, s).pools, st.pool, st.limit);
  }

  lemma UnownedCleanup(p: Pools, pool: string, limit: int, claim: string)
    requires pool != "" && claim !in p.owner
    ensures Free(p.Cleanup(claim), pool, limit) == Free(p, pool, limit)
  {
  }

  /** Removing a claim that is already gone brings nothing back after a late mark, as nobody owns the claim. */
  lemma RemovingAgain(st: Static, l: Ledger, claim: string)
    requires st.pool != "" && claim !in l.pools.owner
    ensures Enabled(st, l, Remove(claim))
    ensures Free(Next(st, l, Remove(claim)).pools, st.pool, st.limit) == Free(l.pools, st.pool, st.limit)
  {
    UnownedCleanup(l.pools, st.pool, st.limit, claim);
  }

  lemma RemovedOnce(st: Static, l: Ledger, claim: string)
    requires Exact(st, l) && claim in l.live && ForgetsNothing(st, l, claim)
    ensures
      var removed := Next(st, l, Remove(claim));
      && Exact(st, removed) && claim !in removed.pools.owner && removed.live == l.live - {claim}
      && removed.unspent == l.unspent && removed.spent == l.spent
  {
    RemoveKeepsBooksIff(st, l, claim);
  }

  lemma RemovedFrees(st: Static, l: Ledger, claim: string, removed: Ledger)
    requires Exact(st, removed) && claim in l.live && removed.live == l.live - {claim}
    requires removed.unspent == l.unspent && removed.spent == l.spent
    ensures Free(removed.pools, st.pool, st.limit) == Max(st.limit - (|l.live| - 1) - l.unspent - l.spent, 0)
  {
    FreeSlots(st, removed);
  }

  lemma {:induction false} OneStep(st: Static, l: Ledger, a: Step)
    requires Enabled(st, l, a)
    ensures Run(st, l, [a]) && After(st, l, [a]) == Next(st, l, a)
  {
    var n := Next(st, l, a);
    assert [a][0] == a && [a][1..] == [];
    assert Run(st, n, []) && After(st, n, []) == n;
  }

  lemma {:induction false} TwoSteps(st: Static, l: Ledger, a: Step, m: Ledger, b: Step)
    requires Enabled(st, l, a) && m == Next(st, l, a) && Enabled(st, m, b)
    ensures Run(st, l, [a, b]) && After(st, l, [a, b]) == Next(st, m, b)
  {
    OneStep(st, m, b);
    assert [a, b][0] == a && [a, b][1..] == [b];
  }

  lemma {:induction false} ThreeSteps(st: Static, l: Ledger, a: Step, m: Ledger, b: Step, n: Ledger, c: Step)
    requires Enabled(st, l, a) && m == Next(st, l, a)
    requires Enabled(st, m, b) && n == Next(st, m, b)
    requires Enabled(st, n, c)
    ensures Run(st, l, [a, b, c]) && After(st, l, [a, b, c]) == Next(st, n, c)
  {
    assert [a, b, c][0] == a && [a, b, c][1..] == [b, c];
    TwoSteps(st, m, b, n, c);
  }

  /** What a late step leaves to grant right after the removal that it is late for. */
  lemma LateAfterRemoval(st: Static, l: Ledger, removed: Ledger, s: Step)
    requires Exact(st, removed) && (s.MarkStep? || s.Observe?) && s.pool == st.pool && s.claim != "" && s.claim !in removed.pools.owner
    requires s.claim in l.live && removed.live == l.live - {s.claim} && removed.unspent == l.unspent && removed.spent == l.spent
    ensures Enabled(st, removed, s) && Next(st, removed, s).live == removed.live
    ensures Free(Next(st, removed, s).pools, st.pool, st.limit) == Max(st.limit - |l.live| - l.unspent - l.spent, 0)
  {
    LateStepCostsSlot(st, removed, s);
    RemovedFrees(st, l, s.claim, removed);
  }

  /** A claim that is removed and then marked or updated, in any pool: one slot less is left than the removal freed. */
  lemma LateStepLosesSlot(st: Static, l: Ledger, s: Step)
    requires Exact(st, l) && (s.MarkStep? || s.Observe?) && s.pool == st.pool && s.claim != ""
    requires s.claim in l.live && ForgetsNothing(st, l, s.claim)
    ensures
      var steps := [Remove(s.claim), s];
      && Run(st, l, steps)
      && After(st, l, steps).live == l.live - {s.claim}
      && Free(After(st, l, steps).pools, st.pool, st.limit) == Max(st.limit - |l.live| - l.unspent - l.spent, 0)
  {
    var removed := Next(st, l, Remove(s.claim));
    RemovedOnce(st, l, s.claim);
    LateAfterRemoval(st, l, removed, s);
    TwoSteps(st, l, Remove(s.claim), removed, s);
  }

  /** After a late mark another removal of the claim does not give the slot back. */
  lemma LateMarkIsNotUndone(st: Static, l: Ledger, claim: string, mark: Mark)
    requires Exact(st, l) && claim != "" && claim in l.live && ForgetsNothing(st, l, claim)
    ensures
      var steps := [Remove(claim), MarkStep(st.pool, claim, mark), Remove(claim)];
      && Run(st, l, steps)
      && Free(After(st, l, steps).pools, st.pool, st.limit) == Max(st.limit - |l.live| - l.unspent - l.spent, 0)
  {
    var mark := MarkStep(st.pool, claim, mark);
    LateStepLosesSlot(st, l, mark);
    var removed := Next(st, l, Remove(claim));
    RemovedOnce(st, l, claim);
    TwoSteps(st, l, Remove(claim), removed, mark);
    var late := Next(st, removed, mark);
    assert late.pools.owner == removed.pools.owner;
    RemovingAgain(st, late, claim);
    ThreeSteps(st, l, Remove(claim), removed, mark, late, Remove(claim));
  }

  const TIGHT := Static("p", 1)
  const ONE_LEFT := Ledger(Pools(map["p" := ClaimSets({"a"}, {}, {})], map["a" := "p"], map["p" := 0]), {"a"}, 0, 0)

  lemma OneLeft()
    ensures Exact(TIGHT, ONE_LEFT)
  {
    assert ONE_LEFT.pools.Sets("p").All() == {"a"};
  }

  /** Such runs, for every mark and both kinds of update: with the last claim of a pool of limit 1 gone, nothing is left to grant. */
  lemma LateStepHappens(s: Step)
    requires (s.MarkStep? || s.Observe?) && s.pool == "p" && s.claim == "a"
    ensures
      var steps := [Remove("a"), s];
      && Run(TIGHT, ONE_LEFT, steps)
      && After(TIGHT, ONE_LEFT, steps).live == {}
      && Free(After(TIGHT, ONE_LEFT, steps).pools, "p", 1) == 0
  {
    OneLeft();
    var left := ONE_LEFT;
    assert left.live <= {"a"} && left.unspent + left.spent == 0;
    LateStepLosesSlot(TIGHT, left, s);
    assert left.live - {"a"} == {} && |left.live| == 1;
  }

  /* ----- what a forgetting cleanup costs ----- */

  /** A run in which cleanups may forget. */
  ghost predicate LooseRun(st: Static, l: Ledger, steps: seq<Step>)
    decreases |steps|
  {
    steps == [] || (Allowed(st, l, steps[0]) && LooseRun(st, Next(st, l, steps[0]), steps[1..]))
  }

  /** Some steps, each of them allowed, take the pool past its limit. */
  ghost predicate CanOvershoot(st: Static, l: Ledger) {
    exists steps :: LooseRun(st, l, steps) && !WithinLimit(st, After(st, l, steps))
  }

  lemma OvershootsNow(st: Static, l: Ledger)
    requires !WithinLimit(st, l)
    ensures CanOvershoot(st, l)
  {
    assert LooseRun(st, l, []) && !WithinLimit(st, After(st, l, []));
  }

  lemma OvershootsLater(st: Static, l: Ledger, s: Step)
    requires Allowed(st, l, s) && CanOvershoot(st, Next(st, l, s))
    ensures CanOvershoot(st, l)
  {
    var rest :| LooseRun(st, Next(st, l, s), rest) && !WithinLimit(st, After(st, Next(st, l, s), rest));
    var steps := [s] + rest;
    assert steps[0] == s && steps[1..] == rest;
    assert LooseRun(st, l, steps) && !WithinLimit(st, After(st, l, steps));
  }

  /** The pool's entry is gone, or holds no more than the claim. */
  ghost predicate Bare(st: Static, l: Ledger, count: nat) {
    l.pools.Sets(st.pool).Count() == count && l.pools.Reserved(st.pool) == 0
  }

  /** A full request against a bare entry passes the limit if there is more than the entry shows. */
  lemma FullRequestOvershoots(st: Static, l: Ledger, count: nat)
    requires Bare(st, l, count) && st.limit >= 0 && count <= |l.live| && |l.live| + l.unspent > count
    ensures CanOvershoot(st, l)
  {
    var request := Reserve(st.pool, st.limit, st.limit);
    OvershootsNow(st, Next(st, l, request));
    OvershootsLater(st, l, request);
  }

  /** A slot that is released after it was forgotten makes room for one claim too many. */
  lemma ForgottenReleaseOvershoots(st: Static, l: Ledger)
    requires Bare(st, l, 0) && st.limit >= 1 && l.spent >= 1
    ensures CanOvershoot(st, l)
  {
    var full := Reserve(st.pool, st.limit, st.limit);
    var m := Next(st, l, full);
    assert m.pools.Reserved(st.pool) == st.limit && m.pools.Sets(st.pool).Count() == 0 && m.unspent == l.unspent + st.limit;
    var release := Release(st.pool, 1, true);
    var n := Next(st, m, release);
    assert n.pools.Reserved(st.pool) == st.limit - 1 && n.pools.Sets(st.pool).Count() == 0 && n.unspent == m.unspent;
    var one := Reserve(st.pool, st.limit, 1);
    assert Next(st, n, one).unspent == n.unspent + 1;
    OvershootsNow(st, Next(st, n, one));
    OvershootsLater(st, n, one);
    OvershootsLater(st, m, release);
    OvershootsLater(st, l, full);
  }

  lemma EmptyIsBare(sets: ClaimSets)
    requires sets.All() == {}
    ensures sets.Count() == 0
  {
    assert sets.active == {} && sets.deleting == {} && sets.pending == {};
  }

  lemma RemoveLeavesBare(st: Static, l: Ledger, claim: string)
    requires Accounted(st, l) && l.pools.OwnerOf(claim) == st.pool && l.pools.CleanupDrops(claim)
    ensures Bare(st, Next(st, l, Remove(claim)), 0)
  {
    CleanupSets(l.pools, st.pool, claim);
    EmptyIsBare(Next(st, l, Remove(claim)).pools.Sets(st.pool));
  }

  lemma RemoveForgets(st: Static, l: Ledger, claim: string)
    requires Accounted(st, l) && st.limit >= 1 && l.pools.OwnerOf(claim) == st.pool && !ForgetsNothing(st, l, claim)
    ensures CanOvershoot(st, Next(st, l, Remove(claim)))
  {
    RemoveLeavesBare(st, l, claim);
    var after := Next(st, l, Remove(claim));
    if |after.live| + after.unspent > 0 {
      FullRequestOvershoots(st, after, 0);
    } else {
      assert after.live == {};
      ForgottenReleaseOvershoots(st, after);
    }
  }

  lemma RelaunchLeavesBare(st: Static, l: Ledger, claim: string, marked: bool)
    requires Accounted(st, l) && claim != "" && l.pools.OwnerOf(claim) == st.pool && l.pools.CleanupDrops(claim)
    ensures
      var after := Next(st, l, Relaunch(st.pool, claim, marked));
      && Bare(st, after, 1) && after.pools.WellFormed() && after.pools.owner == l.pools.owner
      && after.pools.Sets(st.pool).All() == {claim}
  {
    RelaunchSets(st, l, claim, marked);
    var sets := Next(st, l, Relaunch(st.pool, claim, marked)).pools.Sets(st.pool);
    assert sets.Disjoint();
    CountIsSize(sets);
  }

  /** Once the relaunched claim is removed as well, the entry is dropped again. */
  lemma BareAfterAll(st: Static, l: Ledger, claim: string)
    requires st.pool != "" && l.pools.WellFormed() && l.pools.OwnerOf(claim) == st.pool && l.pools.Sets(st.pool).All() == {claim}
    requires l.pools.Reserved(st.pool) == 0
    ensures Bare(st, Next(st, l, Remove(claim)), 0)
  {
    CleanupSets(l.pools, st.pool, claim);
    EmptyIsBare(Next(st, l, Remove(claim)).pools.Sets(st.pool));
  }

  lemma RelaunchForgets(st: Static, l: Ledger, claim: string, marked: bool)
    requires Accounted(st, l) && claim != "" && st.limit >= 1 && l.pools.OwnerOf(claim) == st.pool && !ForgetsNothing(st, l, claim)
    ensures CanOvershoot(st, Next(st, l, Relaunch(st.pool, claim, marked)))
  {
    RelaunchLeavesBare(st, l, claim, marked);
    var after := Next(st, l, Relaunch(st.pool, claim, marked));
    BareAfterAll(st, after, claim);
    var gone := Next(st, after, Remove(claim));
    if |gone.live| + gone.unspent > 0 {
      FullRequestOvershoots(st, gone, 0);
    } else {
      assert gone.live == {};
      ForgottenReleaseOvershoots(st, gone);
    }
    OvershootsLater(st, after, Remove(claim));
  }

  /**
   Why the guard is needed: whenever a cleanup, on a removal or on a first launch, forgets anything, be it a claim, a
   slot not yet used or one not yet released, some allowed steps take the pool past its limit. A pool of limit 0 is
   never granted anything.
   */
  lemma ForgettingOvershoots(st: Static, l: Ledger, s: Step)
    requires Accounted(st, l) && st.limit >= 1 && Allowed(st, l, s) && !Guarded(st, l, s)
    ensures CanOvershoot(st, Next(st, l, s))
  {
    if s.Remove? {
      RemoveForgets(st, l, s.claim);
    } else {
      RelaunchForgets(st, l, s.claim, s.marked);
    }
  }

  const SMALL := Static("p", 2)
  const ONE_CLAIM := Ledger(Pools(map["p" := ClaimSets({"a"}, {}, {})], map["a" := "p"], map["p" := 1]), {"a"}, 1, 0)

  /** One such state: a pool of limit 2 with one active claim and one reserved slot. */
  lemma OvershootHappens()
    ensures Exact(SMALL, ONE_CLAIM) && WithinLimit(SMALL, ONE_CLAIM) && !ForgetsNothing(SMALL, ONE_CLAIM, "a")
    ensures !WithinLimit(SMALL, Next(SMALL, Next(SMALL, ONE_CLAIM, Remove("a")), Reserve("p", 2, 2)))
  {
    assert ONE_CLAIM.pools.Sets("p").All() == {"a"};
    RemoveLeavesBare(SMALL, ONE_CLAIM, "a");
  }
}
