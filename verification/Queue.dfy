/**
 The disruption queue object. StartCommand is shown to release every static slot of its command exactly once, on
 each of its paths; Reconcile to complete a command exactly when waitOrTerminate reaches a verdict. What the object holds is
 always the visible part of a world that a run of the queue protocol reaches, so what holds of all runs holds of it.
 */
module Queues {
  import opened Common
  import opened StateNodes
  import opened NodePools
  import opened ClusterView
  import opened ClusterIndexes
  import opened ClusterPods
  import opened ClusterRuns
  import opened Clusters
  import opened QueueProtocol
  import opened QueueRuns

  datatype Candidate = Candidate(id: string, pool: string, claim: string, isStatic: bool)

  datatype Replacement = Replacement(pool: string, isStatic: bool)

  datatype Result = AlreadyQueued | RebootHandedOff | MarkingFailed | LaunchFailed | Started(kept: seq<Candidate>)

  function ProviderIds(candidates: seq<Candidate>): seq<string> {
    seq(|candidates|, i requires 0 <= i < |candidates| => candidates[i].id)
  }

  function AsSet(ids: seq<string>): set<string> {
    set id | id in ids
  }

  lemma AsSetGrows(ids: seq<string>, i: nat)
    requires i < |ids|
    ensures AsSet(ids[..i + 1]) == AsSet(ids[..i]) + {ids[i]}
  {
  }

  predicate Holds(r: Replacement, pool: string) {
    r.isStatic && r.pool == pool
  }

  /** The static slots of one pool that a command holds: one per static replacement. */
  function Slots(replacements: seq<Replacement>, pool: string): nat {
    if replacements == [] then 0 else
    var last := replacements[|replacements| - 1];
    Slots(replacements[..|replacements| - 1], pool) + (if Holds(last, pool) then 1 else 0)
  }

  lemma {:induction false} NoStaticNoSlots(replacements: seq<Replacement>, pool: string)
    requires forall i :: 0 <= i < |replacements| ==> !Holds(replacements[i], pool)
    ensures Slots(replacements, pool) == 0
  {
    if replacements != [] {
      NoStaticNoSlots(replacements[..|replacements| - 1], pool);
    }
  }

  /** Of each pool exactly the command's own slots were given back. */
  ghost predicate Released(before: Pools, after: Pools, replacements: seq<Replacement>) {
    forall p :: after.Reserved(p) == Max(before.Reserved(p) - Slots(replacements, p), 0)
  }

  ghost predicate NoDebt(pools: Pools) {
    forall p :: pools.Reserved(p) >= 0
  }

  ghost predicate SameReservations(before: Pools, after: Pools) {
    forall p :: after.Reserved(p) == before.Reserved(p)
  }

  lemma ReleasedNext(before: Pools, middle: Pools, after: Pools, replacements: seq<Replacement>, i: nat)
    requires i < |replacements| && Released(before, middle, replacements[..i]) && Released(middle, after, [replacements[i]])
    ensures Released(before, after, replacements[..i + 1])
  {
    forall p
      ensures after.Reserved(p) == Max(before.Reserved(p) - Slots(replacements[..i + 1], p), 0)
    {
      var r, upTo := replacements[i], replacements[..i + 1];
      assert upTo[..i] == replacements[..i] && upTo[i] == r;
      assert [r][..0] == [];
      assert Slots([r], p) == if Holds(r, p) then 1 else 0;
      assert after.Reserved(p) == Max(middle.Reserved(p) - Slots([r], p), 0);
    }
  }

  lemma ReleasedAfterSame(before: Pools, middle: Pools, after: Pools, replacements: seq<Replacement>)
    requires SameReservations(before, middle) && Released(middle, after, replacements)
    ensures Released(before, after, replacements)
  {
    forall p
      ensures after.Reserved(p) == Max(before.Reserved(p) - Slots(replacements, p), 0)
    {
      assert middle.Reserved(p) == before.Reserved(p);
    }
  }

  predicate SomeQueued(candidates: seq<Candidate>, commandOf: map<string, nat>) {
    exists c :: c in candidates && c.id in commandOf
  }

  /** The candidates whose marking did not fail. */
  function Kept(candidates: seq<Candidate>, ok: seq<bool>): seq<Candidate>
    requires |ok| == |candidates|
  {
    if candidates == [] then [] else
    var n := |candidates| - 1;
    Kept(candidates[..n], ok[..n]) + (if ok[n] then [candidates[n]] else [])
  }

  /** The positions at which a candidate's marking succeeded. */
  function MarkedAt(candidates: seq<Candidate>, ok: seq<bool>, c: Candidate): set<int>
    requires |ok| == |candidates|
  {
    set i | 0 <= i < |candidates| && ok[i] && candidates[i] == c
  }

  lemma MarkedAtLast(candidates: seq<Candidate>, ok: seq<bool>, c: Candidate)
    requires |ok| == |candidates| > 0
    ensures
      var n := |candidates| - 1;
      |MarkedAt(candidates, ok, c)| == |MarkedAt(candidates[..n], ok[..n], c)| + if ok[n] && candidates[n] == c then 1 else 0
  {
    var n := |candidates| - 1;
    var all, init, last := MarkedAt(candidates, ok, c), MarkedAt(candidates[..n], ok[..n], c), if ok[n] && candidates[n] == c then {n} else {};
    forall i
      ensures i in all <==> i in init || i in last
    {
      if 0 <= i < n {
        assert ok[..n][i] == ok[i] && candidates[..n][i] == candidates[i];
      }
    }
    assert all == init + last;
  }

  /** Each candidate is kept as often as its marking succeeded. */
  lemma {:induction false} KeptMeaning(candidates: seq<Candidate>, ok: seq<bool>, c: Candidate)
    requires |ok| == |candidates|
    ensures multiset(Kept(candidates, ok))[c] == |MarkedAt(candidates, ok, c)|
  {
    if candidates == [] {
      assert MarkedAt(candidates, ok, c) == {};
    } else {
      var n := |candidates| - 1;
      KeptMeaning(candidates[..n], ok[..n], c);
      MarkedAtLast(candidates, ok, c);
    }
  }

  /** The positions of the static replacements of a pool. */
  function StaticAt(replacements: seq<Replacement>, pool: string): set<int> {
    set i | 0 <= i < |replacements| && replacements[i].isStatic && replacements[i].pool == pool
  }

  lemma StaticAtLast(replacements: seq<Replacement>, pool: string)
    requires replacements != []
    ensures
      var n := |replacements| - 1;
      |StaticAt(replacements, pool)| == |StaticAt(replacements[..n], pool)| + if replacements[n].isStatic && replacements[n].pool == pool then 1 else 0
  {
    var n := |replacements| - 1;
    assert StaticAt(replacements, pool) == StaticAt(replacements[..n], pool) + if replacements[n].isStatic && replacements[n].pool == pool then {n} else {};
  }

  /** A command holds a slot of a pool for each of its replacements that is a static one of that pool. */
  lemma {:induction false} SlotsMeaning(replacements: seq<Replacement>, pool: string)
    ensures Slots(replacements, pool) == |StaticAt(replacements, pool)|
  {
    if replacements == [] {
      assert StaticAt(replacements, pool) == {};
    } else {
      SlotsMeaning(replacements[..|replacements| - 1], pool);
      StaticAtLast(replacements, pool);
    }
  }

  /* ----- what leaves reservations and cluster state alone ----- */

  lemma MarkReserved(p: Pools, pool: string, claim: string, mark: Mark, q: string)
    ensures p.MarkClaim(pool, claim, mark).Reserved(q) == p.Reserved(q)
    ensures p.MarkClaim(pool, claim, mark).owner == p.owner
  {
  }

  lemma UpdateReserved(p: Pools, claim: string, pool: string, marked: bool, q: string)
    ensures p.UpdateClaim(claim, pool, marked).Reserved(q) == p.Reserved(q)
  {
  }

  lemma {:induction false} MarkAllReserved(v: View, ids: seq<string>, marked: bool, q: string)
    ensures v.MarkAll(ids, marked).pools.Reserved(q) == v.pools.Reserved(q)
    decreases |ids|
  {
    if ids != [] {
      MarkAllReserved(v.Mark(ids[0], marked), ids[1..], marked, q);
    }
  }

  lemma {:induction false} MarkAllMarks(v: View, ids: seq<string>, marked: bool, id: string)
    requires id in v.nodes
    ensures id in v.MarkAll(ids, marked).nodes
    ensures id in ids ==> v.MarkAll(ids, marked).nodes[id] == v.nodes[id].(marked := marked)
    ensures id !in ids ==> v.MarkAll(ids, marked).nodes[id] == v.nodes[id]
    decreases |ids|
  {
    if ids != [] {
      MarkMaps(v, ids[0], marked);
      MarkAllMarks(v.Mark(ids[0], marked), ids[1..], marked, id);
      if id == ids[0] && id !in ids[1..] {
        assert v.MarkAll(ids, marked).nodes[id] == v.Mark(id, marked).nodes[id];
      }
    }
  }

  lemma PoolsOnly(v: View, pools: Pools)
    requires ClusterRuns.Invariant(v) && pools.owner == v.pools.owner
    ensures ClusterRuns.Invariant(v.(pools := pools))
  {
  }

  /** A claim that has just been created: not launched, and with a name not seen before. */
  ghost predicate NewClaim(v: View, c: NodeClaim) {
    c.providerID == "" && c.name != "" && c.name !in v.claimIds && c.name !in v.pools.owner
  }

  lemma NewClaimIsAdmissible(v: View, c: NodeClaim, q: string)
    requires NewClaim(v, c)
    ensures Admissible(v, UpdateClaimEvent(c))
    ensures v.UpdateNodeClaim(c).pools.Reserved(q) == v.pools.Reserved(q)
    ensures v.UpdateNodeClaim(c).claimIds.Keys == v.claimIds.Keys + {c.name}
    ensures v.UpdateNodeClaim(c).pools.owner.Keys <= v.pools.owner.Keys + {c.name}
  {
    UpdateReserved(v.pools, c.name, c.Pool(), false, q);
    UpdateReserved(v.pools, c.name, c.Pool(), true, q);
    ClaimUpdateOwner(v, c);
  }

  /** The names of the claims that do get created. */
  function Names(created: seq<Option<NodeClaim>>): set<string> {
    set i | 0 <= i < |created| && created[i].Some? :: created[i].value.name
  }

  lemma NamesNext(created: seq<Option<NodeClaim>>, i: nat)
    requires i < |created|
    ensures Names(created[..i + 1]) == Names(created[..i]) + (if created[i].Some? then {created[i].value.name} else {})
  {
    var upTo := created[..i + 1];
    forall x | x in Names(upTo)
      ensures x in Names(created[..i]) || (created[i].Some? && x == created[i].value.name)
    {
      var k :| 0 <= k < |upTo| && upTo[k].Some? && upTo[k].value.name == x;
      assert k < i ==> created[..i][k] == upTo[k];
    }
    forall x | x in Names(created[..i])
      ensures x in Names(upTo)
    {
      var k :| 0 <= k < i && created[..i][k].Some? && created[..i][k].value.name == x;
      assert upTo[k] == created[k];
    }
    if created[i].Some? {
      assert upTo[i] == created[i];
    }
  }

  /** No name but these is new to the indexes of claims. */
  ghost predicate OnlyNew(v: View, w: View, names: set<string>) {
    w.claimIds.Keys <= v.claimIds.Keys + names && w.pools.owner.Keys <= v.pools.owner.Keys + names
  }

  /** What is pending disruption stays so, but for these claims. */
  ghost predicate SamePendingBut(before: Pools, after: Pools, names: set<string>) {
    forall q, x :: x !in names ==> (x in after.Sets(q).pending <==> x in before.Sets(q).pending)
  }

  /** Creating claims moves no machine, brings in no other name, and leaves what is pending alone. */
  ghost predicate Grew(v: View, w: View, names: set<string>) {
    w.nodes == v.nodes && OnlyNew(v, w, names) && SamePendingBut(v.pools, w.pools, names)
  }

  lemma GrewTwice(u: View, v: View, w: View, a: set<string>, b: set<string>)
    requires Grew(u, v, a) && Grew(v, w, b)
    ensures Grew(u, w, a + b)
  {
    forall q, x | x !in a + b
      ensures x in w.pools.Sets(q).pending <==> x in u.pools.Sets(q).pending
    {
      assert x in v.pools.Sets(q).pending <==> x in u.pools.Sets(q).pending;
    }
  }

  lemma UpdatePending(p: Pools, claim: string, pool: string, marked: bool)
    ensures SamePendingBut(p, p.UpdateClaim(claim, pool, marked), {claim})
  {
  }

  lemma NewClaimPending(v: View, c: NodeClaim)
    requires NewClaim(v, c)
    ensures v.UpdateNodeClaim(c).nodes == v.nodes && SamePendingBut(v.pools, v.UpdateNodeClaim(c).pools, {c.name})
  {
    UpdatePending(v.pools, c.name, c.Pool(), true);
    UpdatePending(v.pools, c.name, c.Pool(), false);
  }

  /** The claims that do get created are new, with names of their own. */
  ghost predicate AllNew(v: View, created: seq<Option<NodeClaim>>) {
    && (forall i :: 0 <= i < |created| && created[i].Some? ==> NewClaim(v, created[i].value))
    && (forall i, j :: 0 <= i < j < |created| && created[i].Some? && created[j].Some? ==> created[i].value.name != created[j].value.name)
  }

  lemma AllNewAfter(v: View, w: View, created: seq<Option<NodeClaim>>)
    requires created != [] && AllNew(v, created)
    requires w.claimIds.Keys == v.claimIds.Keys + (if created[0].Some? then {created[0].value.name} else {})
    requires w.pools.owner.Keys <= v.pools.owner.Keys + (if created[0].Some? then {created[0].value.name} else {})
    ensures AllNew(w, created[1..])
  {
    forall i | 0 <= i < |created| - 1 && created[1..][i].Some?
      ensures NewClaim(w, created[1..][i].value)
    {
      assert created[1..][i] == created[i + 1];
      assert NewClaim(v, created[i + 1].value);
    }
  }

  /** One claim was created or not, and its slot given back. */
  ghost predicate Turn(v: View, w: View, r: Replacement, created: Option<NodeClaim>) {
    var names := if created.Some? then {created.value.name} else {};
    && Released(v.pools, w.pools, [r]) && Grew(v, w, names)
    && w.claimIds.Keys == v.claimIds.Keys + names && w.pools.owner.Keys <= v.pools.owner.Keys + names
  }

  /** The state after one claim was created, or not, and its slot released. */
  function AfterTurn(v: View, r: Replacement, created: Option<NodeClaim>): View {
    var w := if created.Some? then v.UpdateNodeClaim(created.value) else v;
    w.(pools := if r.isStatic then w.pools.Release(r.pool, 1) else w.pools)
  }

  lemma ReleasesOne(p: Pools, r: Replacement)
    requires NoDebt(p)
    ensures Released(p, if r.isStatic then p.Release(r.pool, 1) else p, [r])
  {
    var after := if r.isStatic then p.Release(r.pool, 1) else p;
    forall q
      ensures after.Reserved(q) == Max(p.Reserved(q) - Slots([r], q), 0)
    {
      assert [r][..0] == [] && [r][0] == r;
      assert Slots([r], q) == if Holds(r, q) then 1 else 0;
      assert p.Reserved(q) >= 0;
    }
  }

  lemma TurnHappens(v: View, r: Replacement, created: Option<NodeClaim>)
    requires NoDebt(v.pools) && (created.Some? ==> NewClaim(v, created.value))
    ensures Turn(v, AfterTurn(v, r, created), r, created)
  {
    var w := if created.Some? then v.UpdateNodeClaim(created.value) else v;
    assert SameReservations(v.pools, w.pools) by {
      if created.Some? {
        forall p
          ensures w.pools.Reserved(p) == v.pools.Reserved(p)
        {
          NewClaimIsAdmissible(v, created.value, p);
        }
      }
    }
    if created.Some? {
      NewClaimIsAdmissible(v, created.value, "");
      NewClaimPending(v, created.value);
    }
    NoDebtSame(v.pools, w.pools);
    ReleasesOne(w.pools, r);
    ReleasedAfterSame(v.pools, w.pools, AfterTurn(v, r, created).pools, [r]);
  }

  /** Where the loop over the replacements stands before the i-th. */
  ghost predicate Progress(start: View, v: View, replacements: seq<Replacement>, created: seq<Option<NodeClaim>>, i: nat)
    requires i <= |replacements| == |created|
  {
    && Released(start.pools, v.pools, replacements[..i]) && NoDebt(v.pools)
    && AllNew(v, created[i..]) && Grew(start, v, Names(created[..i]))
    && (forall j :: 0 <= j < i && created[j].Some? ==> created[j].value.name in v.claimIds)
  }

  lemma ProgressStarts(start: View, replacements: seq<Replacement>, created: seq<Option<NodeClaim>>)
    requires |replacements| == |created| && AllNew(start, created) && NoDebt(start.pools)
    ensures Progress(start, start, replacements, created, 0)
  {
    assert created[0..] == created && replacements[..0] == [];
  }

  lemma ProgressNext(start: View, v: View, w: View, replacements: seq<Replacement>, created: seq<Option<NodeClaim>>, i: nat)
    requires i < |replacements| == |created| && Progress(start, v, replacements, created, i) && Turn(v, w, replacements[i], created[i])
    ensures Progress(start, w, replacements, created, i + 1)
  {
    assert created[i..][0] == created[i] && created[i..][1..] == created[i + 1..];
    NamesNext(created, i);
    GrewTwice(start, v, w, Names(created[..i]), if created[i].Some? then {created[i].value.name} else {});
    ReleasedNext(start.pools, v.pools, w.pools, replacements, i);
    AllNewAfter(v, w, created[i..]);
  }

  lemma AllNewElsewhere(v: View, w: View, created: seq<Option<NodeClaim>>)
    requires AllNew(v, created) && w.claimIds == v.claimIds && w.pools.owner == v.pools.owner
    ensures AllNew(w, created)
  {
    forall i | 0 <= i < |created| && created[i].Some?
      ensures NewClaim(w, created[i].value)
    {
      assert NewClaim(v, created[i].value);
    }
  }

  method CountSlots(replacements: seq<Replacement>, pool: string) returns (n: nat)
    ensures n == Slots(replacements, pool)
  {
    n := 0;
    var i := 0;
    while i < |replacements|
      invariant 0 <= i <= |replacements|
      invariant n == Slots(replacements[..i], pool)
    {
      assert replacements[..i + 1][..i] == replacements[..i];
      if Holds(replacements[i], pool) {
        n := n + 1;
      }
      i := i + 1;
    }
    assert replacements[..|replacements|] == replacements;
  }

  predicate AnyFailed(ok: seq<bool>) {
    exists i :: 0 <= i < |ok| && !ok[i]
  }

  /** The claim sets once every static candidate kept is pending disruption. */
  function PendingMarks(p: Pools, kept: seq<Candidate>): Pools {
    if kept == [] then p else
    var rest, c := PendingMarks(p, kept[..|kept| - 1]), kept[|kept| - 1];
    if c.isStatic then rest.MarkClaim(c.pool, c.claim, PendingDisruption) else rest
  }

  /** Every static candidate that is kept ends up pending disruption, and in no other set of its pool. */
  lemma {:induction false} KeptArePending(p: Pools, kept: seq<Candidate>, c: Candidate)
    requires c in kept && c.isStatic
    ensures
      var sets := PendingMarks(p, kept).Sets(c.pool);
      c.claim in sets.pending && c.claim !in sets.active && c.claim !in sets.deleting
  {
    var init, last := kept[..|kept| - 1], kept[|kept| - 1];
    if last != c {
      KeptArePending(p, init, c);
    }
  }

  /** A claim that is of no static candidate kept stays in whatever set it is in. */
  lemma {:induction false} OthersStayPut(p: Pools, kept: seq<Candidate>, pool: string, claim: string, m: Mark)
    requires forall c :: c in kept && c.isStatic ==> c.pool != pool || c.claim != claim
    ensures claim in PendingMarks(p, kept).Sets(pool).Of(m) <==> claim in p.Sets(pool).Of(m)
  {
    if kept != [] {
      var init, last := kept[..|kept| - 1], kept[|kept| - 1];
      assert last in kept && forall c :: c in init ==> c in kept;
      OthersStayPut(p, init, pool, claim, m);
    }
  }

  /** Where the release stands: the pools done have given back all of the command's slots, the others none yet. */
  ghost predicate ReleasedIn(before: Pools, after: Pools, replacements: seq<Replacement>, done: set<string>) {
    && after.owner == before.owner && after.claims == before.claims
    && (forall p :: after.Reserved(p) == if p in done then Max(before.Reserved(p) - Slots(replacements, p), 0) else before.Reserved(p))
  }

  lemma ReleasedInNext(before: Pools, middle: Pools, replacements: seq<Replacement>, done: set<string>, pool: string)
    requires ReleasedIn(before, middle, replacements, done) && pool !in done && NoDebt(before)
    ensures ReleasedIn(before, middle.Release(pool, Slots(replacements, pool)), replacements, done + {pool})
  {
    var after := middle.Release(pool, Slots(replacements, pool));
    forall p
      ensures after.Reserved(p) == if p in done + {pool} then Max(before.Reserved(p) - Slots(replacements, p), 0) else before.Reserved(p)
    {
      assert middle.Reserved(p) == if p in done then Max(before.Reserved(p) - Slots(replacements, p), 0) else before.Reserved(p);
      assert before.Reserved(p) >= 0;
    }
  }

  lemma ReleasedInAll(before: Pools, after: Pools, replacements: seq<Replacement>, done: set<string>)
    requires ReleasedIn(before, after, replacements, done) && NoDebt(before)
    requires forall j :: 0 <= j < |replacements| && replacements[j].isStatic ==> replacements[j].pool in done
    ensures Released(before, after, replacements)
  {
    forall p
      ensures after.Reserved(p) == Max(before.Reserved(p) - Slots(replacements, p), 0)
    {
      assert before.Reserved(p) >= 0;
      if p !in done {
        NoStaticNoSlots(replacements, p);
      }
    }
  }

  /** One release per pool, for all of the command's slots in it. */
  method ReleaseSlots(pools: NodePoolState, replacements: seq<Replacement>)
    requires NoDebt(pools.View())
    modifies pools
    ensures Released(old(pools.View()), pools.View(), replacements)
    ensures pools.View().owner == old(pools.View().owner) && pools.View().claims == old(pools.View().claims)
  {
    ghost var before := pools.View();
    var done: set<string> := {};
    var i := 0;
    while i < |replacements|
      invariant 0 <= i <= |replacements|
      invariant forall j :: 0 <= j < i && replacements[j].isStatic ==> replacements[j].pool in done
      invariant ReleasedIn(before, pools.View(), replacements, done)
    {
      var r := replacements[i];
      if r.isStatic && r.pool !in done {
        var n := CountSlots(replacements, r.pool);
        ReleasedInNext(before, pools.View(), replacements, done, r.pool);
        pools.ReleaseNodeCount(r.pool, n);
        done := done + {r.pool};
      }
      i := i + 1;
    }
    ReleasedInAll(before, pools.View(), replacements, done);
  }

  lemma {:induction false} PendingKeeps(p: Pools, kept: seq<Candidate>)
    ensures SameReservations(p, PendingMarks(p, kept)) && PendingMarks(p, kept).owner == p.owner
  {
    if kept != [] {
      var rest, c := PendingMarks(p, kept[..|kept| - 1]), kept[|kept| - 1];
      PendingKeeps(p, kept[..|kept| - 1]);
      forall q
        ensures PendingMarks(p, kept).Reserved(q) == p.Reserved(q)
      {
        MarkReserved(rest, c.pool, c.claim, PendingDisruption, q);
        assert rest.Reserved(q) == p.Reserved(q);
      }
    }
  }

  /** The loop of markDisrupted over what became of each candidate. */
  method MarkPending(pools: NodePoolState, candidates: seq<Candidate>, ok: seq<bool>) returns (kept: seq<Candidate>, failed: bool)
    requires |ok| == |candidates|
    modifies pools
    ensures kept == Kept(candidates, ok) && (failed <==> AnyFailed(ok))
    ensures pools.View() == PendingMarks(old(pools.View()), kept)
  {
    ghost var before := pools.View();
    kept, failed := [], false;
    var i := 0;
    while i < |candidates|
      invariant 0 <= i <= |candidates|
      invariant kept == Kept(candidates[..i], ok[..i])
      invariant failed <==> AnyFailed(ok[..i])
      invariant pools.View() == PendingMarks(before, kept)
    {
      KeptNext(candidates, ok, i);
      if ok[i] {
        assert (kept + [candidates[i]])[..|kept|] == kept;
        kept := kept + [candidates[i]];
        if candidates[i].isStatic {
          pools.MarkNodeClaimPendingDisruption(candidates[i].pool, candidates[i].claim);
        }
      } else {
        failed := true;
      }
      i := i + 1;
    }
    assert candidates[..|candidates|] == candidates && ok[..|ok|] == ok;
  }

  lemma KeptNext(candidates: seq<Candidate>, ok: seq<bool>, i: nat)
    requires i < |candidates| == |ok|
    ensures Kept(candidates[..i + 1], ok[..i + 1]) == Kept(candidates[..i], ok[..i]) + (if ok[i] then [candidates[i]] else [])
    ensures AnyFailed(ok[..i + 1]) <==> AnyFailed(ok[..i]) || !ok[i]
  {
    assert candidates[..i + 1][..i] == candidates[..i] && ok[..i + 1][..i] == ok[..i];
    if AnyFailed(ok[..i]) {
      var j :| 0 <= j < i && !ok[..i][j];
      assert !ok[..i + 1][j];
    }
    if !ok[i] {
      assert !ok[..i + 1][i];
    }
  }

  /* ----- the object ----- */

  /** The machines that carry a mark. */
  function Marked(nodes: map<string, StateNode>): set<string> {
    set id | id in nodes && nodes[id].marked
  }

  lemma MarkedAfter(v: View, ids: seq<string>, marked: bool)
    ensures v.MarkAll(ids, marked).nodes.Keys == v.nodes.Keys
    ensures Marked(v.MarkAll(ids, marked).nodes) ==
      if marked then Marked(v.nodes) + (set id | id in ids && id in v.nodes) else Marked(v.nodes) - AsSet(ids)
  {
    var after := v.MarkAll(ids, marked).nodes;
    MarkAllKeys(v, ids, marked);
    forall id | id in v.nodes
      ensures after[id].marked == if id in ids then marked else v.nodes[id].marked
    {
      MarkAllMarks(v, ids, marked, id);
    }
  }

  lemma {:induction false} KeptAmong(candidates: seq<Candidate>, ok: seq<bool>)
    requires |ok| == |candidates|
    ensures forall c :: c in Kept(candidates, ok) ==> c in candidates
  {
    if candidates != [] {
      KeptAmong(candidates[..|candidates| - 1], ok[..|candidates| - 1]);
    }
  }

  lemma KeptIdsAmong(candidates: seq<Candidate>, ok: seq<bool>)
    requires |ok| == |candidates|
    ensures forall id :: id in ProviderIds(Kept(candidates, ok)) ==> id in ProviderIds(candidates)
  {
    KeptAmong(candidates, ok);
    AnyCandidate(candidates);
    AnyCandidate(Kept(candidates, ok));
  }

  /** The same machines, and of these the given ones are marked as well; nothing else of them changed. */
  ghost predicate MarkedMore(before: map<string, StateNode>, after: map<string, StateNode>, ids: seq<string>) {
    && after.Keys == before.Keys && Marked(after) == Marked(before) + (set id | id in ids && id in before)
    && (forall id :: id in before ==> after[id] == if id in ids then before[id].(marked := true) else before[id])
  }

  /** What is known of commands once a start is over; a command that did not start is closed. */
  function AfterStart(before: map<nat, Cmd>, cmd: nat, candidates: seq<Candidate>, markOk: seq<bool>, replacements: nat, result: Result): map<nat, Cmd>
    requires |markOk| == |candidates|
  {
    match result
    case RebootHandedOff => before
    case AlreadyQueued => before[cmd := NewCommand(ProviderIds(candidates), replacements, Closed)]
    case MarkingFailed => before[cmd := NewCommand(ProviderIds(candidates), replacements, Closed)]
    case LaunchFailed => before[cmd := NewCommand(ProviderIds(Kept(candidates, markOk)), replacements, Closed)]
    case Started(kept) => before[cmd := NewCommand(ProviderIds(kept), replacements, Queued)]
  }

  /** What the queue holds, without its world. */
  datatype Books = Books(commandOf: map<string, nat>, commands: map<nat, Cmd>)

  /** The candidates lead to the command, nothing else changed, and those that are tracked are marked for deletion. */
  ghost predicate QueuedAs(u: View, v: View, before: Books, after: Books, cmd: nat, ids: seq<string>) {
    after.commandOf == Filed(before.commandOf, ids, cmd) && MarkedMore(u.nodes, v.nodes, ids)
  }

  /**
   How a start ends and what it leaves. On every path each static slot of the command is given back once. Each outcome
   comes about exactly under its condition; without a start no machine and no entry of the queue changes, and
   candidates that were made pending stay so.
   */
  ghost predicate StartOutcome(u: View, v: View, before: Books, after: Books, cmd: nat, candidates: seq<Candidate>,
                               replacements: seq<Replacement>, reboot: bool, markOk: seq<bool>, created: seq<Option<NodeClaim>>, result: Result)
    requires |markOk| == |candidates|
  {
    var queued, kept := SomeQueued(candidates, before.commandOf), Kept(candidates, markOk);
    && Released(u.pools, v.pools, replacements)
    && OnlyNew(u, v, Names(created))
    && (if result.LaunchFailed? || result.Started? then Names(created) <= v.claimIds.Keys else v.claimIds == u.claimIds)
    && after.commands == AfterStart(before.commands, cmd, candidates, markOk, |replacements|, result)
    && (result.AlreadyQueued? <==> queued)
    && (result.RebootHandedOff? <==> !queued && reboot)
    && (result.MarkingFailed? <==> !queued && !reboot && AnyFailed(markOk) && (replacements != [] || kept == []))
    && (!result.Started? ==> after.commandOf == before.commandOf && v.nodes == u.nodes)
    && (result.AlreadyQueued? || result.RebootHandedOff? ==> v.pools.claims == u.pools.claims)
    && (result.MarkingFailed? ==> v.pools.claims == PendingMarks(u.pools, kept).claims)
    && (result.LaunchFailed? ==> SamePendingBut(PendingMarks(u.pools, kept), v.pools, Names(created)))
    && (result.Started? ==>
          && result.kept == kept && kept != [] && (replacements != [] ==> !AnyFailed(markOk))
          && (forall i :: 0 <= i < |created| ==> created[i].Some?)
          && QueuedAs(u, v, before, after, cmd, ProviderIds(kept)))
  }

  /** How creating the replacements and queueing the command ends, from where the candidates were marked. */
  ghost predicate LaunchOutcome(u: View, v: View, before: Books, after: Books, cmd: nat, ids: seq<string>,
                                replacements: seq<Replacement>, created: seq<Option<NodeClaim>>, launched: bool) {
    && Released(u.pools, v.pools, replacements)
    && OnlyNew(u, v, Names(created)) && Names(created) <= v.claimIds.Keys
    && (launched <==> forall i :: 0 <= i < |created| ==> created[i].Some?)
    && after.commands == before.commands[cmd := NewCommand(ids, |replacements|, if launched then Queued else Closed)]
    && (!launched ==> after.commandOf == before.commandOf && v.nodes == u.nodes && SamePendingBut(u.pools, v.pools, Names(created)))
    && (launched ==> QueuedAs(u, v, before, after, cmd, ids))
  }

  /** The static candidates that were kept are pending, and nothing else changed. */
  ghost predicate MadePending(u: View, v: View, kept: seq<Candidate>) {
    && v == u.(pools := PendingMarks(u.pools, kept))
    && SameReservations(u.pools, v.pools) && v.pools.owner == u.pools.owner && NoDebt(v.pools)
  }

  lemma NoDebtSame(before: Pools, after: Pools)
    requires NoDebt(before) && SameReservations(before, after)
    ensures NoDebt(after)
  {
  }

  lemma LaunchedOutcome(u: View, marked: View, v: View, before: Books, after: Books, cmd: nat, candidates: seq<Candidate>,
                        replacements: seq<Replacement>, markOk: seq<bool>, created: seq<Option<NodeClaim>>, launched: bool)
    requires |markOk| == |candidates| && candidates != [] && !SomeQueued(candidates, before.commandOf)
    requires !(AnyFailed(markOk) && (replacements != [] || Kept(candidates, markOk) == []))
    requires marked == u.(pools := PendingMarks(u.pools, Kept(candidates, markOk)))
    requires SameReservations(u.pools, marked.pools) && marked.pools.owner == u.pools.owner
    requires LaunchOutcome(marked, v, before, after, cmd, ProviderIds(Kept(candidates, markOk)), replacements, created, launched)
    ensures StartOutcome(u, v, before, after, cmd, candidates, replacements, false, markOk, created,
                         if launched then Started(Kept(candidates, markOk)) else LaunchFailed)
  {
    ReleasedAfterSame(u.pools, marked.pools, v.pools, replacements);
    if !AnyFailed(markOk) {
      AllKept(candidates, markOk);
    }
  }

  lemma MarkingFailedOutcome(u: View, marked: View, v: View, before: Books, after: Books, cmd: nat, candidates: seq<Candidate>,
                             replacements: seq<Replacement>, markOk: seq<bool>, created: seq<Option<NodeClaim>>)
    requires |markOk| == |candidates| && !SomeQueued(candidates, before.commandOf)
    requires AnyFailed(markOk) && (replacements != [] || Kept(candidates, markOk) == [])
    requires marked == u.(pools := PendingMarks(u.pools, Kept(candidates, markOk)))
    requires SameReservations(u.pools, marked.pools) && marked.pools.owner == u.pools.owner
    requires v == marked.(pools := v.pools) && v.pools.claims == marked.pools.claims && v.pools.owner == marked.pools.owner
    requires Released(marked.pools, v.pools, replacements)
    requires after == Books(before.commandOf, before.commands[cmd := NewCommand(ProviderIds(candidates), |replacements|, Closed)])
    ensures StartOutcome(u, v, before, after, cmd, candidates, replacements, false, markOk, created, MarkingFailed)
  {
    ReleasedAfterSame(u.pools, marked.pools, v.pools, replacements);
  }

  /** The world shows what the queue holds, and some run of the protocol reaches it. */
  ghost predicate ShowsBooks(w: World, b: Books) {
    && Reached(w) && w.cmds == b.commands && w.queue == b.commandOf && w.marked <= w.tracked
    && (forall id :: id in b.commandOf ==> b.commandOf[id] in b.commands)
    && (forall c :: c in b.commands ==> b.commands[c].phase == Closed || (b.commands[c].phase == Queued && !b.commands[c].succeeded))
  }

  ghost predicate ShowsMachines(w: World, nodes: map<string, StateNode>) {
    w.tracked == nodes.Keys && w.marked == Marked(nodes)
  }

  /** What a start does to the object is what a run of the protocol does to the world it shows. */
  lemma StartFollows(w: World, u: View, v: View, before: Books, after: Books, cmd: nat, candidates: seq<Candidate>,
                     replacements: seq<Replacement>, reboot: bool, markOk: seq<bool>, created: seq<Option<NodeClaim>>, result: Result)
    returns (x: World)
    requires |markOk| == |candidates| && ShowsBooks(w, before) && ShowsMachines(w, u.nodes) && cmd !in before.commands
    requires StartOutcome(u, v, before, after, cmd, candidates, replacements, reboot, markOk, created, result)
    ensures ShowsBooks(x, after) && ShowsMachines(x, v.nodes)
  {
    x := StartRun(w, cmd, candidates, markOk, |replacements|, result);
    EntriesLead(x);
    if result.Started? {
      var kept := ProviderIds(result.kept);
      assert Tracked(w, kept) == set id | id in kept && id in u.nodes;
    }
  }

  /** The run that a start with this outcome makes. */
  lemma StartRun(w: World, cmd: nat, candidates: seq<Candidate>, markOk: seq<bool>, n: nat, result: Result) returns (v: World)
    requires Reached(w) && Settled(w) && cmd !in w.cmds && |markOk| == |candidates|
    requires result.AlreadyQueued? <==> SomeQueued(candidates, w.queue)
    requires result.Started? ==> result.kept == Kept(candidates, markOk)
    ensures Reached(v) && v.cmds == AfterStart(w.cmds, cmd, candidates, markOk, n, result) && v.tracked == w.tracked
    ensures v.queue == if result.Started? then Filed(w.queue, ProviderIds(result.kept), cmd) else w.queue
    ensures v.marked == if result.Started? then w.marked + Tracked(w, ProviderIds(result.kept)) else w.marked
  {
    var ids, kept := ProviderIds(candidates), ProviderIds(Kept(candidates, markOk));
    AnyCandidate(candidates);
    assert SomeQueued(candidates, w.queue) <==> AnyIn(ids, w.queue);
    KeptIdsAmong(candidates, markOk);
    match result
    case RebootHandedOff =>
      v := w;
    case AlreadyQueued =>
      Checking(w, cmd, ids, n);
      v := WithCommand(w, cmd, NewCommand(ids, n, Closed));
    case MarkingFailed =>
      CordonFails(w, cmd, ids, n);
      v := WithCommand(w, cmd, NewCommand(ids, n, Closed));
    case LaunchFailed =>
      LaunchFails(w, cmd, ids, n, kept);
      v := WithCommand(w, cmd, NewCommand(kept, n, Closed));
    case Started(_) =>
      QueueRuns.Starts(w, cmd, ids, n, kept);
      v := StartedWorld(w, cmd, kept, n);
  }

  /** What a look at a queued command leaves: deletes are asked for exactly when every replacement is up. */
  ghost predicate LookOutcome(u: View, v: View, before: Books, after: Books, c: nat, looks: seq<Look>, deletes: seq<DeleteOutcome>,
                              timedOut: bool, asked: bool)
    requires c in before.commands && |looks| == |before.commands[c].flags|
  {
    var was := before.commands[c];
    var verdict := Judge(was.flags, looks, deletes, timedOut);
    && (asked <==> FoundUp(was.flags, looks))
    && after.commands == before.commands[c := Cmd(was.candidates, NewFlags(was.flags, looks), if verdict == Retry then Queued else Closed, verdict == Success)]
    && after.commandOf == (if verdict == Retry then before.commandOf else before.commandOf - AsSet(was.candidates))
    && v == (if verdict == Unrecoverable then u.MarkAll(was.candidates, false) else u)
  }

  /** So does a look at a queued command. */
  lemma LookFollows(w: World, u: View, v: View, before: Books, after: Books, c: nat, looks: seq<Look>, deletes: seq<DeleteOutcome>,
                    timedOut: bool, asked: bool) returns (x: World)
    requires ShowsBooks(w, before) && ShowsMachines(w, u.nodes) && c in before.commands && before.commands[c].phase == Queued
    requires |looks| == |before.commands[c].flags| && |deletes| == |before.commands[c].candidates|
    requires LookOutcome(u, v, before, after, c, looks, deletes, timedOut, asked)
    ensures ShowsBooks(x, after) && ShowsMachines(x, v.nodes)
  {
    x := LookRun(w, c, looks, deletes, timedOut);
    EntriesLead(x);
    MarkedAfter(u, before.commands[c].candidates, false);
  }

  /** The run that a look makes. */
  lemma LookRun(w: World, c: nat, looks: seq<Look>, deletes: seq<DeleteOutcome>, timedOut: bool) returns (v: World)
    requires Reached(w) && At(w, c, Queued) && |looks| == |w.cmds[c].flags| && |deletes| == |w.cmds[c].candidates|
    ensures
      var cmd := w.cmds[c];
      var verdict := Judge(cmd.flags, looks, deletes, timedOut);
      && Reached(v) && v.tracked == w.tracked
      && v.cmds == w.cmds[c := Cmd(cmd.candidates, NewFlags(cmd.flags, looks), if verdict == Retry then Queued else Closed, verdict == Success)]
      && v.queue == (if verdict == Retry then w.queue else w.queue - AsSet(cmd.candidates))
      && v.marked == (if verdict == Unrecoverable then w.marked - AsSet(cmd.candidates) else w.marked)
  {
    v := Looks(w, c, looks, deletes, timedOut);
    if Judge(w.cmds[c].flags, looks, deletes, timedOut) != Retry {
      v := CompletionFollows(v, c);
    }
  }

  lemma CompletionFollows(looked: World, c: nat) returns (v: World)
    requires Reached(looked) && At(looked, c, Completing)
    ensures Reached(v) && v.cmds == looked.cmds[c := looked.cmds[c].(phase := Closed)] && v.tracked == looked.tracked
    ensures v.queue == looked.queue - AsSet(looked.cmds[c].candidates)
    ensures v.marked == if looked.cmds[c].succeeded then looked.marked else looked.marked - AsSet(looked.cmds[c].candidates)
  {
    Completes(looked, c);
    v := CompletedWorld(looked, c);
    assert AsSet(looked.cmds[c].candidates) == set i | i in looked.cmds[c].candidates;
  }

  lemma FiledNext(queue: map<string, nat>, ids: seq<string>, i: nat, cmd: nat)
    requires i < |ids|
    ensures Filed(queue, ids[..i + 1], cmd) == Filed(queue, ids[..i], cmd)[ids[i] := cmd]
  {
    assert forall id :: id in ids[..i + 1] <==> id in ids[..i] || id == ids[i];
  }

  /** Machines that stay keep their marks or their lack of one, and machines that come have none. */
  ghost predicate MarksCarry(before: map<string, StateNode>, after: map<string, StateNode>) {
    forall id :: id in after ==> (after[id].marked <==> id in before && before[id].marked)
  }

  lemma MarksCarryMeaning(before: map<string, StateNode>, after: map<string, StateNode>)
    requires MarksCarry(before, after)
    ensures Marked(after) == Marked(before) * after.Keys
  {
  }

  /** No event of the cluster but marking makes or takes a mark, other than with its machine. */
  lemma EventsKeepMarks(v: View, e: Event)
    requires ClusterRuns.Invariant(v) && Admissible(v, e) && !e.MarkEvent?
    ensures MarksCarry(v.nodes, ClusterRuns.Step(v, e).nodes)
  {
    match e
    case UpdateClaimEvent(claim) => ClaimUpdateKeepsMarks(v, claim);
    case DeleteClaimEvent(name) => ClaimCleanupKeepsMarks(v, name);
    case UpdateNodeEvent(update) => NodeUpdateKeepsMarks(v, update);
    case DeleteNodeEvent(name) => NodeCleanupKeepsMarks(v, name);
    case UpdatePodEvent(pod) =>
      PodUpdateKeepsMachines(v, pod);
      SameMachinesKeepMarks(v, v.UpdatePod(pod));
    case DeletePodEvent(key) =>
      CompletePodKeepsMachines(v, key);
      SameMachinesKeepMarks(v, v.CompletePod(key));
  }

  lemma SameMachinesKeepMarks(v: View, w: View)
    requires SameMachines(v, w)
    ensures MarksCarry(v.nodes, w.nodes)
  {
    assert forall id :: id in v.nodes ==> SameObjects(v.nodes[id], w.nodes[id]);
  }

  /** Putting a machine in place carries the mark if it has the one that was there. */
  lemma PutCarries(nodes: map<string, StateNode>, base: map<string, StateNode>, id: string, n: StateNode)
    requires MarksCarry(nodes, base) && (n.marked <==> id in nodes && nodes[id].marked)
    ensures MarksCarry(nodes, base[id := n])
  {
  }

  lemma WithoutCarries(nodes: map<string, StateNode>, id: string)
    ensures MarksCarry(nodes, NodesWithoutClaim(nodes, id)) && MarksCarry(nodes, NodesWithoutNode(nodes, id))
  {
  }

  lemma ClaimCleanupKeepsMarks(v: View, name: string)
    requires Indexed(v)
    ensures MarksCarry(v.nodes, v.CleanupClaim(name).nodes)
  {
    CleanupClaimMaps(v, name);
    WithoutCarries(v.nodes, Lookup(v.claimIds, name, ""));
  }

  lemma NodeCleanupKeepsMarks(v: View, name: string)
    requires Indexed(v)
    ensures MarksCarry(v.nodes, v.CleanupNode(name).nodes)
  {
    CleanupNodeMaps(v, name);
    WithoutCarries(v.nodes, Lookup(v.nodeIds, name, ""));
  }

  lemma ClaimUpdateKeepsMarks(v: View, c: NodeClaim)
    requires Indexed(v)
    ensures MarksCarry(v.nodes, v.UpdateNodeClaim(c).nodes)
  {
    ClaimUpdateMaps(v, c);
    if c.providerID != "" {
      ClaimCleanupKeepsMarks(v, c.name);
      assert MarksCarry(v.nodes, MovedClaim(v, c).nodes);
      PutCarries(v.nodes, MovedClaim(v, c).nodes, c.providerID, v.WithClaim(c));
    }
  }

  lemma NodeUpdateKeepsMarks(v: View, update: NodeUpdate)
    requires Indexed(v) && update.node.name != ""
    ensures MarksCarry(v.nodes, v.UpdateNode(update).nodes)
  {
    if !update.Skipped() {
      var (w, n) := Prepared(v, update);
      PreparedKeepsMachines(v, update);
      SameMachinesKeepMarks(v, w);
      if n.Some? && update.limitsKnown {
        SameMachinesKeepIndexes(v, w);
        InstallCarries(v, w, update.Resolved(), n.value);
      }
    }
  }

  lemma CarryThrough(a: map<string, StateNode>, b: map<string, StateNode>, c: map<string, StateNode>)
    requires MarksCarry(a, b) && MarksCarry(b, c) && a.Keys == b.Keys
    ensures MarksCarry(a, c)
  {
  }

  lemma InstallCarries(v: View, w: View, node: Node, n: StateNode)
    requires Indexed(w) && SameMachines(v, w) && SameObjects(n, v.WithNode(node, node.providerID))
    ensures MarksCarry(v.nodes, w.InstallNode(node.name, node.providerID, n).nodes)
  {
    var moved := MovedNode(w, node.name, node.providerID).nodes;
    assert MarksCarry(w.nodes, moved) by {
      NodeCleanupKeepsMarks(w, node.name);
    }
    SameMachinesKeepMarks(v, w);
    CarryThrough(v.nodes, w.nodes, moved);
    InstallMaps(w, node.name, node.providerID, n);
    PutCarries(v.nodes, moved, node.providerID, n);
  }

  class Queue {
    var commandOf: map<string, nat>     // candidate provider id -> command
    var commands: map<nat, Cmd>
    const cluster: Cluster
    ghost var world: World

    constructor (c: Cluster)
      requires c.Consistent() && Marked(c.nodes) == {}
      ensures cluster == c && commandOf == map[] && commands == map[] && Valid()
    {
      cluster := c;
      commandOf, commands := map[], map[];
      world := START;
      new;
      StartIsReached();
      CatchUp();
    }

    ghost predicate Valid()
      reads this, cluster, cluster.nodePools
    {
      cluster.Consistent() && ShowsBooks(world, Holds()) && ShowsMachines(world, cluster.nodes)
    }

    /**
     What every run guarantees, of the object: each entry leads to a queued command that has it as a candidate, no two
     queued commands share a candidate, candidates that stayed tracked are marked, deletes waited for replacements, and a
     command that succeeded has all its candidates deleted.
     */
    lemma IsSafe(id: string)
      requires Valid()
      ensures id in commandOf ==>
        && commandOf[id] in commands && commands[commandOf[id]].phase == Queued && id in commands[commandOf[id]].candidates
        && (forall d :: d in commands && d != commandOf[id] && commands[d].phase == Queued ==> id !in commands[d].candidates)
        && ((commandOf[id], id) !in world.lost ==> id in cluster.nodes && cluster.nodes[id].marked)
      ensures forall c :: (c, id) in world.requested ==> c in commands && AllUp(commands[c].flags)
      ensures forall c :: c in commands && commands[c].succeeded ==>
        AllUp(commands[c].flags) && (id in commands[c].candidates ==> (c, id) in world.deleted)
    {
      HistoryIsSafe(world, id);
      if id in commandOf {
        EntryIsSafe(world, id);
      }
    }

    ghost function Holds(): Books
      reads this
    {
      Books(commandOf, commands)
    }

    ghost function PoolsNow(): Pools
      reads cluster, cluster.nodePools
    {
      cluster.nodePools.View()
    }

    /** The cluster changed: machines came and went, those that stayed kept their marks, and those that came have none. */
    ghost method CatchUp()
      requires cluster.Consistent() && ShowsBooks(world, Holds()) && Marked(cluster.nodes) == world.marked * cluster.nodes.Keys
      modifies this`world
      ensures Valid()
      ensures world.observed == old(world.observed) && world.requested == old(world.requested) && world.deleted == old(world.deleted)
      ensures world.lost == old(world.lost) + Pairs(commands.Keys, old(world.tracked) - cluster.nodes.Keys)
    {
      var v := CatchesUp(world, cluster.nodes.Keys);
      world := v;
    }

    /**
     An event reaches the cluster while commands are queued. The queue stays valid, and a candidate is lost to its command
     only by its machine going away.
     */
    method Deliver(e: Event)
      requires Valid() && Admissible(cluster.State(), e) && !e.MarkEvent?
      modifies this`world, cluster, cluster.nodePools
      ensures Valid() && cluster.State() == ClusterRuns.Step(old(cluster.State()), e)
      ensures forall c, id :: (c, id) in world.lost && (c, id) !in old(world.lost) ==> id in old(cluster.nodes) && id !in cluster.nodes
    {
      EventsKeepMarks(cluster.State(), e);
      ghost var before := cluster.nodes;
      Forward(e);
      MarksCarryMeaning(before, cluster.nodes);
      CatchUp();
    }

    method Forward(e: Event)
      requires cluster.Consistent() && Admissible(cluster.State(), e) && !e.MarkEvent?
      modifies cluster, cluster.nodePools
      ensures cluster.Consistent() && cluster.State() == ClusterRuns.Step(old(cluster.State()), e)
    {
      match e
      case UpdateClaimEvent(claim) => cluster.UpdateNodeClaim(claim);
      case DeleteClaimEvent(name) => cluster.DeleteNodeClaim(name);
      case UpdateNodeEvent(update) => cluster.UpdateNode(update);
      case DeleteNodeEvent(name) => cluster.DeleteNode(name);
      case UpdatePodEvent(pod) => cluster.UpdatePod(pod);
      case DeletePodEvent(key) => cluster.DeletePod(key);
    }

    method HasAny(ids: seq<string>) returns (any: bool)
      ensures any <==> exists id :: id in ids && id in commandOf
    {
      var i := 0;
      while i < |ids|
        invariant 0 <= i <= |ids|
        invariant forall j :: 0 <= j < i ==> ids[j] !in commandOf
      {
        if ids[i] in commandOf {
          return true;
        }
        i := i + 1;
      }
      return false;
    }

    /** The deferred release: one call per pool, for all of the command's slots in it. */
    method ReleaseReservations(replacements: seq<Replacement>)
      requires cluster.Consistent() && NoDebt(PoolsNow())
      modifies cluster.nodePools
      ensures cluster.Consistent()
      ensures Released(old(PoolsNow()), PoolsNow(), replacements)
      ensures PoolsNow().owner == old(PoolsNow().owner) && PoolsNow().claims == old(PoolsNow().claims)
    {
      ghost var v := cluster.State();
      ReleaseSlots(cluster.nodePools, replacements);
      PoolsOnly(v, PoolsNow());
      assert cluster.State() == v.(pools := PoolsNow());
    }

    /** markDisrupted: candidates of static pools whose marking succeeded become pending disruption. */
    method MarkDisrupted(candidates: seq<Candidate>, ok: seq<bool>) returns (kept: seq<Candidate>, failed: bool)
      requires cluster.Consistent() && |ok| == |candidates|
      modifies cluster.nodePools
      ensures cluster.Consistent()
      ensures kept == Kept(candidates, ok)
      ensures failed <==> AnyFailed(ok)
      ensures PoolsNow() == PendingMarks(old(PoolsNow()), kept)
      ensures SameReservations(old(PoolsNow()), PoolsNow())
      ensures PoolsNow().owner == old(PoolsNow().owner)
    {
      ghost var v := cluster.State();
      kept, failed := MarkPending(cluster.nodePools, candidates, ok);
      PendingKeeps(v.pools, kept);
      PoolsOnly(v, PoolsNow());
      assert cluster.State() == v.(pools := PoolsNow());
    }

    /** Creates one claim or fails to, and releases its static slot either way. */
    method CreateOne(r: Replacement, created: Option<NodeClaim>)
      requires cluster.Consistent() && (created.Some? ==> NewClaim(cluster.State(), created.value))
      requires NoDebt(PoolsNow())
      modifies cluster, cluster.nodePools
      ensures cluster.Consistent()
      ensures cluster.State() == AfterTurn(old(cluster.State()), r, created)
      ensures Turn(old(cluster.State()), cluster.State(), r, created)
    {
      ghost var start := cluster.State();
      TurnHappens(start, r, created);
      if created.Some? {
        NewClaimIsAdmissible(start, created.value, "");
        cluster.UpdateNodeClaim(created.value);
      }
      ghost var v := cluster.State();
      if r.isStatic {
        cluster.nodePools.ReleaseNodeCount(r.pool, 1);
      }
      PoolsOnly(v, PoolsNow());
      assert cluster.State() == v.(pools := PoolsNow());
    }

    method CreateNext(ghost start: View, replacements: seq<Replacement>, created: seq<Option<NodeClaim>>, i: nat)
      requires cluster.Consistent() && i < |replacements| == |created| && Progress(start, cluster.State(), replacements, created, i)
      modifies cluster, cluster.nodePools
      ensures cluster.Consistent() && Progress(start, cluster.State(), replacements, created, i + 1)
    {
      ghost var v := cluster.State();
      assert created[i..][0] == created[i];
      CreateOne(replacements[i], created[i]);
      ProgressNext(start, v, cluster.State(), replacements, created, i);
    }

    /** CreateNodeClaims: every static slot is released once, whether or not its claim could be created. */
    method CreateNodeClaims(replacements: seq<Replacement>, created: seq<Option<NodeClaim>>) returns (ok: bool)
      requires cluster.Consistent() && |created| == |replacements|
      requires AllNew(cluster.State(), created)
      requires NoDebt(PoolsNow())
      modifies cluster, cluster.nodePools
      ensures cluster.Consistent()
      ensures ok <==> forall i :: 0 <= i < |created| ==> created[i].Some?
      ensures Released(old(PoolsNow()), PoolsNow(), replacements)
      ensures forall i :: 0 <= i < |created| && created[i].Some? ==> created[i].value.name in cluster.claimIds
      ensures Grew(old(cluster.State()), cluster.State(), Names(created))
    {
      ghost var start := cluster.State();
      ok := true;
      var i := 0;
      ProgressStarts(start, replacements, created);
      while i < |replacements|
        invariant 0 <= i <= |replacements|
        invariant cluster.Consistent()
        invariant ok <==> forall j :: 0 <= j < i ==> created[j].Some?
        invariant Progress(start, cluster.State(), replacements, created, i)
      {
        CreateNext(start, replacements, created, i);
        ok := ok && created[i].Some?;
        i := i + 1;
      }
      assert replacements[..|replacements|] == replacements && created[..|created|] == created;
    }

    /**
     The slots of the command are released by the deferred release on an early return, and by CreateNodeClaims from
     then on.
     */
    method StartCommand(cmd: nat, candidates: seq<Candidate>, replacements: seq<Replacement>, reboot: bool,
                        markOk: seq<bool>, created: seq<Option<NodeClaim>>) returns (result: Result)
      requires Valid() && candidates != [] && cmd !in commands
      requires |markOk| == |candidates| && |created| == |replacements|
      requires AllNew(cluster.State(), created) && NoDebt(PoolsNow())
      modifies this, cluster, cluster.nodePools
      ensures Valid()
      ensures StartOutcome(old(cluster.State()), cluster.State(), old(Holds()), Holds(), cmd, candidates, replacements, reboot, markOk, created, result)
    {
      ghost var u, before := cluster.State(), Holds();
      result := Attempt(cmd, candidates, replacements, reboot, markOk, created);
      var x := StartFollows(world, u, cluster.State(), before, Holds(), cmd, candidates, replacements, reboot, markOk, created, result);
      world := x;
    }

    /** The code of StartCommand, on what the object really holds. */
    method Attempt(cmd: nat, candidates: seq<Candidate>, replacements: seq<Replacement>, reboot: bool,
                   markOk: seq<bool>, created: seq<Option<NodeClaim>>) returns (result: Result)
      requires cluster.Consistent() && candidates != []
      requires |markOk| == |candidates| && |created| == |replacements|
      requires AllNew(cluster.State(), created) && NoDebt(PoolsNow())
      modifies this`commandOf, this`commands, cluster, cluster.nodePools
      ensures cluster.Consistent()
      ensures StartOutcome(old(cluster.State()), cluster.State(), old(Holds()), Holds(), cmd, candidates, replacements, reboot, markOk, created, result)
    {
      var any := HasAny(ProviderIds(candidates));
      AnyCandidate(candidates);
      if any {
        ReleaseReservations(replacements);
        Close(cmd, ProviderIds(candidates), |replacements|);
        return AlreadyQueued;
      }
      if reboot {
        ReleaseReservations(replacements);
        return RebootHandedOff;
      }
      ghost var u := cluster.State();
      var kept, failed := MarkDisrupted(candidates, markOk);
      NoDebtSame(u.pools, PoolsNow());
      if failed && (|replacements| > 0 || |kept| == 0) {
        result := GiveUp(cmd, candidates, kept, replacements, markOk, created, u);
      } else {
        result := Launch(cmd, candidates, kept, replacements, markOk, created, u);
      }
    }

    method GiveUp(cmd: nat, candidates: seq<Candidate>, ghost kept: seq<Candidate>, replacements: seq<Replacement>, ghost markOk: seq<bool>,
                  ghost created: seq<Option<NodeClaim>>, ghost u: View) returns (result: Result)
      requires cluster.Consistent() && !SomeQueued(candidates, commandOf)
      requires |markOk| == |candidates| && kept == Kept(candidates, markOk) && AnyFailed(markOk) && (replacements != [] || kept == [])
      requires MadePending(u, cluster.State(), kept)
      modifies this`commands, cluster.nodePools
      ensures cluster.Consistent()
      ensures StartOutcome(u, cluster.State(), old(Holds()), Holds(), cmd, candidates, replacements, false, markOk, created, result)
    {
      ghost var v := cluster.State();
      ReleaseReservations(replacements);
      Close(cmd, ProviderIds(candidates), |replacements|);
      MarkingFailedOutcome(u, v, cluster.State(), old(Holds()), Holds(), cmd, candidates, replacements, markOk, created);
      result := MarkingFailed;
    }

    method Launch(cmd: nat, candidates: seq<Candidate>, kept: seq<Candidate>, replacements: seq<Replacement>, ghost markOk: seq<bool>,
                  created: seq<Option<NodeClaim>>, ghost u: View) returns (result: Result)
      requires cluster.Consistent() && candidates != [] && !SomeQueued(candidates, commandOf)
      requires |markOk| == |candidates| && kept == Kept(candidates, markOk) && !(AnyFailed(markOk) && (replacements != [] || kept == []))
      requires MadePending(u, cluster.State(), kept)
      requires |created| == |replacements| && AllNew(u, created)
      modifies this`commandOf, this`commands, cluster, cluster.nodePools
      ensures cluster.Consistent()
      ensures StartOutcome(u, cluster.State(), old(Holds()), Holds(), cmd, candidates, replacements, false, markOk, created, result)
    {
      ghost var v := cluster.State();
      AllNewElsewhere(u, v, created);
      var launched := LaunchAndQueue(cmd, ProviderIds(kept), replacements, created);
      LaunchedOutcome(u, v, cluster.State(), old(Holds()), Holds(), cmd, candidates, replacements, markOk, created, launched);
      result := if launched then Started(kept) else LaunchFailed;
    }

    method Close(cmd: nat, ids: seq<string>, replacements: nat)
      modifies this`commands
      ensures commands == old(commands)[cmd := NewCommand(ids, replacements, Closed)]
    {
      commands := commands[cmd := NewCommand(ids, replacements, Closed)];
    }

    /** The second half of StartCommand, from where CreateNodeClaims answers for the reservations. */
    method LaunchAndQueue(cmd: nat, ids: seq<string>, replacements: seq<Replacement>, created: seq<Option<NodeClaim>>) returns (launched: bool)
      requires cluster.Consistent()
      requires |created| == |replacements| && AllNew(cluster.State(), created) && NoDebt(PoolsNow())
      modifies this`commandOf, this`commands, cluster, cluster.nodePools
      ensures cluster.Consistent()
      ensures LaunchOutcome(old(cluster.State()), cluster.State(), old(Holds()), Holds(), cmd, ids, replacements, created, launched)
    {
      launched := CreateNodeClaims(replacements, created);
      if launched {
        ghost var u := cluster.State();
        MarkKept(ids);
        MarkAllNames(u, ids, true);
        Enqueue(cmd, ids, |replacements|);
      } else {
        Close(cmd, ids, |replacements|);
      }
    }

    /** MarkForDeletion of the candidates, once the replacements are launched. */
    method MarkKept(ids: seq<string>)
      requires cluster.Consistent()
      modifies cluster, cluster.nodePools
      ensures cluster.Consistent() && cluster.State() == old(cluster.State()).MarkAll(ids, true)
      ensures SameReservations(old(PoolsNow()), PoolsNow())
      ensures forall id :: id in ids && id in cluster.nodes ==> cluster.nodes[id].marked
      ensures MarkedMore(old(cluster.nodes), cluster.nodes, ids)
    {
      ghost var v := cluster.State();
      MarkedAfter(v, ids, true);
      cluster.MarkForDeletion(ids);
      forall p
        ensures PoolsNow().Reserved(p) == v.pools.Reserved(p)
      {
        MarkAllReserved(v, ids, true, p);
      }
      MarkAllKeys(v, ids, true);
      forall id | id in v.nodes
        ensures id in cluster.nodes && cluster.nodes[id] == if id in ids then v.nodes[id].(marked := true) else v.nodes[id]
      {
        MarkAllMarks(v, ids, true, id);
      }
    }

    method Enqueue(cmd: nat, ids: seq<string>, replacements: nat)
      modifies this`commandOf, this`commands
      ensures commandOf == Filed(old(commandOf), ids, cmd)
      ensures commands == old(commands)[cmd := NewCommand(ids, replacements, Queued)]
    {
      var i := 0;
      while i < |ids|
        invariant 0 <= i <= |ids|
        invariant commandOf == Filed(old(commandOf), ids[..i], cmd)
        invariant commands == old(commands)
      {
        FiledNext(old(commandOf), ids, i, cmd);
        commandOf := commandOf[ids[i] := cmd];
        i := i + 1;
      }
      assert ids[..|ids|] == ids;
      commands := commands[cmd := NewCommand(ids, replacements, Queued)];
    }

    /** Completing a command takes all its candidates out of the queue, and takes back their marks unless it succeeded. */
    method CompleteCommand(cmd: nat)
      requires cluster.Consistent() && cmd in commands
      modifies this`commandOf, this`commands, cluster, cluster.nodePools
      ensures cluster.Consistent()
      ensures cluster.State() == if old(commands)[cmd].succeeded then old(cluster.State())
                                 else old(cluster.State()).MarkAll(old(commands)[cmd].candidates, false)
      ensures commandOf == old(commandOf) - AsSet(old(commands)[cmd].candidates)
      ensures commands == old(commands)[cmd := old(commands)[cmd].(phase := Closed)]
    {
      var ids := commands[cmd].candidates;
      if !commands[cmd].succeeded {
        cluster.UnmarkForDeletion(ids);
      }
      Unfile(ids);
      commands := commands[cmd := commands[cmd].(phase := Closed)];
    }

    /** The loop that takes entries out of the queue. */
    method Unfile(ids: seq<string>)
      modifies this`commandOf
      ensures commandOf == old(commandOf) - AsSet(ids)
    {
      var i := 0;
      while i < |ids|
        invariant 0 <= i <= |ids|
        invariant commandOf == old(commandOf) - AsSet(ids[..i])
      {
        commandOf := commandOf - {ids[i]};
        AsSetGrows(ids, i);
        i := i + 1;
      }
      assert ids[..|ids|] == ids;
    }

    /** One reconcile of a queued candidate; deletes are asked for exactly when every replacement is up. */
    method Reconcile(id: string, looks: seq<Look>, deletes: seq<DeleteOutcome>, timedOut: bool) returns (asked: bool)
      requires Valid()
      requires id in commandOf ==> |looks| == |commands[commandOf[id]].flags| && |deletes| == |commands[commandOf[id]].candidates|
      modifies this, cluster, cluster.nodePools
      ensures Valid()
      ensures id !in old(commandOf) ==> !asked && Holds() == old(Holds()) && cluster.State() == old(cluster.State())
      ensures id in old(commandOf) ==>
        LookOutcome(old(cluster.State()), cluster.State(), old(Holds()), Holds(), old(commandOf)[id], looks, deletes, timedOut, asked)
    {
      if id !in commandOf {
        return false;
      }
      ghost var u, before := cluster.State(), Holds();
      IsSafe(id);
      var c := commandOf[id];
      asked := Look(c, looks, deletes, timedOut);
      var x := LookFollows(world, u, cluster.State(), before, Holds(), c, looks, deletes, timedOut, asked);
      world := x;
    }

    /** The code of Reconcile, on what the object really holds. */
    method Look(c: nat, looks: seq<Look>, deletes: seq<DeleteOutcome>, timedOut: bool) returns (asked: bool)
      requires cluster.Consistent() && c in commands && !commands[c].succeeded && commands[c].phase == Queued
      requires |looks| == |commands[c].flags| && |deletes| == |commands[c].candidates|
      modifies this`commandOf, this`commands, cluster, cluster.nodePools
      ensures cluster.Consistent()
      ensures LookOutcome(old(cluster.State()), cluster.State(), old(Holds()), Holds(), c, looks, deletes, timedOut, asked)
    {
      var was := commands[c];
      var after, request, verdict := WaitOrTerminate(was.flags, looks, deletes, timedOut);
      asked := request;
      Settle(c, after, verdict);
    }

    /** Records what a look found, and completes the command if that ends it. */
    method Settle(c: nat, flags: seq<bool>, verdict: Verdict)
      requires cluster.Consistent() && c in commands && !commands[c].succeeded && commands[c].phase == Queued
      modifies this`commandOf, this`commands, cluster, cluster.nodePools
      ensures cluster.Consistent()
      ensures commands == old(commands)[c := Cmd(old(commands)[c].candidates, flags, if verdict == Retry then Queued else Closed, verdict == Success)]
      ensures commandOf == if verdict == Retry then old(commandOf) else old(commandOf) - AsSet(old(commands)[c].candidates)
      ensures cluster.State() == if verdict == Unrecoverable then old(cluster.State()).MarkAll(old(commands)[c].candidates, false) else old(cluster.State())
    {
      commands := commands[c := commands[c].(flags := flags)];
      if verdict == Success {
        commands := commands[c := commands[c].(succeeded := true)];
      }
      assert commands == old(commands)[c := Cmd(old(commands)[c].candidates, flags, Queued, verdict == Success)];
      assert cluster.State() == old(cluster.State());
      if verdict != Retry {
        CompleteCommand(c);
      }
    }
  }

  lemma AnyCandidate(candidates: seq<Candidate>)
    ensures forall c :: c in candidates ==> c.id in ProviderIds(candidates)
    ensures forall id :: id in ProviderIds(candidates) ==> exists c :: c in candidates && c.id == id
  {
    forall c | c in candidates
      ensures c.id in ProviderIds(candidates)
    {
      var i :| 0 <= i < |candidates| && candidates[i] == c;
      assert ProviderIds(candidates)[i] == c.id;
    }
    forall id | id in ProviderIds(candidates)
      ensures exists c :: c in candidates && c.id == id
    {
      var i :| 0 <= i < |candidates| && ProviderIds(candidates)[i] == id;
      assert candidates[i] in candidates;
    }
  }

  lemma {:induction false} AllKept(candidates: seq<Candidate>, ok: seq<bool>)
    requires |ok| == |candidates| && forall i :: 0 <= i < |ok| ==> ok[i]
    ensures Kept(candidates, ok) == candidates
  {
    if candidates != [] {
      var n := |candidates| - 1;
      AllKept(candidates[..n], ok[..n]);
      assert candidates == candidates[..n] + [candidates[n]];
    }
  }

  lemma {:induction false} MarkAllNames(v: View, ids: seq<string>, marked: bool)
    ensures v.MarkAll(ids, marked).claimIds == v.claimIds && v.MarkAll(ids, marked).pools.owner == v.pools.owner
    decreases |ids|
  {
    if ids != [] {
      MarkMaps(v, ids[0], marked);
      MarkAllNames(v.Mark(ids[0], marked), ids[1..], marked);
    }
  }

  lemma {:induction false} MarkAllKeys(v: View, ids: seq<string>, marked: bool)
    ensures v.MarkAll(ids, marked).nodes.Keys == v.nodes.Keys
    decreases |ids|
  {
    if ids != [] {
      MarkMaps(v, ids[0], marked);
      MarkAllKeys(v.Mark(ids[0], marked), ids[1..], marked);
    }
  }
}
