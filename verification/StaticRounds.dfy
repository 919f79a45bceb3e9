/**
 A whole round of static drift or repair: a pass that takes slots, and the start of each command it returned. However the
 starts end, every pool's reservations are afterwards what they were before the pass.
 */
module StaticRounds {
  import opened Common
  import opened StateNodes
  import opened NodePools
  import opened ClusterView
  import opened Clusters
  import opened Queues
  import Budgets
  import ClusterRuns
  import QueueProtocol

  /** How the start of a command goes: whether its candidate can be marked, and the claim created for it, if any. */
  datatype Attempt = Attempt(claim: string, markOk: bool, created: Option<NodeClaim>)

  /** From the i-th on, the claims that get created are new, with names of their own. */
  ghost predicate FreshFrom(v: View, attempts: nat -> Attempt, i: nat) {
    && (forall j :: i <= j && attempts(j).created.Some? ==> NewClaim(v, attempts(j).created.value))
    && (forall j, k :: i <= j < k && attempts(j).created.Some? && attempts(k).created.Some? ==>
          attempts(j).created.value.name != attempts(k).created.value.name)
  }

  lemma FreshAfter(v: View, w: View, attempts: nat -> Attempt, i: nat, names: set<string>)
    requires FreshFrom(v, attempts, i) && OnlyNew(v, w, names)
    requires forall x :: x in names ==> attempts(i).created.Some? && x == attempts(i).created.value.name
    ensures FreshFrom(w, attempts, i + 1)
  {
    forall j | i + 1 <= j && attempts(j).created.Some?
      ensures NewClaim(w, attempts(j).created.value)
    {
      assert NewClaim(v, attempts(j).created.value);
    }
  }

  /** The replacements that a command of the pass stages: one in its candidate's pool, or none. */
  function Staged(cmd: Budgets.DriftCommand): seq<Replacement> {
    if cmd.staged then [Replacement(cmd.candidate.pool, true)] else []
  }

  function Created(cmd: Budgets.DriftCommand, attempt: Attempt): seq<Option<NodeClaim>> {
    if cmd.staged then [attempt.created] else []
  }

  lemma StagedSlots(cmds: seq<Budgets.DriftCommand>, i: nat, q: string)
    requires i < |cmds|
    ensures Budgets.Replacing(cmds[..i + 1], q) == Budgets.Replacing(cmds[..i], q) + Slots(Staged(cmds[i]), q)
  {
    assert cmds[..i + 1][..i] == cmds[..i];
    var r := Staged(cmds[i]);
    assert r != [] ==> r[..0] == [];
  }

  lemma {:induction false} ReplacingGrows(cmds: seq<Budgets.DriftCommand>, i: nat, q: string)
    requires i <= |cmds|
    ensures Budgets.Replacing(cmds[..i], q) <= Budgets.Replacing(cmds, q)
    decreases |cmds|
  {
    if i < |cmds| {
      var init := cmds[..|cmds| - 1];
      assert init[..i] == cmds[..i];
      ReplacingGrows(init, i, q);
    } else {
      assert cmds[..i] == cmds;
    }
  }

  /** The slots that commands hold are among those reserved. */
  ghost predicate Backed(pools: Pools, cmds: seq<Budgets.DriftCommand>) {
    forall q :: pools.Reserved(q) >= Budgets.Replacing(cmds, q)
  }

  /** Of every pool, exactly what the commands hold was given back. */
  ghost predicate GivenBack(before: Pools, after: Pools, cmds: seq<Budgets.DriftCommand>) {
    forall q :: after.Reserved(q) == before.Reserved(q) - Budgets.Replacing(cmds, q)
  }

  lemma GivenBackNext(before: Pools, middle: Pools, after: Pools, cmds: seq<Budgets.DriftCommand>, i: nat)
    requires i < |cmds| && Backed(before, cmds) && GivenBack(before, middle, cmds[..i]) && Released(middle, after, Staged(cmds[i]))
    ensures GivenBack(before, after, cmds[..i + 1])
  {
    forall q
      ensures after.Reserved(q) == before.Reserved(q) - Budgets.Replacing(cmds[..i + 1], q)
    {
      StagedSlots(cmds, i, q);
      ReplacingGrows(cmds, i + 1, q);
      assert before.Reserved(q) >= Budgets.Replacing(cmds, q);
      assert middle.Reserved(q) == before.Reserved(q) - Budgets.Replacing(cmds[..i], q);
      assert after.Reserved(q) == Max(middle.Reserved(q) - Slots(Staged(cmds[i]), q), 0);
    }
  }

  lemma NoDebtLeft(before: Pools, middle: Pools, cmds: seq<Budgets.DriftCommand>, i: nat)
    requires i <= |cmds| && Backed(before, cmds) && GivenBack(before, middle, cmds[..i])
    ensures NoDebt(middle)
  {
    forall q
      ensures middle.Reserved(q) >= 0
    {
      ReplacingGrows(cmds, i, q);
      assert before.Reserved(q) >= Budgets.Replacing(cmds, q);
      assert middle.Reserved(q) == before.Reserved(q) - Budgets.Replacing(cmds[..i], q);
    }
  }

  /** No command has this number or a higher one. */
  ghost predicate Unused(commands: map<nat, QueueProtocol.Cmd>, first: nat) {
    forall k :: k in commands ==> k < first
  }

  /** Starts one command of a pass; its slot is given back whatever comes of it. */
  method StartOne(queue: Queue, cmd: Budgets.DriftCommand, attempt: Attempt, number: nat)
    requires queue.Valid() && Unused(queue.commands, number) && NoDebt(queue.PoolsNow())
    requires AllNew(queue.cluster.State(), Created(cmd, attempt))
    modifies queue, queue.cluster, queue.cluster.nodePools
    ensures queue.Valid() && Unused(queue.commands, number + 1)
    ensures Released(old(queue.PoolsNow()), queue.PoolsNow(), Staged(cmd))
    ensures OnlyNew(old(queue.cluster.State()), queue.cluster.State(), Names(Created(cmd, attempt)))
  {
    var c := cmd.candidate;
    var result := queue.StartCommand(number, [Candidate(c.id, c.pool, attempt.claim, true)], Staged(cmd), false, [attempt.markOk], Created(cmd, attempt));
  }

  /** The claim that a command's attempt creates is new, and afterwards those of the later attempts still are. */
  lemma AttemptIsNew(v: View, cmd: Budgets.DriftCommand, attempts: nat -> Attempt, i: nat)
    requires FreshFrom(v, attempts, i)
    ensures AllNew(v, Created(cmd, attempts(i)))
  {
  }

  lemma FreshNext(v: View, w: View, cmd: Budgets.DriftCommand, attempts: nat -> Attempt, i: nat)
    requires FreshFrom(v, attempts, i) && OnlyNew(v, w, Names(Created(cmd, attempts(i))))
    ensures FreshFrom(w, attempts, i + 1)
  {
    FreshAfter(v, w, attempts, i, Names(Created(cmd, attempts(i))));
  }

  method StartNext(queue: Queue, cmds: seq<Budgets.DriftCommand>, attempts: nat -> Attempt, first: nat, i: nat, ghost before: Pools)
    requires i < |cmds| && Backed(before, cmds)
    requires queue.Valid() && Unused(queue.commands, first + i)
    requires GivenBack(before, queue.PoolsNow(), cmds[..i]) && FreshFrom(queue.cluster.State(), attempts, i)
    modifies queue, queue.cluster, queue.cluster.nodePools
    ensures queue.Valid() && Unused(queue.commands, first + i + 1)
    ensures GivenBack(before, queue.PoolsNow(), cmds[..i + 1]) && FreshFrom(queue.cluster.State(), attempts, i + 1)
  {
    ghost var v := queue.cluster.State();
    NoDebtLeft(before, v.pools, cmds, i);
    AttemptIsNew(v, cmds[i], attempts, i);
    StartOne(queue, cmds[i], attempts(i), first + i);
    GivenBackNext(before, v.pools, queue.PoolsNow(), cmds, i);
    FreshNext(v, queue.cluster.State(), cmds[i], attempts, i);
  }

  /** The commands of a pass, one after the other. */
  method StartAll(queue: Queue, cmds: seq<Budgets.DriftCommand>, attempts: nat -> Attempt, first: nat)
    requires queue.Valid() && Unused(queue.commands, first) && Backed(queue.PoolsNow(), cmds)
    requires FreshFrom(queue.cluster.State(), attempts, 0)
    modifies queue, queue.cluster, queue.cluster.nodePools
    ensures queue.Valid()
    ensures GivenBack(old(queue.PoolsNow()), queue.PoolsNow(), cmds)
  {
    ghost var before := queue.PoolsNow();
    var i := 0;
    assert cmds[..0] == [];
    while i < |cmds|
      invariant 0 <= i <= |cmds|
      invariant queue.Valid() && Unused(queue.commands, first + i)
      invariant GivenBack(before, queue.PoolsNow(), cmds[..i])
      invariant FreshFrom(queue.cluster.State(), attempts, i)
    {
      StartNext(queue, cmds, attempts, first, i, before);
      i := i + 1;
    }
    assert cmds[..|cmds|] == cmds;
  }

  /**
   A round of static drift: whatever the pass reserves, and however the start of each of its commands ends, every pool's
   reservations are afterwards what they were.
   */
  method DriftRound(queue: Queue, pools: seq<Budgets.StaticPool>, nodes: seq<Budgets.NodeView>, budgets: map<string, seq<Budgets.Budget>>,
                    attempts: nat -> Attempt, first: nat)
    requires queue.Valid() && Unused(queue.commands, first) && NoDebt(queue.PoolsNow())
    requires FreshFrom(queue.cluster.State(), attempts, 0)
    requires Budgets.WellGrouped(pools) && Budgets.UniqueIds(nodes) && Budgets.AllMatching(nodes, pools)
    modifies queue, queue.cluster, queue.cluster.nodePools
    ensures queue.Valid()
    ensures SameReservations(old(queue.PoolsNow()), queue.PoolsNow())
  {
    ghost var v := queue.cluster.State();
    var cmds := Budgets.StaticDriftPass(queue.cluster.nodePools, pools, nodes, budgets);
    AfterPass(v, queue.PoolsNow(), cmds, attempts);
    assert queue.cluster.State() == v.(pools := queue.PoolsNow());
    ghost var reserved := queue.PoolsNow();
    StartAll(queue, cmds, attempts, first);
    BackAgain(v.pools, reserved, queue.PoolsNow(), cmds);
  }

  /** The same for the static branch of a repair. */
  method RepairRound(queue: Queue, candidate: Budgets.Chosen, limit: int, replicas: int, reservationsFull: bool, holdsSlot: bool, terminateFirst: bool,
                     attempts: nat -> Attempt, first: nat)
    requires queue.Valid() && Unused(queue.commands, first) && NoDebt(queue.PoolsNow())
    requires FreshFrom(queue.cluster.State(), attempts, 0)
    modifies queue, queue.cluster, queue.cluster.nodePools
    ensures queue.Valid()
    ensures SameReservations(old(queue.PoolsNow()), queue.PoolsNow())
  {
    ghost var v := queue.cluster.State();
    var cmd := Budgets.RepairStatic(queue.cluster.nodePools, candidate, limit, replicas, reservationsFull, holdsSlot, terminateFirst);
    var cmds := if cmd.Some? then [cmd.value] else [];
    AfterPass(v, queue.PoolsNow(), cmds, attempts);
    assert queue.cluster.State() == v.(pools := queue.PoolsNow());
    ghost var reserved := queue.PoolsNow();
    StartAll(queue, cmds, attempts, first);
    BackAgain(v.pools, reserved, queue.PoolsNow(), cmds);
  }

  /** What a pass did to the pools: it took a slot for every command that stages a replacement, and nothing else. */
  ghost predicate Took(before: Pools, after: Pools, cmds: seq<Budgets.DriftCommand>) {
    after.owner == before.owner && forall q :: after.Reserved(q) == before.Reserved(q) + Budgets.Replacing(cmds, q)
  }

  lemma AfterPass(v: View, after: Pools, cmds: seq<Budgets.DriftCommand>, attempts: nat -> Attempt)
    requires ClusterRuns.Invariant(v) && NoDebt(v.pools) && Took(v.pools, after, cmds) && FreshFrom(v, attempts, 0)
    ensures ClusterRuns.Invariant(v.(pools := after)) && Backed(after, cmds) && FreshFrom(v.(pools := after), attempts, 0)
  {
    PoolsOnly(v, after);
    forall q
      ensures after.Reserved(q) >= Budgets.Replacing(cmds, q)
    {
      assert v.pools.Reserved(q) >= 0;
    }
    forall j | 0 <= j && attempts(j).created.Some?
      ensures NewClaim(v.(pools := after), attempts(j).created.value)
    {
      assert NewClaim(v, attempts(j).created.value);
    }
  }

  lemma BackAgain(before: Pools, reserved: Pools, after: Pools, cmds: seq<Budgets.DriftCommand>)
    requires Took(before, reserved, cmds) && GivenBack(reserved, after, cmds)
    ensures SameReservations(before, after)
  {
    forall q
      ensures after.Reserved(q) == before.Reserved(q)
    {
      assert reserved.Reserved(q) == before.Reserved(q) + Budgets.Replacing(cmds, q);
    }
  }
}
