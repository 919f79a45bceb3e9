/**
 Runs of the queue's steps: which worlds they reach, the runs that starting and finishing one command make, and what
 becomes of a command whose deletes all went through.
 */
module QueueRuns {
  import opened QueueProtocol

  /* ----- reaching ----- */

  lemma {:induction false} RunAppend(w: World, a: seq<Step>, b: seq<Step>)
    ensures Run(w, a + b) <==> Run(w, a) && Run(After(w, a), b)
    ensures Run(w, a + b) ==> After(w, a + b) == After(After(w, a), b)
    decreases |a|
  {
    if a == [] {
      assert a + b == b;
    } else {
      assert (a + b)[0] == a[0] && (a + b)[1..] == a[1..] + b;
      if Enabled(w, a[0]) {
        RunAppend(Next(w, a[0]), a[1..], b);
      }
    }
  }

  ghost predicate Leads(w: World, steps: seq<Step>, v: World) {
    Run(w, steps) && After(w, steps) == v
  }

  /** Some run from the start ends here. */
  ghost predicate Reached(w: World) {
    exists steps :: Leads(START, steps, w)
  }

  lemma StartIsReached()
    ensures Reached(START)
  {
    assert Leads(START, [], START);
  }

  lemma OneStep(w: World, s: Step)
    requires Enabled(w, s)
    ensures Leads(w, [s], Next(w, s))
  {
    assert [s][1..] == [];
    assert Run(Next(w, s), []);
  }

  lemma ReachedNext(w: World, s: Step)
    requires Reached(w) && Enabled(w, s)
    ensures Reached(Next(w, s))
  {
    var steps :| Leads(START, steps, w);
    OneStep(w, s);
    RunAppend(START, steps, [s]);
    assert Leads(START, steps + [s], Next(w, s));
  }

  lemma ReachedIsSafe(w: World)
    requires Reached(w)
    ensures Invariant(w)
  {
    var steps :| Leads(START, steps, w);
    RunKeepsInvariant(START, steps);
  }

  /** An entry leads to a command that holds it alone, and whose candidate is marked unless it was lost. */
  lemma EntryIsSafe(w: World, id: string)
    requires Reached(w) && id in w.queue
    ensures
      var c := w.queue[id];
      && c in w.cmds && InQueue(w.cmds[c].phase) && id in w.cmds[c].candidates
      && (forall d :: d in w.cmds && d != c && w.cmds[d].phase == Queued ==> id !in w.cmds[d].candidates)
      && (w.cmds[c].phase == Queued && (c, id) !in w.lost ==> id in w.tracked && id in w.marked)
  {
    ReachedIsSafe(w);
    var c := w.queue[id];
    forall d | d in w.cmds && d != c && w.cmds[d].phase == Queued
      ensures id !in w.cmds[d].candidates
    {
      Apart(w, c, d, id);
    }
  }

  /** Deletes were asked for with all replacements up, and successes have deleted all their candidates. */
  lemma HistoryIsSafe(w: World, id: string)
    requires Reached(w)
    ensures forall c :: (c, id) in w.requested ==> c in w.cmds && AllUp(w.cmds[c].flags)
    ensures forall c :: c in w.cmds && w.cmds[c].succeeded ==>
      AllUp(w.cmds[c].flags) && (id in w.cmds[c].candidates ==> (c, id) in w.deleted)
  {
    ReachedIsSafe(w);
    forall c | c in w.cmds && w.cmds[c].succeeded
      ensures AllUp(w.cmds[c].flags) && (id in w.cmds[c].candidates ==> (c, id) in w.deleted)
    {
      assert Succeeds(w, c);
    }
  }

  lemma EntriesLead(w: World)
    requires Reached(w)
    ensures forall id :: id in w.queue ==> w.queue[id] in w.cmds
  {
    ReachedIsSafe(w);
  }

  /* ----- one command from start to end ----- */

  /** No pass is under way. */
  ghost predicate Settled(w: World) {
    forall c :: c in w.cmds ==> !InPass(w.cmds[c].phase)
  }

  function NewCommand(ids: seq<string>, replacements: nat, phase: Phase): Cmd {
    Cmd(ids, seq(replacements, _ => false), phase, false)
  }

  function WithCommand(w: World, c: nat, cmd: Cmd): World {
    w.(cmds := w.cmds[c := cmd])
  }

  ghost predicate AnyIn(ids: seq<string>, queue: map<string, nat>) {
    exists id :: id in ids && id in queue
  }

  lemma HandNext(w: World, c: nat, ids: seq<string>, n: nat)
    requires Settled(w) && c !in w.cmds
    ensures
      var hand := Hand(map[c := NewCommand(ids, n, Handed)]);
      Enabled(w, hand) && Next(w, hand) == WithCommand(w, c, NewCommand(ids, n, Handed))
  {
    var pass := map[c := NewCommand(ids, n, Handed)];
    assert w.cmds + pass == w.cmds[c := NewCommand(ids, n, Handed)];
  }

  lemma CheckNext(w: World, c: nat, ids: seq<string>, n: nat)
    ensures
      var handed := WithCommand(w, c, NewCommand(ids, n, Handed));
      && Enabled(handed, Check(c))
      && Next(handed, Check(c)) == WithCommand(w, c, NewCommand(ids, n, if AnyIn(ids, w.queue) then Closed else Checked))
  {
    var handed := WithCommand(w, c, NewCommand(ids, n, Handed));
    assert AnyQueued(handed, c) <==> AnyIn(ids, w.queue);
  }

  /** The start of a command, as far as the check. */
  lemma Checking(w: World, c: nat, ids: seq<string>, n: nat)
    requires Reached(w) && Settled(w) && c !in w.cmds
    ensures Reached(WithCommand(w, c, NewCommand(ids, n, if AnyIn(ids, w.queue) then Closed else Checked)))
  {
    HandNext(w, c, ids, n);
    ReachedNext(w, Hand(map[c := NewCommand(ids, n, Handed)]));
    CheckNext(w, c, ids, n);
    ReachedNext(WithCommand(w, c, NewCommand(ids, n, Handed)), Check(c));
  }

  /** A command that fails to cordon its candidates. */
  lemma CordonFails(w: World, c: nat, ids: seq<string>, n: nat)
    requires Reached(w) && Settled(w) && c !in w.cmds && !AnyIn(ids, w.queue)
    ensures Reached(WithCommand(w, c, NewCommand(ids, n, Closed)))
  {
    Checking(w, c, ids, n);
    var checked := WithCommand(w, c, NewCommand(ids, n, Checked));
    ReachedNext(checked, Cordon(c, false, []));
    assert Next(checked, Cordon(c, false, [])) == WithCommand(w, c, NewCommand(ids, n, Closed));
  }

  lemma CordonNext(w: World, c: nat, ids: seq<string>, n: nat, kept: seq<string>)
    requires forall id :: id in kept ==> id in ids
    ensures
      var checked := WithCommand(w, c, NewCommand(ids, n, Checked));
      && Enabled(checked, Cordon(c, true, kept))
      && Next(checked, Cordon(c, true, kept)) == WithCommand(w, c, NewCommand(kept, n, Cordoned))
  {
  }

  lemma Cordoning(w: World, c: nat, ids: seq<string>, n: nat, kept: seq<string>)
    requires Reached(w) && Settled(w) && c !in w.cmds && !AnyIn(ids, w.queue)
    requires forall id :: id in kept ==> id in ids
    ensures Reached(WithCommand(w, c, NewCommand(kept, n, Cordoned)))
  {
    Checking(w, c, ids, n);
    var checked := WithCommand(w, c, NewCommand(ids, n, Checked));
    CordonNext(w, c, ids, n, kept);
    ReachedNext(checked, Cordon(c, true, kept));
  }

  /** A command whose replacements cannot all be launched. */
  lemma LaunchFails(w: World, c: nat, ids: seq<string>, n: nat, kept: seq<string>)
    requires Reached(w) && Settled(w) && c !in w.cmds && !AnyIn(ids, w.queue)
    requires forall id :: id in kept ==> id in ids
    ensures Reached(WithCommand(w, c, NewCommand(kept, n, Closed)))
  {
    Cordoning(w, c, ids, n, kept);
    var cordoned := WithCommand(w, c, NewCommand(kept, n, Cordoned));
    ReachedNext(cordoned, Launch(c, false));
    assert Next(cordoned, Launch(c, false)) == WithCommand(w, c, NewCommand(kept, n, Closed));
  }

  function Tracked(w: World, ids: seq<string>): set<string> {
    set id | id in ids && id in w.tracked
  }

  function Filed(queue: map<string, nat>, ids: seq<string>, c: nat): map<string, nat> {
    map id | id in queue.Keys + (set i | i in ids) :: if id in ids then c else queue[id]
  }

  /** The world after a command has started. */
  function StartedWorld(w: World, c: nat, kept: seq<string>, n: nat): World {
    WithCommand(w, c, NewCommand(kept, n, Queued)).(
      marked := w.marked + Tracked(w, kept),
      lost := w.lost + (set id | id in kept && id !in w.tracked :: (c, id)),
      queue := Filed(w.queue, kept, c))
  }

  function FlaggedWorld(w: World, c: nat, kept: seq<string>, n: nat): World {
    WithCommand(w, c, NewCommand(kept, n, Flagged)).(
      marked := w.marked + Tracked(w, kept),
      lost := w.lost + (set id | id in kept && id !in w.tracked :: (c, id)))
  }

  lemma FlagNext(w: World, c: nat, kept: seq<string>, n: nat)
    ensures
      var launched := WithCommand(w, c, NewCommand(kept, n, Launched));
      Enabled(launched, Flag(c)) && Next(launched, Flag(c)) == FlaggedWorld(w, c, kept, n)
  {
  }

  lemma EnqueueNext(w: World, c: nat, kept: seq<string>, n: nat)
    ensures
      var flagged := FlaggedWorld(w, c, kept, n);
      Enabled(flagged, Enqueue(c)) && Next(flagged, Enqueue(c)) == StartedWorld(w, c, kept, n)
  {
    var flagged := FlaggedWorld(w, c, kept, n);
    assert flagged.cmds[c := NewCommand(kept, n, Queued)] == w.cmds[c := NewCommand(kept, n, Queued)];
  }

  /** A command that starts: launched, its candidates marked, then queued. */
  lemma Starts(w: World, c: nat, ids: seq<string>, n: nat, kept: seq<string>)
    requires Reached(w) && Settled(w) && c !in w.cmds && !AnyIn(ids, w.queue)
    requires forall id :: id in kept ==> id in ids
    ensures Reached(StartedWorld(w, c, kept, n))
  {
    Launching(w, c, ids, n, kept);
    FlagNext(w, c, kept, n);
    ReachedNext(WithCommand(w, c, NewCommand(kept, n, Launched)), Flag(c));
    EnqueueNext(w, c, kept, n);
    ReachedNext(FlaggedWorld(w, c, kept, n), Enqueue(c));
  }

  lemma Launching(w: World, c: nat, ids: seq<string>, n: nat, kept: seq<string>)
    requires Reached(w) && Settled(w) && c !in w.cmds && !AnyIn(ids, w.queue)
    requires forall id :: id in kept ==> id in ids
    ensures Reached(WithCommand(w, c, NewCommand(kept, n, Launched)))
  {
    Cordoning(w, c, ids, n, kept);
    var cordoned := WithCommand(w, c, NewCommand(kept, n, Cordoned));
    ReachedNext(cordoned, Launch(c, true));
    assert Next(cordoned, Launch(c, true)) == WithCommand(w, c, NewCommand(kept, n, Launched));
  }

  /** What a look changes, but for the history. */
  lemma LookNext(w: World, c: nat, looks: seq<Look>, deletes: seq<DeleteOutcome>, timedOut: bool)
    requires Enabled(w, Reconcile(c, looks, deletes, timedOut))
    ensures
      var v := Next(w, Reconcile(c, looks, deletes, timedOut));
      var verdict := Judge(w.cmds[c].flags, looks, deletes, timedOut);
      && v.cmds == w.cmds[c := Cmd(w.cmds[c].candidates, NewFlags(w.cmds[c].flags, looks), if verdict == Retry then Queued else Completing, verdict == Success)]
      && v.queue == w.queue && v.tracked == w.tracked && v.marked == w.marked
  {
  }

  lemma Looks(w: World, c: nat, looks: seq<Look>, deletes: seq<DeleteOutcome>, timedOut: bool) returns (v: World)
    requires Reached(w) && At(w, c, Queued) && |looks| == |w.cmds[c].flags| && |deletes| == |w.cmds[c].candidates|
    ensures
      var verdict := Judge(w.cmds[c].flags, looks, deletes, timedOut);
      && Reached(v) && v.queue == w.queue && v.tracked == w.tracked && v.marked == w.marked
      && v.cmds == w.cmds[c := Cmd(w.cmds[c].candidates, NewFlags(w.cmds[c].flags, looks), if verdict == Retry then Queued else Completing, verdict == Success)]
  {
    LookNext(w, c, looks, deletes, timedOut);
    v := Next(w, Reconcile(c, looks, deletes, timedOut));
    ReachedNext(w, Reconcile(c, looks, deletes, timedOut));
  }

  /** Completing a command whose last look has ended it. */
  lemma Completes(w: World, c: nat)
    requires Reached(w) && At(w, c, Completing)
    ensures Reached(CompletedWorld(w, c))
  {
    var unmarked := UnmarkedWorld(w, c);
    assert Next(w, Unmark(c)) == unmarked;
    ReachedNext(w, Unmark(c));
    RemoveNext(w, c);
    ReachedNext(unmarked, Remove(c));
  }

  function UnmarkedWorld(w: World, c: nat): World
    requires c in w.cmds
  {
    var ids := set i | i in w.cmds[c].candidates;
    Move(w, c, Unmarked).(marked := if w.cmds[c].succeeded then w.marked else w.marked - ids)
  }

  function CompletedWorld(w: World, c: nat): World
    requires c in w.cmds
  {
    var ids := set i | i in w.cmds[c].candidates;
    Move(w, c, Closed).(marked := if w.cmds[c].succeeded then w.marked else w.marked - ids, queue := w.queue - ids)
  }

  lemma RemoveNext(w: World, c: nat)
    requires c in w.cmds
    ensures Enabled(UnmarkedWorld(w, c), Remove(c)) && Next(UnmarkedWorld(w, c), Remove(c)) == CompletedWorld(w, c)
  {
    var unmarked := UnmarkedWorld(w, c);
    assert unmarked.cmds[c := unmarked.cmds[c].(phase := Closed)] == w.cmds[c := w.cmds[c].(phase := Closed)];
  }

  /* ----- machines come and go ----- */

  /** Every command with every one of the machines. */
  function Pairs(cmds: set<nat>, ids: set<string>): set<(nat, string)> {
    set c, id | c in cmds && id in ids :: (c, id)
  }

  /** The world once machines are gone: their marks with them, and their commands have lost them. */
  function Untracked(w: World, ids: set<string>): World {
    w.(tracked := w.tracked - ids, marked := w.marked - ids, lost := w.lost + Pairs(w.cmds.Keys, ids))
  }

  lemma UntrackNext(w: World, id: string)
    ensures Enabled(w, Untrack(id)) && Next(w, Untrack(id)) == Untracked(w, {id})
  {
    assert Pairs(w.cmds.Keys, {id}) == set c | c in w.cmds :: (c, id);
  }

  /** The world once machines came. */
  function WithTracked(w: World, ids: set<string>): World {
    w.(tracked := w.tracked + ids)
  }

  lemma TrackNext(w: World, id: string)
    ensures Enabled(w, Track(id)) && Next(w, Track(id)) == WithTracked(w, {id})
  {
  }

  lemma TrackedJoin(w: World, ids: set<string>, id: string)
    requires id in ids
    ensures WithTracked(WithTracked(w, {id}), ids - {id}) == WithTracked(w, ids)
  {
    assert w.tracked + {id} + (ids - {id}) == w.tracked + ids;
  }

  lemma TrackedNone(w: World)
    ensures WithTracked(w, {}) == w
  {
    assert w.tracked + {} == w.tracked;
  }

  lemma PairsJoin(cmds: set<nat>, ids: set<string>, id: string)
    requires id in ids
    ensures Pairs(cmds, ids) == Pairs(cmds, {id}) + Pairs(cmds, ids - {id})
  {
  }

  lemma UntrackedJoin(w: World, ids: set<string>, id: string)
    requires id in ids
    ensures Untracked(Untracked(w, {id}), ids - {id}) == Untracked(w, ids)
  {
    PairsJoin(w.cmds.Keys, ids, id);
    assert w.tracked - {id} - (ids - {id}) == w.tracked - ids && w.marked - {id} - (ids - {id}) == w.marked - ids;
    assert w.lost + Pairs(w.cmds.Keys, {id}) + Pairs(w.cmds.Keys, ids - {id}) == w.lost + Pairs(w.cmds.Keys, ids);
  }

  lemma UntrackedNone(w: World)
    ensures Untracked(w, {}) == w
  {
    assert Pairs(w.cmds.Keys, {}) == {};
  }

  lemma {:induction false} UntrackAll(w: World, ids: set<string>)
    requires Reached(w)
    ensures Reached(Untracked(w, ids))
    decreases |ids|
  {
    if ids == {} {
      UntrackedNone(w);
    } else {
      var id :| id in ids;
      UntrackNext(w, id);
      ReachedNext(w, Untrack(id));
      UntrackAll(Untracked(w, {id}), ids - {id});
      UntrackedJoin(w, ids, id);
    }
  }

  lemma {:induction false} TrackAll(w: World, ids: set<string>)
    requires Reached(w)
    ensures Reached(WithTracked(w, ids))
    decreases |ids|
  {
    if ids == {} {
      TrackedNone(w);
    } else {
      var id :| id in ids;
      TrackNext(w, id);
      ReachedNext(w, Track(id));
      TrackAll(WithTracked(w, {id}), ids - {id});
      TrackedJoin(w, ids, id);
    }
  }

  /**
   Any change of the machines in which those that stay keep their marks and those that come have none is a run of
   the protocol, and only machines that went are lost to their commands by it.
   */
  lemma CatchesUp(w: World, tracked: set<string>) returns (v: World)
    requires Reached(w) && w.marked <= w.tracked
    ensures Reached(v) && v.cmds == w.cmds && v.queue == w.queue && v.tracked == tracked && v.marked == w.marked * tracked
    ensures v.observed == w.observed && v.requested == w.requested && v.deleted == w.deleted && v.lost == w.lost + Pairs(w.cmds.Keys, w.tracked - tracked)
  {
    var u := Untracked(w, w.tracked - tracked);
    UntrackAll(w, w.tracked - tracked);
    TrackAll(u, tracked);
    v := WithTracked(u, tracked);
    assert w.tracked - (w.tracked - tracked) + tracked == tracked && w.marked - (w.tracked - tracked) == w.marked * tracked;
  }

  /* ----- a command whose deletes all went through ----- */

  /** The command ended, as a success or not, after asking for all its deletes. */
  ghost predicate Ended(w: World, c: nat, succeeded: bool) {
    && c in w.cmds && w.cmds[c].phase in {Completing, Unmarked, Closed} && w.cmds[c].succeeded == succeeded
    && (forall id :: id in w.cmds[c].candidates ==> (c, id) in w.requested)
  }

  lemma StaysEnded(w: World, s: Step, c: nat, succeeded: bool)
    requires Enabled(w, s) && Ended(w, c, succeeded)
    ensures Ended(Next(w, s), c, succeeded)
  {
    var after := Next(w, s);
    assert c in after.cmds;
    match s
    case Unmark(d) =>
    case Remove(d) =>
    case Hand(pass) => assert after.cmds[c] == w.cmds[c];
    case _ => assert after.cmds[c] == w.cmds[c];
  }

  lemma {:induction false} RunStaysEnded(w: World, steps: seq<Step>, c: nat, succeeded: bool)
    requires Run(w, steps) && Ended(w, c, succeeded)
    ensures Ended(After(w, steps), c, succeeded)
    decreases |steps|
  {
    if steps != [] {
      StaysEnded(w, steps[0], c, succeeded);
      RunStaysEnded(Next(w, steps[0]), steps[1..], c, succeeded);
    }
  }

  /** The candidates of a failed command are unmarked once that was done, and no other live command marks them. */
  ghost predicate FailuresUnmarked(w: World) {
    forall c, id :: At(w, c, Unmarked) && !w.cmds[c].succeeded && id in w.cmds[c].candidates ==> id !in w.marked
  }

  lemma FailuresStayUnmarked(w: World, s: Step)
    requires Enabled(w, s) && Exclusive(w) && FailuresUnmarked(w)
    ensures FailuresUnmarked(Next(w, s))
  {
    var after := Next(w, s);
    forall c, id | At(after, c, Unmarked) && !after.cmds[c].succeeded && id in after.cmds[c].candidates
      ensures id !in after.marked
    {
      if s.Flag? {
        assert At(w, c, Unmarked);
        Apart(w, c, s.c, id);
      } else if !s.Unmark? || s.c != c {
        assert At(w, c, Unmarked) && after.cmds[c] == w.cmds[c];
      }
    }
  }

  lemma {:induction false} RunUnmarksFailures(w: World, steps: seq<Step>)
    requires Invariant(w) && FailuresUnmarked(w) && Run(w, steps)
    ensures FailuresUnmarked(After(w, steps))
    decreases |steps|
  {
    if steps != [] {
      FailuresStayUnmarked(w, steps[0]);
      StepKeepsInvariant(w, steps[0]);
      RunUnmarksFailures(Next(w, steps[0]), steps[1..]);
    }
  }

  /** A look that finds every replacement up, and whose deletes all go through. */
  ghost predicate DeletesAll(w: World, look: Step) {
    && look.Reconcile? && Enabled(w, look)
    && AllUp(NewFlags(w.cmds[look.c].flags, look.looks))
    && AllDeleted(look.deletes)
  }

  lemma LookEnds(w: World, look: Step)
    requires DeletesAll(w, look)
    ensures Ended(Next(w, look), look.c, !look.timedOut)
  {
    var cmd := w.cmds[look.c];
    JudgeMeaning(cmd.flags, look.looks, look.deletes, look.timedOut);
    UpIsFoundUp(cmd.flags, look.looks);
    LostOneStops(cmd.flags, look.looks);
    StopsAtMeaning(cmd.flags, look.looks);
    forall id | id in cmd.candidates
      ensures (look.c, id) in Next(w, look).requested
    {
      var i :| 0 <= i < |cmd.candidates| && cmd.candidates[i] == id;
      assert look.deletes[i] == Deleted;
    }
  }

  /**
   In every run, once some look at a command found all its replacements up and all its deletes went through, the command
   stays ended with all deletes requested whatever else happens. It is a failure, with its candidates unmarked, if and
   only if the deadline had passed by that look.
   */
  lemma FailsAfterDeletingIff(before: seq<Step>, look: Step, later: seq<Step>)
    requires Run(START, before) && DeletesAll(After(START, before), look) && Run(START, before + [look] + later)
    ensures
      var w, c := After(START, before + [look] + later), look.c;
      && c in w.cmds && w.cmds[c].phase in {Completing, Unmarked, Closed}
      && (forall id :: id in w.cmds[c].candidates ==> (c, id) in w.requested)
      && (!w.cmds[c].succeeded <==> look.timedOut)
      && (At(w, c, Unmarked) && look.timedOut ==> forall id :: id in w.cmds[c].candidates ==> id !in w.marked)
  {
    var w0 := After(START, before);
    LookEnds(w0, look);
    OneStep(w0, look);
    RunAppend(START, before, [look]);
    RunAppend(START, before + [look], later);
    RunStaysEnded(Next(w0, look), later, look.c, !look.timedOut);
    RunUnmarksFailures(START, before + [look] + later);
  }

  /* ----- it happens ----- */

  const ONE_NODE := START.(tracked := {"n"})

  lemma OneNodeIsReached()
    ensures Reached(ONE_NODE) && Settled(ONE_NODE)
  {
    StartIsReached();
    ReachedNext(START, Track("n"));
    assert Next(START, Track("n")) == ONE_NODE;
  }

  /** A run that closes a command as failed, its only candidate deleted and unmarked, because a deadline passed. */
  lemma LateCommandFails()
    ensures exists w ::
      && Reached(w) && At(w, 0, Closed) && !w.cmds[0].succeeded && w.cmds[0].candidates == ["n"]
      && (0, "n") in w.requested && "n" in w.tracked && "n" !in w.marked
  {
    OneNodeIsReached();
    Starts(ONE_NODE, 0, ["n"], 1, ["n"]);
    var queued := StartedWorld(ONE_NODE, 0, ["n"], 1);
    LateLook(queued, 0, "n");
  }

  lemma LateLook(w: World, c: nat, id: string)
    requires Reached(w) && At(w, c, Queued) && w.cmds[c].candidates == [id] && w.cmds[c].flags == [false] && id in w.tracked
    ensures exists v ::
      && Reached(v) && At(v, c, Closed) && !v.cmds[c].succeeded && v.cmds[c].candidates == [id]
      && (c, id) in v.requested && id in v.tracked && id !in v.marked
  {
    var look := Reconcile(c, [Ready], [Deleted], true);
    assert Enabled(w, look);
    StopsAtMeaning([false], [Ready]);
    assert AllUp(NewFlags([false], [Ready]));
    LookEnds(w, look);
    ReachedNext(w, look);
    var looked := Next(w, look);
    assert looked.cmds[c].candidates == [id] && looked.tracked == w.tracked && At(looked, c, Completing);
    Completes(looked, c);
    var v := CompletedWorld(looked, c);
    assert Reached(v) && At(v, c, Closed) && id !in v.marked && (c, id) in v.requested;
  }
}
