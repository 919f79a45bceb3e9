/**
 The life of disruption commands as interleaved steps, one per critical section: a pass hands in commands, each is
 checked against the queue, cordons its candidates, launches replacements, marks the candidates
 for deletion and is queued; the queue waits for the replacements, deletes the candidates and completes the command.
 */
module QueueProtocol {

  /* ----- waitOrTerminate, for one command ----- */

  /** What looking up a replacement that is not known to be initialized finds. */
  datatype Look = Ready | NotReady | LookupFailed | Gone

  /** What happens to a candidate once the replacements are up: the deadline patch or the delete may fail. */
  datatype DeleteOutcome = NotRequested | Refused | Deleted

  datatype Verdict = Success | Retry | Unrecoverable

  /** The index at which the lookup loop gives up because a replacement is gone, or the number of replacements. */
  function StopsAt(flags: seq<bool>, looks: seq<Look>): nat
    requires |looks| == |flags|
  {
    if flags == [] then 0
    else if !flags[0] && looks[0] == Gone then 0
    else 1 + StopsAt(flags[1..], looks[1..])
  }

  lemma {:induction false} StopsAtMeaning(flags: seq<bool>, looks: seq<Look>)
    requires |looks| == |flags|
    ensures
      var k := StopsAt(flags, looks);
      && k <= |flags|
      && (k < |flags| ==> !flags[k] && looks[k] == Gone)
      && (forall i :: 0 <= i < k ==> flags[i] || looks[i] != Gone)
  {
    if flags != [] {
      StopsAtMeaning(flags[1..], looks[1..]);
    }
  }

  function NewFlags(flags: seq<bool>, looks: seq<Look>): (after: seq<bool>)
    requires |looks| == |flags|
    ensures |after| == |flags|
  {
    seq(|flags|, i requires 0 <= i < |flags| => flags[i] || (looks[i] == Ready && i < StopsAt(flags, looks)))
  }

  predicate AllUp(flags: seq<bool>) {
    forall i :: 0 <= i < |flags| ==> flags[i]
  }

  /** The verdict of waitOrTerminate; a passed deadline turns any outcome, success included, into a failure. */
  function Judge(flags: seq<bool>, looks: seq<Look>, deletes: seq<DeleteOutcome>, timedOut: bool): Verdict
    requires |looks| == |flags|
  {
    if timedOut || StopsAt(flags, looks) < |flags| then Unrecoverable
    else if AllUp(NewFlags(flags, looks)) && AllDeleted(deletes) then Success
    else Retry
  }

  /** A replacement that was not known to be up is gone. */
  ghost predicate LostOne(flags: seq<bool>, looks: seq<Look>)
    requires |looks| == |flags|
  {
    exists i :: 0 <= i < |flags| && !flags[i] && looks[i] == Gone
  }

  /** Every replacement was known to be up, or is found up now. */
  ghost predicate FoundUp(flags: seq<bool>, looks: seq<Look>)
    requires |looks| == |flags|
  {
    forall i :: 0 <= i < |flags| ==> flags[i] || looks[i] == Ready
  }

  predicate AllDeleted(deletes: seq<DeleteOutcome>) {
    forall i :: 0 <= i < |deletes| ==> deletes[i] == Deleted
  }

  /**
   What each verdict says: success is every replacement up, every candidate deleted and no deadline passed; the command
   is given up when the deadline passed or a replacement is gone; otherwise it is tried again.
   */
  ghost predicate IsVerdict(flags: seq<bool>, looks: seq<Look>, deletes: seq<DeleteOutcome>, timedOut: bool, verdict: Verdict)
    requires |looks| == |flags|
  {
    && (verdict == Success <==> !timedOut && FoundUp(flags, looks) && AllDeleted(deletes))
    && (verdict == Unrecoverable <==> timedOut || LostOne(flags, looks))
    && (verdict == Retry <==> !timedOut && !LostOne(flags, looks) && !(FoundUp(flags, looks) && AllDeleted(deletes)))
  }

  lemma LostOneStops(flags: seq<bool>, looks: seq<Look>)
    requires |looks| == |flags|
    ensures LostOne(flags, looks) <==> StopsAt(flags, looks) < |flags|
  {
    StopsAtMeaning(flags, looks);
  }

  /** The flags say that all are up exactly when all were found up. */
  lemma UpIsFoundUp(flags: seq<bool>, looks: seq<Look>)
    requires |looks| == |flags|
    ensures AllUp(NewFlags(flags, looks)) <==> FoundUp(flags, looks)
    ensures LostOne(flags, looks) ==> !FoundUp(flags, looks)
  {
    LostOneStops(flags, looks);
    StopsAtMeaning(flags, looks);
    var after := NewFlags(flags, looks);
    if FoundUp(flags, looks) {
      assert StopsAt(flags, looks) == |flags|;
      assert forall i :: 0 <= i < |after| ==> after[i];
    }
    if AllUp(after) {
      forall i | 0 <= i < |flags|
        ensures flags[i] || looks[i] == Ready
      {
        assert after[i];
      }
    }
  }

  lemma JudgeMeaning(flags: seq<bool>, looks: seq<Look>, deletes: seq<DeleteOutcome>, timedOut: bool)
    requires |looks| == |flags|
    ensures IsVerdict(flags, looks, deletes, timedOut, Judge(flags, looks, deletes, timedOut))
  {
    LostOneStops(flags, looks);
    UpIsFoundUp(flags, looks);
  }

  /** The loops of waitOrTerminate: it asks for no delete unless every replacement is up. */
  method WaitOrTerminate(flags: seq<bool>, looks: seq<Look>, deletes: seq<DeleteOutcome>, timedOut: bool)
    returns (after: seq<bool>, asked: bool, verdict: Verdict)
    requires |looks| == |flags|
    ensures after == NewFlags(flags, looks) && verdict == Judge(flags, looks, deletes, timedOut)
    ensures IsVerdict(flags, looks, deletes, timedOut, verdict)
    ensures asked <==> FoundUp(flags, looks)
  {
    JudgeMeaning(flags, looks, deletes, timedOut);
    UpIsFoundUp(flags, looks);
    StopsAtMeaning(flags, looks);
    after, asked := flags, false;
    var waiting := false;
    var i := 0;
    while i < |flags|
      invariant 0 <= i <= |flags| == |after|
      invariant i <= StopsAt(flags, looks)
      invariant forall j :: 0 <= j < i ==> after[j] == (flags[j] || looks[j] == Ready)
      invariant forall j :: i <= j < |flags| ==> after[j] == flags[j]
      invariant waiting <==> exists j :: 0 <= j < i && !after[j]
    {
      if !flags[i] {
        if looks[i] == Gone {
          assert StopsAt(flags, looks) == i;
          assert after == NewFlags(flags, looks);
          return after, false, Unrecoverable;
        }
        if looks[i] == Ready {
          after := after[i := true];
        } else {
          waiting := true;
        }
      }
      i := i + 1;
    }
    assert StopsAt(flags, looks) == |flags|;
    assert after == NewFlags(flags, looks);
    if waiting {
      return after, false, if timedOut then Unrecoverable else Retry;
    }
    asked := true;
    var failed := false;
    i := 0;
    while i < |deletes|
      invariant 0 <= i <= |deletes|
      invariant failed <==> exists j :: 0 <= j < i && deletes[j] != Deleted
    {
      if deletes[i] != Deleted {
        failed := true;
      }
      i := i + 1;
    }
    verdict := if timedOut then Unrecoverable else if failed then Retry else Success;
  }

  /* ----- all commands ----- */

  datatype Phase = Handed | Checked | Cordoned | Launched | Flagged | Queued | Completing | Unmarked | Closed

  datatype Cmd = Cmd(candidates: seq<string>, flags: seq<bool>, phase: Phase, succeeded: bool)

  /** `observed`, `requested`, `deleted` and `lost` are history: replacements seen initialized, deletes asked for, those
      that went through, and candidates that were not tracked at some time since their command marked them. */
  datatype World = World(
    cmds: map<nat, Cmd>, queue: map<string, nat>, tracked: set<string>, marked: set<string>,
    observed: set<(nat, nat)>, requested: set<(nat, string)>, deleted: set<(nat, string)>, lost: set<(nat, string)>)

  /** Passed the check, not yet out of the queue. */
  predicate Live(p: Phase) {
    p != Handed && p != Closed
  }

  predicate InPass(p: Phase) {
    p == Handed || p == Checked || p == Cordoned || p == Launched || p == Flagged
  }

  predicate InQueue(p: Phase) {
    p == Queued || p == Completing || p == Unmarked
  }

  predicate Share(a: Cmd, b: Cmd) {
    exists id :: id in a.candidates && id in b.candidates
  }

  datatype Step =
    | Hand(pass: map<nat, Cmd>)
    | Check(c: nat)
    | Cordon(c: nat, ok: bool, kept: seq<string>)
    | Launch(c: nat, ok: bool)
    | Flag(c: nat)
    | Enqueue(c: nat)
    | Reconcile(c: nat, looks: seq<Look>, deletes: seq<DeleteOutcome>, timedOut: bool)
    | Unmark(c: nat)
    | Remove(c: nat)
    | Track(id: string)
    | Untrack(id: string)

  ghost predicate Enabled(w: World, s: Step) {
    match s
    case Hand(pass) =>
      // one pass at a time, each handing in new commands with disjoint candidates
      && (forall c :: c in w.cmds ==> !InPass(w.cmds[c].phase))
      && (forall c :: c in pass ==> c !in w.cmds && pass[c].phase == Handed && !pass[c].succeeded && forall i :: 0 <= i < |pass[c].flags| ==> !pass[c].flags[i])
      && (forall a, b :: a in pass && b in pass && a != b ==> !Share(pass[a], pass[b]))
    case Track(_) => true
    case Untrack(_) => true
    case Cordon(c, ok, kept) => At(w, c, Checked) && forall id :: id in kept ==> id in w.cmds[c].candidates
    case Reconcile(c, looks, deletes, _) => At(w, c, Queued) && |looks| == |w.cmds[c].flags| && |deletes| == |w.cmds[c].candidates|
    case Check(c) => At(w, c, Handed)
    case Launch(c, _) => At(w, c, Cordoned)
    case Flag(c) => At(w, c, Launched)
    case Enqueue(c) => At(w, c, Flagged)
    case Unmark(c) => At(w, c, Completing)
    case Remove(c) => At(w, c, Unmarked)
  }

  predicate At(w: World, c: nat, p: Phase) {
    c in w.cmds && w.cmds[c].phase == p
  }

  function Move(w: World, c: nat, p: Phase): World
    requires c in w.cmds
  {
    w.(cmds := w.cmds[c := w.cmds[c].(phase := p)])
  }

  ghost predicate AnyQueued(w: World, c: nat)
    requires c in w.cmds
  {
    exists id :: id in w.cmds[c].candidates && id in w.queue
  }

  ghost function Next(w: World, s: Step): World
    requires Enabled(w, s)
  {
    match s
    case Hand(pass) => w.(cmds := w.cmds + pass)
    case Check(c) => Move(w, c, if AnyQueued(w, c) then Closed else Checked)
    case Cordon(c, ok, kept) =>
      if ok then w.(cmds := w.cmds[c := w.cmds[c].(phase := Cordoned, candidates := kept)]) else Move(w, c, Closed)
    case Launch(c, ok) => Move(w, c, if ok then Launched else Closed)
    case Flag(c) =>
      var ids := w.cmds[c].candidates;
      Move(w, c, Flagged).(
        marked := w.marked + (set id | id in ids && id in w.tracked),
        lost := w.lost + (set id | id in ids && id !in w.tracked :: (c, id)))
    case Enqueue(c) =>
      Move(w, c, Queued).(queue := map id | id in w.queue.Keys + (set i | i in w.cmds[c].candidates) ::
        if id in w.cmds[c].candidates then c else w.queue[id])
    case Reconcile(c, looks, deletes, timedOut) =>
      var cmd := w.cmds[c];
      var flags := NewFlags(cmd.flags, looks);
      var verdict := Judge(cmd.flags, looks, deletes, timedOut);
      var asked := AllUp(flags) && StopsAt(cmd.flags, looks) == |flags|;
      w.(cmds := w.cmds[c := Cmd(cmd.candidates, flags, if verdict == Retry then Queued else Completing, verdict == Success)],
         observed := w.observed + (set i | 0 <= i < StopsAt(cmd.flags, looks) && i < |looks| && !cmd.flags[i] && looks[i] == Ready :: (c, i)),
         requested := w.requested +
           (set i | 0 <= i < |deletes| && asked && deletes[i] != NotRequested :: (c, cmd.candidates[i])),
         deleted := w.deleted +
           (set i | 0 <= i < |deletes| && asked && deletes[i] == Deleted :: (c, cmd.candidates[i])))
    case Unmark(c) =>
      var ids := set i | i in w.cmds[c].candidates;
      Move(w, c, Unmarked).(marked := if w.cmds[c].succeeded then w.marked else w.marked - ids)
    case Remove(c) => Move(w, c, Closed).(queue := w.queue - (set i | i in w.cmds[c].candidates))
    case Track(id) => w.(tracked := w.tracked + {id})
    case Untrack(id) =>
      w.(tracked := w.tracked - {id}, marked := w.marked - {id}, lost := w.lost + (set c | c in w.cmds :: (c, id)))
  }

  /* ----- what every run keeps ----- */

  /** The queue holds exactly the candidates of the queued commands. */
  ghost predicate QueueExact(w: World) {
    && (forall id :: id in w.queue ==> w.queue[id] in w.cmds && InQueue(w.cmds[w.queue[id]].phase) && id in w.cmds[w.queue[id]].candidates)
    && (forall c :: c in w.cmds && InQueue(w.cmds[c].phase) ==>
          forall id :: id in w.cmds[c].candidates ==> id in w.queue && w.queue[id] == c)
  }

  predicate MustNotShare(a: Cmd, b: Cmd) {
    (Live(a.phase) && Live(b.phase)) || (InPass(a.phase) && InPass(b.phase))
  }

  /** No machine is a candidate of two live commands, nor of two commands of the running pass. */
  ghost predicate Exclusive(w: World) {
    forall a, b :: a in w.cmds && b in w.cmds && a != b && MustNotShare(w.cmds[a], w.cmds[b]) ==> !Share(w.cmds[a], w.cmds[b])
  }

  lemma Apart(w: World, a: nat, b: nat, id: string)
    requires Exclusive(w) && a in w.cmds && b in w.cmds && a != b && MustNotShare(w.cmds[a], w.cmds[b])
    requires id in w.cmds[a].candidates
    ensures id !in w.cmds[b].candidates
  {
    assert !Share(w.cmds[a], w.cmds[b]);
  }

  /** Deletes are asked for only once all replacements of the command were seen initialized. */
  ghost predicate DeletesWait(w: World) {
    && (forall c, i :: c in w.cmds && 0 <= i < |w.cmds[c].flags| && w.cmds[c].flags[i] ==> (c, i) in w.observed)
    && (forall c, id :: (c, id) in w.requested ==> c in w.cmds && AllUp(w.cmds[c].flags))
  }

  /** The command keeps its candidates marked: until it is given up, or until it leaves the queue as a success. */
  predicate KeepsMarks(cmd: Cmd) {
    cmd.phase in {Flagged, Queued, Completing} || (cmd.phase == Unmarked && cmd.succeeded)
  }

  /** A candidate of a queued command that stayed tracked is marked for deletion. */
  ghost predicate MarksHold(w: World) {
    forall c, id :: c in w.cmds && KeepsMarks(w.cmds[c]) && id in w.cmds[c].candidates && (c, id) !in w.lost
      ==> id in w.tracked && id in w.marked
  }

  /** A command that ended as a success has all its replacements up and all its candidates deleted. */
  ghost predicate Succeeds(w: World, c: nat) {
    && c in w.cmds && w.cmds[c].phase in {Completing, Unmarked, Closed} && AllUp(w.cmds[c].flags)
    && (forall id :: id in w.cmds[c].candidates ==> (c, id) in w.deleted)
  }

  ghost predicate SuccessesDeleted(w: World) {
    forall c :: c in w.cmds && w.cmds[c].succeeded ==> Succeeds(w, c)
  }

  /** A step that leaves the queue and the queued commands' candidates as they are. */
  lemma SameQueueStaysExact(w: World, v: World)
    requires QueueExact(w) && v.queue == w.queue && w.cmds.Keys <= v.cmds.Keys
    requires forall c :: c in w.cmds && InQueue(w.cmds[c].phase) ==> InQueue(v.cmds[c].phase) && v.cmds[c].candidates == w.cmds[c].candidates
    requires forall c :: c in v.cmds && InQueue(v.cmds[c].phase) ==> c in w.cmds && InQueue(w.cmds[c].phase)
    ensures QueueExact(v)
  {
  }

  lemma EnqueueFiles(w: World, c: nat, d: nat, id: string)
    requires Enabled(w, Enqueue(c)) && QueueExact(w) && Exclusive(w)
    requires d in w.cmds && InQueue(Next(w, Enqueue(c)).cmds[d].phase) && id in Next(w, Enqueue(c)).cmds[d].candidates
    ensures id in Next(w, Enqueue(c)).queue && Next(w, Enqueue(c)).queue[id] == d
  {
    if d != c {
      Apart(w, d, c, id);
    }
  }

  lemma EnqueueStaysExact(w: World, c: nat)
    requires Enabled(w, Enqueue(c)) && QueueExact(w) && Exclusive(w)
    ensures QueueExact(Next(w, Enqueue(c)))
  {
    var after := Next(w, Enqueue(c));
    forall d, id | d in after.cmds && InQueue(after.cmds[d].phase) && id in after.cmds[d].candidates
      ensures id in after.queue && after.queue[id] == d
    {
      EnqueueFiles(w, c, d, id);
    }
  }

  lemma RemoveStaysExact(w: World, c: nat)
    requires Enabled(w, Remove(c)) && QueueExact(w) && Exclusive(w)
    ensures QueueExact(Next(w, Remove(c)))
  {
    var after := Next(w, Remove(c));
    forall d, id | d in after.cmds && InQueue(after.cmds[d].phase) && id in after.cmds[d].candidates
      ensures id in after.queue && after.queue[id] == d
    {
      RemoveKeepsFiled(w, c, d, id);
    }
    forall id | id in after.queue
      ensures after.queue[id] in after.cmds && InQueue(after.cmds[after.queue[id]].phase) && id in after.cmds[after.queue[id]].candidates
    {
      RemoveKeepsEntry(w, c, id);
    }
  }

  lemma RemoveKeepsFiled(w: World, c: nat, d: nat, id: string)
    requires Enabled(w, Remove(c)) && QueueExact(w) && Exclusive(w)
    requires d in w.cmds && InQueue(Next(w, Remove(c)).cmds[d].phase) && id in Next(w, Remove(c)).cmds[d].candidates
    ensures id in Next(w, Remove(c)).queue && Next(w, Remove(c)).queue[id] == d
  {
    assert d != c;
    Apart(w, d, c, id);
  }

  lemma RemoveKeepsEntry(w: World, c: nat, id: string)
    requires Enabled(w, Remove(c)) && QueueExact(w) && id in Next(w, Remove(c)).queue
    ensures
      var after := Next(w, Remove(c));
      after.queue[id] in after.cmds && InQueue(after.cmds[after.queue[id]].phase) && id in after.cmds[after.queue[id]].candidates
  {
    assert w.queue[id] != c;
  }

  /** The steps that move one command along. */
  predicate MovesOne(s: Step) {
    !s.Hand? && !s.Track? && !s.Untrack?
  }

  /** What moving command `c` along does to the commands: only `c` changes, and only by narrowing its candidates. */
  ghost predicate OneMoved(w: World, v: World, c: nat) {
    && c in w.cmds && v.cmds.Keys == w.cmds.Keys
    && (forall d :: d in w.cmds && d != c ==> v.cmds[d] == w.cmds[d])
    && (forall id :: id in v.cmds[c].candidates ==> id in w.cmds[c].candidates)
    && (InPass(v.cmds[c].phase) ==> InPass(w.cmds[c].phase))
    && (Live(v.cmds[c].phase) ==> Live(w.cmds[c].phase) || (w.cmds[c].phase == Handed && !AnyQueued(w, c)))
  }

  /** What such a step does to the queue, unless it files or removes the command. */
  ghost predicate QueueKept(w: World, v: World, c: nat)
    requires c in w.cmds && c in v.cmds
  {
    && v.queue == w.queue
    && (InQueue(v.cmds[c].phase) <==> InQueue(w.cmds[c].phase))
    && (InQueue(w.cmds[c].phase) ==> v.cmds[c].candidates == w.cmds[c].candidates)
  }

  lemma StartStepMovesOne(w: World, s: Step)
    requires Enabled(w, s) && (s.Check? || s.Cordon? || s.Launch? || s.Flag?)
    ensures OneMoved(w, Next(w, s), s.c) && QueueKept(w, Next(w, s), s.c)
  {
    match s
    case Check(c) =>
    case Cordon(c, ok, kept) =>
    case Launch(c, ok) =>
    case Flag(c) =>
  }

  lemma EndStepMovesOne(w: World, s: Step)
    requires Enabled(w, s) && (s.Enqueue? || s.Reconcile? || s.Unmark? || s.Remove?)
    ensures OneMoved(w, Next(w, s), s.c) && (s.Reconcile? || s.Unmark? ==> QueueKept(w, Next(w, s), s.c))
  {
    match s
    case Enqueue(c) =>
    case Reconcile(c, looks, deletes, timedOut) =>
    case Unmark(c) =>
    case Remove(c) =>
  }

  lemma StepMovesOne(w: World, s: Step)
    requires Enabled(w, s) && MovesOne(s)
    ensures OneMoved(w, Next(w, s), s.c)
    ensures !s.Enqueue? && !s.Remove? ==> QueueKept(w, Next(w, s), s.c)
  {
    if s.Check? || s.Cordon? || s.Launch? || s.Flag? {
      StartStepMovesOne(w, s);
    } else {
      EndStepMovesOne(w, s);
    }
  }

  lemma MovedQueueStaysExact(w: World, v: World, c: nat)
    requires QueueExact(w) && OneMoved(w, v, c) && v.queue == w.queue
    requires InQueue(v.cmds[c].phase) <==> InQueue(w.cmds[c].phase)
    requires InQueue(w.cmds[c].phase) ==> v.cmds[c].candidates == w.cmds[c].candidates
    ensures QueueExact(v)
  {
    SameQueueStaysExact(w, v);
  }

  lemma QueueStaysExact(w: World, s: Step)
    requires Enabled(w, s) && QueueExact(w) && Exclusive(w)
    ensures QueueExact(Next(w, s))
  {
    if s.Enqueue? {
      EnqueueStaysExact(w, s.c);
    } else if s.Remove? {
      RemoveStaysExact(w, s.c);
    } else if MovesOne(s) {
      StepMovesOne(w, s);
      MovedQueueStaysExact(w, Next(w, s), s.c);
    } else {
      SameQueueStaysExact(w, Next(w, s));
    }
  }

  /** The check refuses a command that has a candidate in common with a queued one. */
  lemma CheckedIsApart(w: World, c: nat, d: nat, id: string)
    requires QueueExact(w) && c in w.cmds && d in w.cmds && !AnyQueued(w, c) && InQueue(w.cmds[d].phase)
    requires id in w.cmds[d].candidates
    ensures id !in w.cmds[c].candidates
  {
    assert id in w.queue;
  }

  lemma MovedStaysApart(w: World, v: World, c: nat, a: nat, b: nat)
    requires QueueExact(w) && Exclusive(w) && OneMoved(w, v, c)
    requires a in w.cmds && b in w.cmds && a != b && MustNotShare(v.cmds[a], v.cmds[b])
    ensures !Share(v.cmds[a], v.cmds[b])
  {
    forall id | id in v.cmds[a].candidates
      ensures id !in v.cmds[b].candidates
    {
      assert id in w.cmds[a].candidates;
      if MustNotShare(w.cmds[a], w.cmds[b]) {
        Apart(w, a, b, id);
      } else if c == b {
        CheckedIsApart(w, b, a, id);
      } else if id in w.cmds[b].candidates {
        CheckedIsApart(w, a, b, id);
      }
    }
  }

  lemma HandStaysExclusive(w: World, pass: map<nat, Cmd>)
    requires Enabled(w, Hand(pass)) && Exclusive(w)
    ensures Exclusive(Next(w, Hand(pass)))
  {
    var after := Next(w, Hand(pass));
    forall a, b | a in after.cmds && b in after.cmds && a != b && MustNotShare(after.cmds[a], after.cmds[b])
      ensures !Share(after.cmds[a], after.cmds[b])
    {
      if a in pass {
        assert b in pass;
      }
    }
  }

  lemma StaysExclusive(w: World, s: Step)
    requires Enabled(w, s) && QueueExact(w) && Exclusive(w)
    ensures Exclusive(Next(w, s))
  {
    if s.Hand? {
      HandStaysExclusive(w, s.pass);
    } else if MovesOne(s) {
      StepMovesOne(w, s);
      MovedStaysExclusive(w, Next(w, s), s.c);
    }
  }

  lemma MovedStaysExclusive(w: World, v: World, c: nat)
    requires QueueExact(w) && Exclusive(w) && OneMoved(w, v, c)
    ensures Exclusive(v)
  {
    forall a, b | a in v.cmds && b in v.cmds && a != b && MustNotShare(v.cmds[a], v.cmds[b])
      ensures !Share(v.cmds[a], v.cmds[b])
    {
      MovedStaysApart(w, v, c, a, b);
    }
  }

  lemma DeletesKeepWaiting(w: World, s: Step)
    requires Enabled(w, s) && DeletesWait(w)
    ensures DeletesWait(Next(w, s))
  {
    var after := Next(w, s);
    if s.Reconcile? {
      var cmd := w.cmds[s.c];
      forall c, i | c in after.cmds && 0 <= i < |after.cmds[c].flags| && after.cmds[c].flags[i]
        ensures (c, i) in after.observed
      {
        if c == s.c && !cmd.flags[i] {
          assert s.looks[i] == Ready;
        }
      }
    }
  }

  lemma UnmarkKeepsMark(w: World, c: nat, d: nat, id: string)
    requires Enabled(w, Unmark(c)) && Exclusive(w) && MarksHold(w)
    requires d in w.cmds && KeepsMarks(Next(w, Unmark(c)).cmds[d]) && id in w.cmds[d].candidates && (d, id) !in w.lost
    ensures id in w.tracked && id in Next(w, Unmark(c)).marked
  {
    if d != c {
      Apart(w, d, c, id);
    }
  }

  lemma UnmarkKeepsMarks(w: World, c: nat)
    requires Enabled(w, Unmark(c)) && Exclusive(w) && MarksHold(w)
    ensures MarksHold(Next(w, Unmark(c)))
  {
    var after := Next(w, Unmark(c));
    forall d, id | d in after.cmds && KeepsMarks(after.cmds[d]) && id in after.cmds[d].candidates && (d, id) !in after.lost
      ensures id in after.tracked && id in after.marked
    {
      UnmarkKeepsMark(w, c, d, id);
    }
  }

  lemma MarksStay(w: World, s: Step)
    requires Enabled(w, s) && Exclusive(w) && MarksHold(w)
    ensures MarksHold(Next(w, s))
  {
    if s.Unmark? {
      UnmarkKeepsMarks(w, s.c);
    }
  }

  /** A look that calls the command a success has had every candidate deleted. */
  lemma SuccessDeletes(w: World, look: Step)
    requires Enabled(w, look) && look.Reconcile? && Next(w, look).cmds[look.c].succeeded
    ensures Succeeds(Next(w, look), look.c)
  {
    var cmd, after := w.cmds[look.c], Next(w, look);
    JudgeMeaning(cmd.flags, look.looks, look.deletes, look.timedOut);
    UpIsFoundUp(cmd.flags, look.looks);
    LostOneStops(cmd.flags, look.looks);
    StopsAtMeaning(cmd.flags, look.looks);
    forall id | id in cmd.candidates
      ensures (look.c, id) in after.deleted
    {
      var i :| 0 <= i < |cmd.candidates| && cmd.candidates[i] == id;
      assert look.deletes[i] == Deleted;
    }
  }

  lemma SuccessStays(w: World, s: Step, c: nat)
    requires Enabled(w, s) && Succeeds(w, c)
    ensures Succeeds(Next(w, s), c)
  {
    var after := Next(w, s);
    match s
    case Unmark(d) => assert after.cmds[c].candidates == w.cmds[c].candidates && after.cmds[c].flags == w.cmds[c].flags;
    case Remove(d) => assert after.cmds[c].candidates == w.cmds[c].candidates && after.cmds[c].flags == w.cmds[c].flags;
    case _ => assert after.cmds[c] == w.cmds[c];
  }

  /** No other step turns a command into a success. */
  lemma SucceededBefore(w: World, s: Step, c: nat)
    requires Enabled(w, s) && c in Next(w, s).cmds && Next(w, s).cmds[c].succeeded && !(s.Reconcile? && s.c == c)
    ensures c in w.cmds && w.cmds[c].succeeded
  {
    match s
    case Hand(pass) =>
    case _ =>
  }

  lemma SuccessesStayDeleted(w: World, s: Step)
    requires Enabled(w, s) && SuccessesDeleted(w)
    ensures SuccessesDeleted(Next(w, s))
  {
    var after := Next(w, s);
    forall c | c in after.cmds && after.cmds[c].succeeded
      ensures Succeeds(after, c)
    {
      if s.Reconcile? && s.c == c {
        SuccessDeletes(w, s);
      } else {
        SucceededBefore(w, s, c);
        SuccessStays(w, s, c);
      }
    }
  }

  /** Once a command is removed no entry of the queue leads to it, and no other entry is touched. */
  lemma RemoveClears(w: World, c: nat)
    requires Enabled(w, Remove(c)) && QueueExact(w) && Exclusive(w)
    ensures forall id :: id in Next(w, Remove(c)).queue ==> Next(w, Remove(c)).queue[id] != c
    ensures forall id :: id in w.queue && w.queue[id] != c ==> id in Next(w, Remove(c)).queue && Next(w, Remove(c)).queue[id] == w.queue[id]
  {
    var after := Next(w, Remove(c));
    forall id | id in w.queue && w.queue[id] != c
      ensures id in after.queue
    {
      Apart(w, w.queue[id], c, id);
    }
  }

  ghost predicate Invariant(w: World) {
    QueueExact(w) && Exclusive(w) && DeletesWait(w) && MarksHold(w) && SuccessesDeleted(w)
  }

  lemma StepKeepsInvariant(w: World, s: Step)
    requires Invariant(w) && Enabled(w, s)
    ensures Invariant(Next(w, s))
  {
    QueueStaysExact(w, s);
    StaysExclusive(w, s);
    DeletesKeepWaiting(w, s);
    MarksStay(w, s);
    SuccessesStayDeleted(w, s);
  }

  ghost predicate Run(w: World, steps: seq<Step>)
    decreases |steps|
  {
    steps == [] || (Enabled(w, steps[0]) && Run(Next(w, steps[0]), steps[1..]))
  }

  ghost function After(w: World, steps: seq<Step>): World
    requires Run(w, steps)
    decreases |steps|
  {
    if steps == [] then w else After(Next(w, steps[0]), steps[1..])
  }

  lemma {:induction false} RunKeepsInvariant(w: World, steps: seq<Step>)
    requires Invariant(w) && Run(w, steps)
    ensures Invariant(After(w, steps))
    decreases |steps|
  {
    if steps != [] {
      StepKeepsInvariant(w, steps[0]);
      RunKeepsInvariant(Next(w, steps[0]), steps[1..]);
    }
  }

  const START := World(map[], map[], {}, {}, {}, {}, {}, {})

  /**
   In every run: a delete is requested only after all replacements of its command were observed initialized, queued
   commands have disjoint candidates, a queued candidate that stayed tracked is marked for deletion, and a command that
   ended as a success has all its replacements up and all its candidates deleted.
   */
  lemma EveryRunIsSafe(steps: seq<Step>, c: nat, id: string)
    requires Run(START, steps)
    ensures
      var w := After(START, steps);
      && ((c, id) in w.requested ==> c in w.cmds && forall i :: 0 <= i < |w.cmds[c].flags| ==> (c, i) in w.observed)
      && (At(w, c, Queued) && id in w.cmds[c].candidates ==>
            && (forall d :: d != c && At(w, d, Queued) ==> id !in w.cmds[d].candidates)
            && ((c, id) !in w.lost ==> id in w.tracked && id in w.marked))
      && (c in w.cmds && w.cmds[c].succeeded ==> AllUp(w.cmds[c].flags) && (id in w.cmds[c].candidates ==> (c, id) in w.deleted))
  {
    RunKeepsInvariant(START, steps);
    var w := After(START, steps);
    if At(w, c, Queued) && id in w.cmds[c].candidates {
      forall d | d != c && At(w, d, Queued)
        ensures id !in w.cmds[d].candidates
      {
        Apart(w, c, d, id);
      }
    }
  }
}
