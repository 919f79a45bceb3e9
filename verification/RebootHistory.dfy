/**
 Counting reboots in two slots. Under the repair protocol the two-slot history of a claim agrees with the full log of its
 committed reboots for every later cutoff, so a third reboot within the window is never committed.
 */
module RebootHistories {
  import opened Common

  const WINDOW := 24 * 60 * 60
  const REBOOTS_BEFORE_REPLACEMENT := 2

  /** A fixed array of commit times, of which the first `count` are in use. */
  datatype Entry = Entry(slots: seq<int>, count: nat) {
    predicate Valid() {
      |slots| == REBOOTS_BEFORE_REPLACEMENT && count <= |slots|
    }

    function Times(): seq<int>
      requires Valid()
    {
      slots[..count]
    }
  }

  const NO_REBOOTS := Entry([0, 0], 0)

  /** A cached entry and when the cache stops returning it. */
  datatype Cached = Cached(entry: Entry, expires: int)

  type Cache = map<string, Cached>

  /** The times after a cutoff, in order. */
  function Keep(times: seq<int>, cutoff: int): seq<int> {
    if times == [] then [] else
    var last := times[|times| - 1];
    Keep(times[..|times| - 1], cutoff) + (if last > cutoff then [last] else [])
  }

  ghost predicate ValidCache(cache: Cache) {
    forall uid :: uid in cache ==>
      && cache[uid].entry.Valid()
      && forall t :: t in cache[uid].entry.Times() ==> t + WINDOW <= cache[uid].expires
  }

  function StoredTimes(cache: Cache, uid: string): seq<int>
    requires uid in cache ==> cache[uid].entry.Valid()
  {
    if uid in cache then cache[uid].entry.Times() else []
  }

  /** What recentReboots sees: nothing once the cache has expired the entry. */
  function SeenTimes(cache: Cache, uid: string, now: int): seq<int>
    requires uid in cache ==> cache[uid].entry.Valid()
  {
    if uid !in cache || now > cache[uid].expires then [] else Keep(cache[uid].entry.Times(), now - WINDOW)
  }

  /** A full history drops the record. */
  function Record(cache: Cache, uid: string, now: int): Cache
    requires uid in cache ==> cache[uid].entry.Valid()
  {
    var seen := SeenTimes(cache, uid, now);
    if |seen| >= REBOOTS_BEFORE_REPLACEMENT then cache
    else cache[uid := Cached(Pack(seen + [now]), now + WINDOW)]
  }

  function Pack(times: seq<int>): Entry
    requires |times| <= REBOOTS_BEFORE_REPLACEMENT
  {
    Entry(times + seq(REBOOTS_BEFORE_REPLACEMENT - |times|, _ => 0), |times|)
  }

  /* ----- keeping ----- */

  lemma {:induction false} KeepAppend(a: seq<int>, b: seq<int>, cutoff: int)
    ensures Keep(a + b, cutoff) == Keep(a, cutoff) + Keep(b, cutoff)
    decreases |b|
  {
    if b == [] {
      assert a + b == a;
    } else {
      assert (a + b)[..|a + b| - 1] == a + b[..|b| - 1];
      KeepAppend(a, b[..|b| - 1], cutoff);
    }
  }

  lemma {:induction false} KeepKeep(times: seq<int>, early: int, late: int)
    requires early <= late
    ensures Keep(Keep(times, early), late) == Keep(times, late)
  {
    if times != [] {
      var init, last := times[..|times| - 1], times[|times| - 1];
      KeepKeep(init, early, late);
      if last > early {
        KeepAppend(Keep(init, early), [last], late);
        assert [last][..0] == [];
      } else {
        assert Keep(init, early) + [] == Keep(init, early);
      }
    }
  }

  lemma {:induction false} KeepMembers(times: seq<int>, cutoff: int)
    ensures forall t :: t in Keep(times, cutoff) <==> t in times && t > cutoff
    ensures |Keep(times, cutoff)| <= |times|
  {
    if times != [] {
      var init, last := times[..|times| - 1], times[|times| - 1];
      KeepMembers(init, cutoff);
      assert forall t :: t in times <==> t in init || t == last;
    }
  }

  lemma {:induction false} NothingKept(times: seq<int>, cutoff: int)
    requires forall i :: 0 <= i < |times| ==> times[i] <= cutoff
    ensures Keep(times, cutoff) == []
  {
    if times != [] {
      NothingKept(times[..|times| - 1], cutoff);
    }
  }

  lemma {:induction false} KeepShrinks(times: seq<int>, early: int, late: int)
    requires early <= late
    ensures |Keep(times, late)| <= |Keep(times, early)|
  {
    KeepKeep(times, early, late);
    KeepMembers(Keep(times, early), late);
  }

  /** An expired entry holds nothing recent, so expiry cannot be observed. */
  lemma ExpiryIsInvisible(cache: Cache, uid: string, now: int)
    requires ValidCache(cache)
    ensures SeenTimes(cache, uid, now) == Keep(StoredTimes(cache, uid), now - WINDOW)
  {
    if uid in cache && now > cache[uid].expires {
      var times := cache[uid].entry.Times();
      assert forall i :: 0 <= i < |times| ==> times[i] in times;
      NothingKept(times, now - WINDOW);
    }
  }

  /* ----- the slots and the log ----- */

  /** From `now` on, no cutoff can tell the stored times from the full log. */
  ghost predicate Tracks(stored: seq<int>, log: seq<int>, now: int) {
    forall cutoff :: cutoff >= now - WINDOW ==> Keep(stored, cutoff) == Keep(log, cutoff)
  }

  /** The clock does not run behind what was recorded. */
  ghost predicate NotAhead(times: seq<int>, now: int) {
    forall t :: t in times ==> t <= now
  }

  lemma RecordValid(cache: Cache, uid: string, now: int)
    requires ValidCache(cache) && NotAhead(StoredTimes(cache, uid), now)
    ensures ValidCache(Record(cache, uid, now))
    ensures forall other :: other != uid ==> StoredTimes(Record(cache, uid, now), other) == StoredTimes(cache, other)
    ensures NotAhead(StoredTimes(Record(cache, uid, now), uid), now)
    ensures
      var seen := Keep(StoredTimes(cache, uid), now - WINDOW);
      StoredTimes(Record(cache, uid, now), uid) == if |seen| < REBOOTS_BEFORE_REPLACEMENT then seen + [now] else StoredTimes(cache, uid)
  {
    ExpiryIsInvisible(cache, uid, now);
    KeepMembers(StoredTimes(cache, uid), now - WINDOW);
    var seen := SeenTimes(cache, uid, now);
    if |seen| < REBOOTS_BEFORE_REPLACEMENT {
      assert Pack(seen + [now]).Times() == seen + [now];
    }
  }

  /** Recording keeps slots and log in agreement if and only if fewer than two reboots are recent. */
  lemma RecordTracksIff(cache: Cache, uid: string, log: seq<int>, now: int)
    requires ValidCache(cache) && NotAhead(StoredTimes(cache, uid), now) && Tracks(StoredTimes(cache, uid), log, now)
    ensures Tracks(StoredTimes(Record(cache, uid, now), uid), log + [now], now)
       <==> |Keep(log, now - WINDOW)| < REBOOTS_BEFORE_REPLACEMENT
  {
    var stored := StoredTimes(cache, uid);
    var after := StoredTimes(Record(cache, uid, now), uid);
    RecordValid(cache, uid, now);
    assert Keep(stored, now - WINDOW) == Keep(log, now - WINDOW);
    KeepAppend(log, [now], now - WINDOW);
    if |Keep(log, now - WINDOW)| < REBOOTS_BEFORE_REPLACEMENT {
      forall cutoff | cutoff >= now - WINDOW
        ensures Keep(after, cutoff) == Keep(log + [now], cutoff)
      {
        KeepAppend(Keep(stored, now - WINDOW), [now], cutoff);
        KeepAppend(log, [now], cutoff);
        KeepKeep(stored, now - WINDOW, cutoff);
        assert Keep(stored, cutoff) == Keep(log, cutoff);
      }
    } else {
      assert [now][..0] == [];
      assert Keep(log + [now], now - WINDOW) == Keep(log, now - WINDOW) + [now];
    }
  }

  /* ----- the repair protocol ----- */

  datatype Action = NoAction | Reboot | Replace

  /** `cleared` are the claims whose reboot Resolve let through in this pass; `log` is every reboot ever committed. */
  datatype World = World(cache: Cache, now: int, cleared: set<string>, log: map<string, seq<int>>) {
    function LogOf(uid: string): seq<int> {
      Lookup(log, uid, [])
    }
  }

  datatype Step = Tick(seconds: nat) | BeginPass | ResolveStep(uid: string, action: Action) | Commit(uid: string)

  /** Resolve turns a reboot into a replacement once the claim has used up its attempts. */
  function Resolved(cache: Cache, uid: string, now: int, action: Action): Action
    requires uid in cache ==> cache[uid].entry.Valid()
  {
    if action == Reboot && |SeenTimes(cache, uid, now)| >= REBOOTS_BEFORE_REPLACEMENT then Replace else action
  }

  /** A reboot is committed only for a claim that this pass resolved to reboot. */
  predicate Enabled(w: World, s: Step) {
    s.Commit? ==> s.uid in w.cleared
  }

  function Next(w: World, s: Step): World
    requires (s.ResolveStep? || s.Commit?) && s.uid in w.cache ==> w.cache[s.uid].entry.Valid()
  {
    match s
    case Tick(seconds) => w.(now := w.now + seconds)
    case BeginPass => w.(cleared := {})
    case ResolveStep(uid, action) =>
      w.(cleared := if Resolved(w.cache, uid, w.now, action) == Reboot then w.cleared + {uid} else w.cleared - {uid})
    case Commit(uid) =>
      World(Record(w.cache, uid, w.now), w.now, {}, w.log[uid := w.LogOf(uid) + [w.now]])
  }

  ghost predicate Ascending(log: seq<int>) {
    forall i, j :: 0 <= i < j < |log| ==> log[i] <= log[j]
  }

  /** Any three commits are spread over at least the window. */
  ghost predicate Spaced(log: seq<int>) {
    forall i, k :: 0 <= i && i + 2 <= k < |log| ==> log[i] + WINDOW <= log[k]
  }

  ghost predicate AgreesOn(stored: seq<int>, log: seq<int>, now: int, isCleared: bool) {
    && Tracks(stored, log, now)
    && NotAhead(stored, now) && NotAhead(log, now)
    && Ascending(log) && Spaced(log)
    && (isCleared ==> |Keep(log, now - WINDOW)| < REBOOTS_BEFORE_REPLACEMENT)
  }

  ghost predicate Agrees(w: World, uid: string)
    requires ValidCache(w.cache)
  {
    AgreesOn(StoredTimes(w.cache, uid), w.LogOf(uid), w.now, uid in w.cleared)
  }

  ghost predicate Invariant(w: World) {
    ValidCache(w.cache) && forall uid :: Agrees(w, uid)
  }

  /** The two slots answer "two or more commits within the window" as the full log would. */
  lemma ResolveAgreesWithLog(w: World, uid: string)
    requires ValidCache(w.cache) && Agrees(w, uid)
    ensures |SeenTimes(w.cache, uid, w.now)| == |Keep(w.LogOf(uid), w.now - WINDOW)|
    ensures Resolved(w.cache, uid, w.now, Reboot) == Replace <==> |Keep(w.LogOf(uid), w.now - WINDOW)| >= 2
  {
    ExpiryIsInvisible(w.cache, uid, w.now);
    assert Keep(StoredTimes(w.cache, uid), w.now - WINDOW) == Keep(w.LogOf(uid), w.now - WINDOW);
  }

  /** If the last but one commit is recent, there are two recent ones. */
  lemma LastTwoAreKept(log: seq<int>, cutoff: int)
    requires Ascending(log) && |log| >= 2 && log[|log| - 2] > cutoff
    ensures |Keep(log, cutoff)| >= 2
  {
    var n := |log|;
    var init := log[..n - 1];
    assert init[..n - 2] == log[..n - 2] && init[n - 2] == log[n - 2];
    assert Keep(log, cutoff) == Keep(init, cutoff) + [log[n - 1]];
    assert Keep(init, cutoff) == Keep(log[..n - 2], cutoff) + [log[n - 2]];
  }

  lemma SpacedGrows(log: seq<int>, now: int)
    requires Ascending(log) && Spaced(log) && NotAhead(log, now)
    requires |Keep(log, now - WINDOW)| < 2
    ensures Ascending(log + [now]) && Spaced(log + [now]) && NotAhead(log + [now], now)
  {
    var n, more := |log|, log + [now];
    if n >= 2 && log[n - 2] > now - WINDOW {
      LastTwoAreKept(log, now - WINDOW);
    }
    forall i, k | 0 <= i && i + 2 <= k < n + 1
      ensures more[i] + WINDOW <= more[k]
    {
      if k == n {
        assert log[i] <= log[n - 2];
      }
    }
    forall i, j | 0 <= i < j < n + 1
      ensures more[i] <= more[j]
    {
      assert log[i] in log;
    }
  }

  lemma TickAgrees(w: World, seconds: nat, uid: string)
    requires ValidCache(w.cache) && Agrees(w, uid)
    ensures Agrees(w.(now := w.now + seconds), uid)
  {
    KeepShrinks(w.LogOf(uid), w.now - WINDOW, w.now + seconds - WINDOW);
  }

  lemma CommitKeepsAgreement(cache: Cache, uid: string, log: seq<int>, now: int)
    requires ValidCache(cache) && AgreesOn(StoredTimes(cache, uid), log, now, true)
    ensures ValidCache(Record(cache, uid, now))
    ensures AgreesOn(StoredTimes(Record(cache, uid, now), uid), log + [now], now, false)
  {
    RecordValid(cache, uid, now);
    RecordTracksIff(cache, uid, log, now);
    SpacedGrows(log, now);
  }

  lemma CommitAgrees(w: World, uid: string)
    requires ValidCache(w.cache) && Agrees(w, uid) && uid in w.cleared
    ensures ValidCache(Record(w.cache, uid, w.now)) && Agrees(Next(w, Commit(uid)), uid)
  {
    CommitKeepsAgreement(w.cache, uid, w.LogOf(uid), w.now);
  }

  lemma OtherCommitAgrees(w: World, other: string, uid: string)
    requires ValidCache(w.cache) && Agrees(w, other) && Agrees(w, uid) && uid != other
    ensures ValidCache(Record(w.cache, other, w.now)) && Agrees(Next(w, Commit(other)), uid)
  {
    RecordValid(w.cache, other, w.now);
  }

  lemma StepAgrees(w: World, s: Step, uid: string)
    requires Invariant(w) && Enabled(w, s)
    ensures ValidCache(Next(w, s).cache) && Agrees(Next(w, s), uid)
  {
    assert Agrees(w, uid);
    match s
    case Tick(seconds) => TickAgrees(w, seconds, uid);
    case BeginPass =>
    case ResolveStep(other, action) => ResolveAgreesWithLog(w, uid);
    case Commit(other) =>
      if uid == other {
        CommitAgrees(w, uid);
      } else {
        assert Agrees(w, other);
        OtherCommitAgrees(w, other, uid);
      }
  }

  ghost predicate Run(w: World, steps: seq<Step>)
    requires ValidCache(w.cache)
    decreases |steps|
  {
    steps == [] || (Enabled(w, steps[0]) && ValidCache(Next(w, steps[0]).cache) && Run(Next(w, steps[0]), steps[1..]))
  }

  ghost function After(w: World, steps: seq<Step>): World
    requires ValidCache(w.cache) && Run(w, steps)
    decreases |steps|
  {
    if steps == [] then w else After(Next(w, steps[0]), steps[1..])
  }

  lemma {:induction false} RunKeepsInvariant(w: World, steps: seq<Step>)
    requires Invariant(w) && Run(w, steps)
    ensures Invariant(After(w, steps))
    decreases |steps|
  {
    if steps != [] {
      forall uid
        ensures ValidCache(Next(w, steps[0]).cache) && Agrees(Next(w, steps[0]), uid)
      {
        StepAgrees(w, steps[0], uid);
      }
      RunKeepsInvariant(Next(w, steps[0]), steps[1..]);
    }
  }

  /** Over every run, any three committed reboots of a claim span at least the window. */
  lemma NeverThreeRebootsInWindow(now: int, steps: seq<Step>, uid: string, i: nat, k: nat)
    requires Run(World(map[], now, {}, map[]), steps)
    ensures
      var log := After(World(map[], now, {}, map[]), steps).LogOf(uid);
      i + 2 <= k < |log| ==> log[i] + WINDOW <= log[k]
  {
    var start := World(map[], now, {}, map[]);
    assert Invariant(start);
    RunKeepsInvariant(start, steps);
    assert Agrees(After(start, steps), uid);
  }

  /* ----- the object ----- */

  /** The compaction loop of recentReboots. */
  method RecentReboots(entry: Entry, now: int) returns (recent: Entry)
    requires entry.Valid()
    ensures recent.Valid() && recent.Times() == Keep(entry.Times(), now - WINDOW)
  {
    recent := NO_REBOOTS;
    var i := 0;
    while i < entry.count
      invariant 0 <= i <= entry.count && recent.Valid() && recent.count <= i
      invariant recent.Times() == Keep(entry.slots[..i], now - WINDOW)
    {
      assert entry.slots[..i + 1][..i] == entry.slots[..i];
      if entry.slots[i] > now - WINDOW {
        recent := Entry(recent.slots[recent.count := entry.slots[i]], recent.count + 1);
      }
      i := i + 1;
    }
  }

  class RebootHistory {
    var cache: Cache

    constructor ()
      ensures cache == map[]
    {
      cache := map[];
    }

    method Recent(uid: string, now: int) returns (recent: Entry)
      requires ValidCache(cache)
      ensures recent.Valid() && recent.Times() == SeenTimes(cache, uid, now)
    {
      if uid !in cache || now > cache[uid].expires {
        return NO_REBOOTS;
      }
      recent := RecentReboots(cache[uid].entry, now);
    }

    method RecordCommittedReboot(uid: string, now: int)
      requires ValidCache(cache) && NotAhead(StoredTimes(cache, uid), now)
      modifies this
      ensures ValidCache(cache)
      ensures StoredTimes(cache, uid) == StoredTimes(Record(old(cache), uid, now), uid)
      ensures forall other :: other != uid ==> StoredTimes(cache, other) == StoredTimes(old(cache), other)
    {
      RecordValid(cache, uid, now);
      var entry := Recent(uid, now);
      if entry.count >= REBOOTS_BEFORE_REPLACEMENT {
        return;
      }
      KeepMembers(StoredTimes(cache, uid), now - WINDOW);
      var added := Entry(entry.slots[entry.count := now], entry.count + 1);
      assert added.Times() == entry.Times() + [now];
      cache := cache[uid := Cached(added, now + WINDOW)];
    }

    method Resolve(uid: string, action: Action, now: int) returns (repair: bool, resolved: Action, escalated: bool)
      requires ValidCache(cache)
      ensures resolved == Resolved(cache, uid, now, action)
      ensures repair <==> action != NoAction
      ensures escalated <==> action == Reboot && resolved == Replace
    {
      if action == NoAction {
        return false, action, false;
      }
      var entry := Recent(uid, now);
      if action == Reboot && entry.count >= REBOOTS_BEFORE_REPLACEMENT {
        return true, Replace, true;
      }
      return true, action, false;
    }
  }
}
