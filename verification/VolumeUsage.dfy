/**
 How many volumes of each storage driver are mounted on a node. Pods share volumes, so the usage is a set per driver, and
 it is rebuilt from the pods that remain whenever one is removed.
 */
module VolumeUsages {
  import opened Common
  import opened SetMaps

  /** Volume names by driver. */
  type Volumes = map<string, set<string>>

  datatype Usage = Usage(volumes: Volumes, pods: map<string, Volumes>, limits: map<string, int>, published: set<string>)

  /** Everything some pod mounts. */
  function AllOf(pods: map<string, Volumes>): Volumes {
    map d | d in Drivers(pods) :: Mounted(pods, d)
  }

  function Drivers(pods: map<string, Volumes>): set<string> {
    set p, d | p in pods && d in pods[p] :: d
  }

  function Mounted(pods: map<string, Volumes>, d: string): set<string> {
    set p, v | p in pods && d in pods[p] && v in pods[p][d] :: v
  }

  /** No driver with a limit holds more volumes than it. */
  predicate Within(volumes: Volumes, limits: map<string, int>) {
    forall d :: d in volumes && d in limits ==> |volumes[d]| <= limits[d]
  }

  /** Nothing mounted is forgotten. */
  predicate Covers(u: Usage) {
    Under(AllOf(u.pods), u.volumes)
  }

  /** Nothing is counted that is not mounted, either. */
  predicate Tight(u: Usage) {
    u.volumes == AllOf(u.pods)
  }

  datatype Step =
    | AddPod(pod: string, volumes: Volumes)
    | DeletePod(pod: string)
    | AddLimit(driver: string, value: int)
    | AddUnbounded(driver: string)
    | AddFallback(driver: string, value: int)

  function Apply(u: Usage, step: Step): Usage {
    match step
    case AddPod(pod, volumes) => u.(pods := u.pods[pod := volumes], volumes := Merged(u.volumes, volumes))
    case DeletePod(pod) => u.(pods := u.pods - {pod}, volumes := AllOf(u.pods - {pod}))
    case AddLimit(d, value) => u.(published := u.published + {d}, limits := u.limits[d := value])
    case AddUnbounded(d) => u.(published := u.published + {d}, limits := u.limits - {d})
    case AddFallback(d, value) => if d in u.published then u else u.(limits := u.limits[d := value])
  }

  function Run(u: Usage, steps: seq<Step>): Usage {
    if steps == [] then u else Apply(Run(u, steps[..|steps| - 1]), steps[|steps| - 1])
  }

  const Fresh := Usage(map[], map[], map[], {})

  /* ----- what is counted ----- */

  lemma AllOfHas(pods: map<string, Volumes>, p: string)
    requires p in pods
    ensures Under(pods[p], AllOf(pods))
  {
    forall d | d in pods[p]
      ensures d in AllOf(pods) && pods[p][d] <= AllOf(pods)[d]
    {
      assert d in Drivers(pods);
    }
  }

  lemma AllOfLeast(pods: map<string, Volumes>, bound: Volumes)
    requires forall p :: p in pods ==> Under(pods[p], bound)
    ensures Under(AllOf(pods), bound)
  {
    forall d | d in AllOf(pods)
      ensures d in bound && AllOf(pods)[d] <= bound[d]
    {
      var p :| p in pods && d in pods[p];
      assert Under(pods[p], bound);
    }
  }

  lemma UnderTrans(a: Volumes, b: Volumes, c: Volumes)
    requires Under(a, b) && Under(b, c)
    ensures Under(a, c)
  {
  }

  /** Setting a pod's volumes replaces its share of the whole. */
  lemma AllOfPut(pods: map<string, Volumes>, p: string, volumes: Volumes)
    ensures AllOf(pods[p := volumes]) == Merged(AllOf(pods - {p}), volumes)
  {
    var put, rest := pods[p := volumes], AllOf(pods - {p});
    var both := Merged(rest, volumes);
    UnderMerged(rest, volumes);
    forall q | q in put
      ensures Under(put[q], both)
    {
      if q != p {
        AllOfHas(pods - {p}, q);
        UnderTrans(put[q], rest, both);
      }
    }
    AllOfLeast(put, both);
    forall q | q in pods - {p}
      ensures Under((pods - {p})[q], AllOf(put))
    {
      AllOfHas(put, q);
    }
    AllOfLeast(pods - {p}, AllOf(put));
    AllOfHas(put, p);
    MergedLeast(rest, volumes, AllOf(put));
    UnderBoth(AllOf(put), both);
  }

  /** Fewer pods mount no more. */
  lemma AllOfShrinks(pods: map<string, Volumes>, p: string)
    ensures Under(AllOf(pods - {p}), AllOf(pods))
  {
    forall q | q in pods - {p}
      ensures Under((pods - {p})[q], AllOf(pods))
    {
      AllOfHas(pods, q);
    }
    AllOfLeast(pods - {p}, AllOf(pods));
  }

  lemma MergedMonotone(a: Volumes, b: Volumes, c: Volumes)
    requires Under(a, b)
    ensures Under(Merged(a, c), Merged(b, c))
  {
    UnderMerged(b, c);
    UnderTrans(a, b, Merged(b, c));
    MergedLeast(a, c, Merged(b, c));
  }

  lemma StepCovers(u: Usage, step: Step)
    requires Covers(u)
    ensures Covers(Apply(u, step))
  {
    if step.AddPod? {
      AllOfPut(u.pods, step.pod, step.volumes);
      AllOfShrinks(u.pods, step.pod);
      UnderTrans(AllOf(u.pods - {step.pod}), AllOf(u.pods), u.volumes);
      MergedMonotone(AllOf(u.pods - {step.pod}), u.volumes, step.volumes);
    }
  }

  /** Whatever happens to a node, no mounted volume is missing from its usage. */
  lemma {:induction false} RunCovers(steps: seq<Step>)
    ensures Covers(Run(Fresh, steps))
  {
    if steps == [] {
    } else {
      RunCovers(steps[..|steps| - 1]);
      StepCovers(Run(Fresh, steps[..|steps| - 1]), steps[|steps| - 1]);
    }
  }

  /** What the pod mounted before is mounted by it still, or by another pod. */
  predicate Superseded(u: Usage, pod: string, volumes: Volumes) {
    pod in u.pods ==> Under(u.pods[pod], Merged(AllOf(u.pods - {pod}), volumes))
  }

  /**
   A pod that is recorded again with fewer volumes leaves the old ones counted: the usage stays exact just when every volume
   it had is still mounted.
   */
  lemma AddKeepsTightIff(u: Usage, pod: string, volumes: Volumes)
    requires Tight(u)
    ensures Tight(Apply(u, AddPod(pod, volumes))) <==> Superseded(u, pod, volumes)
  {
    var rest := AllOf(u.pods - {pod});
    var exact, counted := Merged(rest, volumes), Merged(u.volumes, volumes);
    AllOfPut(u.pods, pod, volumes);
    AllOfShrinks(u.pods, pod);
    MergedMonotone(rest, u.volumes, volumes);
    UnderMerged(rest, volumes);
    UnderMerged(u.volumes, volumes);
    if pod in u.pods {
      AllOfPut(u.pods, pod, u.pods[pod]);
      assert u.pods[pod := u.pods[pod]] == u.pods;
      if Under(u.pods[pod], exact) {
        MergedLeast(rest, u.pods[pod], exact);
        MergedLeast(u.volumes, volumes, exact);
        UnderBoth(counted, exact);
      }
      AllOfHas(u.pods, pod);
      UnderTrans(u.pods[pod], u.volumes, counted);
    } else {
      assert u.pods - {pod} == u.pods;
    }
  }

  /** With a limit of one, the volume of a pod that no longer mounts it keeps another pod's volume out. */
  lemma StaleVolumeCounts(d: string, v: string, w: string)
    requires v != w
    ensures
      var u := Usage(map[d := {v}], map["pod" := map[d := {v}]], map[d := 1], {d});
      var after := Apply(u, AddPod("pod", map[]));
      && !Within(Merged(after.volumes, map[d := {w}]), after.limits)
      && Within(Merged(AllOf(after.pods), map[d := {w}]), after.limits)
  {
    var u := Usage(map[d := {v}], map["pod" := map[d := {v}]], map[d := 1], {d});
    var after := Apply(u, AddPod("pod", map[]));
    assert after.volumes == map[d := {v}];
    var union := Merged(after.volumes, map[d := {w}]);
    assert union[d] == {v, w};
    assert AllOf(after.pods) == map[];
  }

  /** Removing any pod, even one that was never there, makes the usage exact again. */
  lemma DeleteRestoresTight(u: Usage, pod: string, steps: seq<Step>)
    requires forall i :: 0 <= i < |steps| ==> !steps[i].AddPod?
    ensures Tight(Run(Apply(u, DeletePod(pod)), steps))
  {
    RunWithoutAddsTight(Apply(u, DeletePod(pod)), steps);
  }

  lemma {:induction false} RunWithoutAddsTight(u: Usage, steps: seq<Step>)
    requires Tight(u) && forall i :: 0 <= i < |steps| ==> !steps[i].AddPod?
    ensures Tight(Run(u, steps))
  {
    if steps == [] {
    } else {
      RunWithoutAddsTight(u, steps[..|steps| - 1]);
      assert !steps[|steps| - 1].AddPod?;
    }
  }

  /* ----- which pods and which mounts count, told from the steps alone ----- */

  predicate About(step: Step, pod: string) {
    (step.AddPod? || step.DeletePod?) && step.pod == pod
  }

  /** Step i recorded the pod, and nothing has happened to the pod since. */
  ghost predicate Records(steps: seq<Step>, i: nat, pod: string) {
    && i < |steps| && steps[i].AddPod? && steps[i].pod == pod
    && (forall k :: i < k < |steps| ==> !About(steps[k], pod))
  }

  lemma RecordsLast(steps: seq<Step>, i: nat, pod: string)
    requires steps != []
    ensures
      var n := |steps| - 1;
      Records(steps, i, pod) <==>
        if i == n then steps[n].AddPod? && steps[n].pod == pod else Records(steps[..n], i, pod) && !About(steps[n], pod)
  {
  }

  /** The pods on record are those of the steps that still hold, with the volumes they were recorded with. */
  lemma {:induction false} PodsMeaning(steps: seq<Step>, pod: string)
    ensures pod in Run(Fresh, steps).pods <==> exists i: nat :: Records(steps, i, pod)
    ensures forall i: nat :: Records(steps, i, pod) ==> pod in Run(Fresh, steps).pods && Run(Fresh, steps).pods[pod] == steps[i].volumes
  {
    if steps != [] {
      var n := |steps| - 1;
      PodsMeaning(steps[..n], pod);
      forall i: nat
        ensures Records(steps, i, pod) ==> pod in Run(Fresh, steps).pods && Run(Fresh, steps).pods[pod] == steps[i].volumes
      {
        RecordsLast(steps, i, pod);
      }
      if About(steps[n], pod) {
        assert steps[n].AddPod? ==> Records(steps, n, pod);
      } else if pod in Run(Fresh, steps[..n]).pods {
        var i: nat :| Records(steps[..n], i, pod);
        RecordsLast(steps, i, pod);
      }
    }
  }

  predicate Counts(volumes: Volumes, d: string, v: string) {
    d in volumes && v in volumes[d]
  }

  /** Some pod on record mounts the volume. */
  ghost predicate MountedBySome(pods: map<string, Volumes>, d: string, v: string) {
    exists p :: p in pods && Counts(pods[p], d, v)
  }

  lemma AllOfCounts(pods: map<string, Volumes>, d: string, v: string)
    ensures Counts(AllOf(pods), d, v) <==> MountedBySome(pods, d, v)
  {
    if MountedBySome(pods, d, v) {
      var p :| p in pods && Counts(pods[p], d, v);
      AllOfHas(pods, p);
    }
  }

  /** Removing a pod frees what no other pod on record mounts, and nothing else. */
  lemma DeleteFrees(u: Usage, pod: string, d: string, v: string)
    ensures
      var after := Apply(u, DeletePod(pod));
      && pod !in after.pods
      && (forall p :: p in u.pods && p != pod ==> p in after.pods && after.pods[p] == u.pods[p])
      && (Counts(after.volumes, d, v) <==> exists p :: p in u.pods && p != pod && Counts(u.pods[p], d, v))
  {
    var rest := Apply(u, DeletePod(pod)).pods;
    AllOfCounts(rest, d, v);
    if MountedBySome(rest, d, v) {
      var p :| p in rest && Counts(rest[p], d, v);
      assert p in u.pods && p != pod;
    }
    if p :| p in u.pods && p != pod && Counts(u.pods[p], d, v) {
      assert p in rest && Counts(rest[p], d, v);
    }
  }

  /** Step i mounts the volume, and no pod has been removed since step i's pod was recorded anew or removed itself. */
  ghost predicate StillCounts(steps: seq<Step>, i: nat, d: string, v: string) {
    && i < |steps| && steps[i].AddPod? && Counts(steps[i].volumes, d, v)
    && (forall k, j :: i < k <= j < |steps| && About(steps[k], steps[i].pod) ==> !steps[j].DeletePod?)
  }

  ghost predicate CountsStill(steps: seq<Step>, d: string, v: string) {
    exists i: nat :: StillCounts(steps, i, d, v)
  }

  /** Just after a removal, what counts is what is on record. */
  lemma StillCountsAtDelete(steps: seq<Step>, i: nat, d: string, v: string)
    requires steps != [] && steps[|steps| - 1].DeletePod?
    ensures StillCounts(steps, i, d, v) <==> i < |steps| && steps[i].AddPod? && Counts(steps[i].volumes, d, v) && Records(steps, i, steps[i].pod)
  {
    var n := |steps| - 1;
    if StillCounts(steps, i, d, v) {
      forall k | i < k < |steps|
        ensures !About(steps[k], steps[i].pod)
      {
        assert i < k <= n && steps[n].DeletePod?;
      }
    }
  }

  lemma StillCountsLast(steps: seq<Step>, i: nat, d: string, v: string)
    requires steps != [] && !steps[|steps| - 1].DeletePod?
    ensures
      var n := |steps| - 1;
      StillCounts(steps, i, d, v) <==>
        if i == n then steps[n].AddPod? && Counts(steps[n].volumes, d, v) else StillCounts(steps[..n], i, d, v)
  {
    var n := |steps| - 1;
    var init := steps[..n];
    if i < n && StillCounts(steps, i, d, v) {
      forall k, j | i < k <= j < n && About(init[k], init[i].pod)
        ensures !init[j].DeletePod?
      {
        assert About(steps[k], steps[i].pod) && init[j] == steps[j];
      }
    }
    if i < n && StillCounts(init, i, d, v) {
      forall k, j | i < k <= j < |steps| && About(steps[k], steps[i].pod)
        ensures !steps[j].DeletePod?
      {
        if j < n {
          assert About(init[k], init[i].pod) && init[j] == steps[j];
        }
      }
    }
  }

  /** Over every run: a volume counts if and only if a step mounted it that no removal has settled against since. */
  lemma {:induction false} CountedIff(steps: seq<Step>, d: string, v: string)
    ensures Counts(Run(Fresh, steps).volumes, d, v) <==> CountsStill(steps, d, v)
  {
    if steps != [] {
      var n := |steps| - 1;
      CountedIff(steps[..n], d, v);
      if steps[n].DeletePod? {
        CountedAtDelete(steps, d, v);
      } else {
        CountedLast(steps, d, v);
      }
    }
  }

  lemma CountedAtDelete(steps: seq<Step>, d: string, v: string)
    requires steps != [] && steps[|steps| - 1].DeletePod?
    ensures Counts(Run(Fresh, steps).volumes, d, v) <==> CountsStill(steps, d, v)
  {
    var pods := Run(Fresh, steps).pods;
    AllOfCounts(pods, d, v);
    if p :| p in pods && Counts(pods[p], d, v) {
      PodsMeaning(steps, p);
      var i: nat :| Records(steps, i, p);
      StillCountsAtDelete(steps, i, d, v);
    }
    if i: nat :| StillCounts(steps, i, d, v) {
      StillCountsAtDelete(steps, i, d, v);
      PodsMeaning(steps, steps[i].pod);
    }
  }

  lemma CountedLast(steps: seq<Step>, d: string, v: string)
    requires steps != [] && !steps[|steps| - 1].DeletePod?
    requires Counts(Run(Fresh, steps[..|steps| - 1]).volumes, d, v) <==> CountsStill(steps[..|steps| - 1], d, v)
    ensures Counts(Run(Fresh, steps).volumes, d, v) <==> CountsStill(steps, d, v)
  {
    var n := |steps| - 1;
    CountsStillLast(steps, d, v);
    if steps[n].AddPod? {
      MergedCounts(Run(Fresh, steps[..n]).volumes, steps[n].volumes, d, v);
    }
  }

  lemma MergedCounts(a: Volumes, b: Volumes, d: string, v: string)
    ensures Counts(Merged(a, b), d, v) <==> Counts(a, d, v) || Counts(b, d, v)
  {
  }

  lemma CountsStillLast(steps: seq<Step>, d: string, v: string)
    requires steps != [] && !steps[|steps| - 1].DeletePod?
    ensures
      var n := |steps| - 1;
      CountsStill(steps, d, v) <==> CountsStill(steps[..n], d, v) || (steps[n].AddPod? && Counts(steps[n].volumes, d, v))
  {
    var n := |steps| - 1;
    if i: nat :| StillCounts(steps, i, d, v) {
      StillCountsLast(steps, i, d, v);
    }
    if i: nat :| StillCounts(steps[..n], i, d, v) {
      StillCountsLast(steps, i, d, v);
    }
    StillCountsLast(steps, n, d, v);
  }

  /* ----- the limits ----- */

  lemma WithinUnder(a: Volumes, b: Volumes, limits: map<string, int>)
    requires Under(a, b) && Within(b, limits)
    ensures Within(a, limits)
  {
    forall d | d in a && d in limits
      ensures |a[d]| <= limits[d]
    {
      SubsetSize(a[d], b[d]);
    }
  }

  /** A step the callers take: pods are added only after the limit check passed, and a limit is set no lower than the use. */
  predicate Guarded(u: Usage, step: Step) {
    match step
    case AddPod(_, volumes) => Within(Merged(u.volumes, volumes), u.limits)
    case AddLimit(d, value) => d in u.volumes ==> |u.volumes[d]| <= value
    case AddFallback(d, value) => d in u.volumes && d !in u.published ==> |u.volumes[d]| <= value
    case _ => true
  }

  /** For every step other than a removal, the guard is also necessary. */
  lemma StepWithinIff(u: Usage, step: Step)
    requires Covers(u) && Within(u.volumes, u.limits)
    ensures Within(Apply(u, step).volumes, Apply(u, step).limits) <==> Guarded(u, step)
  {
    match step
    case AddPod(_, _) =>
    case DeletePod(pod) =>
      AllOfShrinks(u.pods, pod);
      UnderTrans(AllOf(u.pods - {pod}), AllOf(u.pods), u.volumes);
      WithinUnder(AllOf(u.pods - {pod}), u.volumes, u.limits);
    case AddLimit(d, value) =>
      var after := Apply(u, step);
      assert after.limits[d] == value && after.volumes == u.volumes;
    case AddUnbounded(_) =>
    case AddFallback(d, value) =>
      var after := Apply(u, step);
      assert d !in u.published ==> after.limits[d] == value && after.volumes == u.volumes;
  }

  ghost predicate GuardedRun(steps: seq<Step>) {
    forall i :: 0 <= i < |steps| ==> Guarded(Run(Fresh, steps[..i]), steps[i])
  }

  /** A node whose every step was guarded never holds more volumes of a driver than the driver's limit. */
  lemma {:induction false} RunStaysWithin(steps: seq<Step>)
    requires GuardedRun(steps)
    ensures Within(Run(Fresh, steps).volumes, Run(Fresh, steps).limits)
  {
    if steps == [] {
    } else {
      var init := steps[..|steps| - 1];
      forall i | 0 <= i < |init|
        ensures Guarded(Run(Fresh, init[..i]), init[i])
      {
        assert init[..i] == steps[..i];
      }
      RunStaysWithin(init);
      RunCovers(init);
      assert Guarded(Run(Fresh, init), steps[|steps| - 1]);
      StepWithinIff(Run(Fresh, init), steps[|steps| - 1]);
    }
  }

  /** The limit a sequence of steps leaves: the last published one if any was published, else the last fallback. */
  function LimitAfter(steps: seq<Step>, d: string): Option<int> {
    if steps == [] then None
    else
      var before, last := steps[..|steps| - 1], steps[|steps| - 1];
      match last
      case AddLimit(e, value) => if e == d then Some(value) else LimitAfter(before, d)
      case AddUnbounded(e) => if e == d then None else LimitAfter(before, d)
      case AddFallback(e, value) => if e == d && !Published(before, d) then Some(value) else LimitAfter(before, d)
      case _ => LimitAfter(before, d)
  }

  predicate Publishes(step: Step, d: string) {
    (step.AddLimit? || step.AddUnbounded?) && step.driver == d
  }

  predicate Published(steps: seq<Step>, d: string) {
    exists i :: 0 <= i < |steps| && Publishes(steps[i], d)
  }

  lemma PublishedLast(steps: seq<Step>, d: string)
    requires steps != []
    ensures Published(steps, d) <==> Published(steps[..|steps| - 1], d) || Publishes(steps[|steps| - 1], d)
  {
    var init := steps[..|steps| - 1];
    if Published(init, d) {
      var i :| 0 <= i < |init| && Publishes(init[i], d);
      assert Publishes(steps[i], d);
    }
  }

  lemma {:induction false} LimitsMeaning(steps: seq<Step>, d: string)
    ensures d in Run(Fresh, steps).published <==> Published(steps, d)
    ensures LimitAfter(steps, d) == if d in Run(Fresh, steps).limits then Some(Run(Fresh, steps).limits[d]) else None
  {
    if steps == [] {
    } else {
      LimitsMeaning(steps[..|steps| - 1], d);
      PublishedLast(steps, d);
    }
  }

  /** Once a driver's limit is published, fallbacks do not change it, in whatever order they come. */
  lemma {:induction false} PublishedLimitWins(steps: seq<Step>, more: seq<Step>, d: string)
    requires Published(steps, d) && forall i :: 0 <= i < |more| ==> !Publishes(more[i], d)
    ensures Published(steps + more, d) && LimitAfter(steps + more, d) == LimitAfter(steps, d)
  {
    if more == [] {
      assert steps + more == steps;
    } else {
      var init := more[..|more| - 1];
      PublishedLimitWins(steps, init, d);
      assert (steps + more)[..|steps + more| - 1] == steps + init;
      PublishedLast(steps + more, d);
      assert !Publishes(more[|more| - 1], d);
    }
  }

  /* ----- the object ----- */

  datatype Exceeded = Exceeded(driver: string, count: nat, limit: int)

  class VolumeUsage {
    var volumes: Volumes
    var podVolumes: map<string, Volumes>
    var limits: map<string, int>
    var publishedDrivers: set<string>

    function State(): Usage
      reads this
    {
      Usage(volumes, podVolumes, limits, publishedDrivers)
    }

    constructor ()
      ensures State() == Fresh
    {
      volumes, podVolumes, limits, publishedDrivers := map[], map[], map[], {};
    }

    /** Passes exactly when adding the volumes would keep every limit; otherwise names a driver over its limit. */
    method ExceedsLimits(vols: Volumes) returns (err: Option<Exceeded>)
      ensures err.None? <==> Within(Merged(volumes, vols), limits)
      ensures err.Some? ==>
        var e := err.value;
        && e.driver in Merged(volumes, vols) && e.driver in limits
        && e.count == |Merged(volumes, vols)[e.driver]| > e.limit == limits[e.driver]
    {
      var union := MergeSets(volumes, vols);
      var todo := union.Keys;
      while todo != {}
        invariant todo <= union.Keys
        invariant forall d :: d in union && d !in todo && d in limits ==> |union[d]| <= limits[d]
        decreases todo
      {
        var d :| d in todo;
        if d in limits && |union[d]| > limits[d] {
          return Some(Exceeded(d, |union[d]|, limits[d]));
        }
        todo := todo - {d};
      }
      return None;
    }

    method AddLimit(driver: string, value: int)
      modifies this`limits, this`publishedDrivers
      ensures State() == Apply(old(State()), Step.AddLimit(driver, value))
    {
      publishedDrivers := publishedDrivers + {driver};
      limits := limits[driver := value];
    }

    method AddUnbounded(driver: string)
      modifies this`limits, this`publishedDrivers
      ensures State() == Apply(old(State()), Step.AddUnbounded(driver))
    {
      publishedDrivers := publishedDrivers + {driver};
      limits := limits - {driver};
    }

    method AddFallbackLimit(driver: string, value: int)
      modifies this`limits
      ensures State() == Apply(old(State()), AddFallback(driver, value))
    {
      if driver !in publishedDrivers {
        limits := limits[driver := value];
      }
    }

    method Add(pod: string, vols: Volumes)
      modifies this`volumes, this`podVolumes
      ensures State() == Apply(old(State()), AddPod(pod, vols))
    {
      podVolumes := podVolumes[pod := vols];
      volumes := MergeSets(volumes, vols);
    }

    method DeletePod(pod: string)
      modifies this`volumes, this`podVolumes
      ensures State() == Apply(old(State()), Step.DeletePod(pod))
    {
      podVolumes := podVolumes - {pod};
      volumes := Rebuild(podVolumes);
    }
  }

  method Rebuild(pods: map<string, Volumes>) returns (volumes: Volumes)
    ensures volumes == AllOf(pods)
  {
    volumes := map[];
    var todo := pods.Keys;
    ghost var done: map<string, Volumes> := map[];
    while todo != {}
      invariant todo <= pods.Keys && done == pods - todo
      invariant volumes == AllOf(done)
      decreases todo
    {
      var p :| p in todo;
      AllOfPut(done, p, pods[p]);
      assert done - {p} == done;
      volumes := MergeSets(volumes, pods[p]);
      todo, done := todo - {p}, done[p := pods[p]];
    }
    assert done == pods;
  }
}
