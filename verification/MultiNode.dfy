/**
 The binary search for the largest prefix of candidates that can be consolidated together. Simulating and scoring a
 prefix is an arbitrary function of when it happens and how long the prefix is.
 */
module MultiNode {
  import opened Common

  /** Whether a prefix gave a command that is valid and approved, or how the attempt ended. */
  datatype Simulation = Approved | Unusable | DeadlineExceeded | Failed

  /** The outcome of the t-th simulation, when it tries the first n candidates. */
  type Simulator = (nat, nat) -> Simulation

  /** Number of binary digits. */
  function Bits(n: nat): nat {
    if n == 0 then 0 else 1 + Bits(n / 2)
  }

  function Pow2(n: nat): nat {
    if n == 0 then 1 else 2 * Pow2(n - 1)
  }

  /** Bits(n) is floor(log2(n)) + 1. */
  lemma {:induction false} BitsIsLog(n: nat)
    requires n >= 1
    ensures Bits(n) >= 1 && Pow2(Bits(n) - 1) <= n < Pow2(Bits(n))
  {
    if n > 1 {
      BitsIsLog(n / 2);
    } else {
      assert Bits(1) == 1 + Bits(0);
    }
  }

  lemma {:induction false} BitsMonotone(a: nat, b: nat)
    requires a <= b
    ensures Bits(a) <= Bits(b)
  {
    if a > 0 {
      BitsMonotone(a / 2, b / 2);
    }
  }

  /** The largest index that the search may end a prefix at. */
  function Ceiling(n: nat, parallel: nat): int {
    if n <= parallel then n - 1 else parallel
  }

  /** A prefix is valid if a simulation of it succeeds; this is telling when the answer does not depend on the time. */
  predicate Valid(sim: Simulator, n: nat) {
    sim(0, n) == Approved
  }

  ghost predicate Steady(sim: Simulator) {
    forall t, n :: sim(t, n) == if Valid(sim, n) then Approved else Unusable
  }

  /** Every prefix of a valid prefix is valid, down to the two candidates a command needs. */
  ghost predicate ClosedUnderPrefix(sim: Simulator) {
    forall m, n :: 2 <= m <= n && Valid(sim, n) ==> Valid(sim, m)
  }

  /** Up to `top`, exactly the prefixes of at most `k` candidates are valid, at whatever time. */
  ghost predicate ValidUpTo(sim: Simulator, k: nat, top: nat) {
    forall t, n :: 2 <= n <= top ==> sim(t, n) == if n <= k then Approved else Unusable
  }

  /** A steady simulator that is closed under shorter prefixes has a largest valid prefix. */
  lemma {:induction false} LargestValid(sim: Simulator, top: nat) returns (k: nat)
    requires Steady(sim) && ClosedUnderPrefix(sim) && top >= 1
    ensures 1 <= k <= top && ValidUpTo(sim, k, top)
  {
    if top == 1 || Valid(sim, top) {
      k := top;
    } else {
      k := LargestValid(sim, top - 1);
    }
  }

  lemma Halves(min: int, max: int)
    requires min <= max
    ensures
      var mid := (min + max) / 2;
      && min <= mid <= max
      && 1 + Bits(max - mid) <= Bits(max - min + 1)
      && 1 + Bits(mid - min) <= Bits(max - min + 1)
  {
    var mid, r := (min + max) / 2, max - min + 1;
    assert max - mid == r / 2 && mid - min <= r / 2;
    BitsMonotone(mid - min, r / 2);
  }

  datatype Outcome = Outcome(found: Option<nat>, failed: bool, simulations: nat)

  /** How the search ends, from a range still to search, the number of simulations so far and what they found. */
  function Search(sim: Simulator, min: nat, max: int, t: nat, found: Option<nat>): Outcome
    decreases max - min + 1
  {
    if min > max then Outcome(found, false, t) else
    var mid := (min + max) / 2;
    match sim(t, mid + 1)
    case DeadlineExceeded => Outcome(found, false, t + 1)
    case Failed => Outcome(None, true, t + 1)
    case Approved => Search(sim, mid + 1, max, t + 1, Some(mid + 1))
    case Unusable => Search(sim, min, mid - 1, t + 1, found)
  }

  /** One of the simulations from `start` on, before `end`, approved the prefix. */
  ghost predicate WasApproved(sim: Simulator, n: nat, start: nat, end: nat) {
    exists t :: start <= t < end && sim(t, n) == Approved
  }

  /** Whatever is found was approved by one of the simulations, within the range, unless it was found before. */
  lemma {:induction false} SearchFindsApproved(sim: Simulator, min: nat, max: int, t: nat, found: Option<nat>)
    requires min >= 1
    ensures
      var r := Search(sim, min, max, t, found);
      && r.simulations >= t
      && (r.found.Some? && r.found != found ==>
            min + 1 <= r.found.value <= max + 1 && WasApproved(sim, r.found.value, t, r.simulations))
    decreases max - min + 1
  {
    if min <= max {
      var mid := (min + max) / 2;
      SearchFindsApproved(sim, mid + 1, max, t + 1, Some(mid + 1));
      SearchFindsApproved(sim, min, mid - 1, t + 1, found);
    }
  }

  /** The search takes at most one simulation per binary digit of its range. */
  lemma {:induction false} SearchIsLogarithmic(sim: Simulator, min: nat, max: int, t: nat, found: Option<nat>)
    requires min <= max + 1
    ensures Search(sim, min, max, t, found).simulations <= t + Bits(max - min + 1)
    decreases max - min + 1
  {
    if min <= max {
      Halves(min, max);
      var mid := (min + max) / 2;
      SearchIsLogarithmic(sim, mid + 1, max, t + 1, Some(mid + 1));
      SearchIsLogarithmic(sim, min, mid - 1, t + 1, found);
    }
  }

  /** Exactly the prefixes up to the one found are valid, among those of at least two candidates in range. */
  ghost predicate IsLargest(sim: Simulator, found: Option<nat>, top: int) {
    forall m :: 2 <= m <= top ==> (Valid(sim, m) <==> found.Some? && m <= found.value)
  }

  /** The search ends at the largest valid prefix when its range holds it. */
  lemma {:induction false} SearchFindsLargest(sim: Simulator, min: nat, max: int, t: nat, found: Option<nat>, k: nat, top: nat, r: Outcome)
    requires ValidUpTo(sim, k, top) && 1 <= min <= k <= max + 1 <= top
    requires min == (if found.Some? then found.value else 1) && (found.Some? ==> min >= 2)
    requires r == Search(sim, min, max, t, found)
    ensures !r.failed && r.found == if k >= 2 then Some(k) else None
    decreases max - min + 1
  {
    if min <= max {
      var mid := (min + max) / 2;
      if mid + 1 <= k {
        assert sim(t, mid + 1) == Approved;
        SearchFindsLargest(sim, mid + 1, max, t + 1, Some(mid + 1), k, top, r);
      } else {
        assert sim(t, mid + 1) == Unusable;
        SearchFindsLargest(sim, min, mid - 1, t + 1, found, k, top, r);
      }
    }
  }

  const MAX_PARALLEL := 100

  /** The size of the batch that a multi-node pass over n candidates within budget consolidates, if any. */
  function Batch(n: nat, sim: Simulator): Option<nat> {
    if n < 2 then None else Search(sim, 1, Ceiling(n, Min(n, MAX_PARALLEL)), 0, None).found
  }

  /** When every simulation is approved the search ends at the top of its range. */
  lemma {:induction false} SearchReachesTop(sim: Simulator, min: nat, max: int, t: nat, found: Option<nat>)
    requires min <= max && forall u, m :: sim(u, m) == Approved
    ensures Search(sim, min, max, t, found).found == Some(max + 1)
    decreases max - min + 1
  {
    var mid := (min + max) / 2;
    assert sim(t, mid + 1) == Approved;
    if mid < max {
      SearchReachesTop(sim, mid + 1, max, t + 1, Some(mid + 1));
    }
  }

  function AlwaysApproved(): Simulator {
    (t, m) => Approved
  }

  /** The largest batch there can be: all candidates, up to 101 of them. */
  lemma LargestBatch(n: nat, sim: Simulator)
    ensures Batch(n, sim).Some? ==> Batch(n, sim).value <= Min(n, MAX_PARALLEL + 1)
    ensures n >= 2 ==> Batch(n, AlwaysApproved()) == Some(Min(n, MAX_PARALLEL + 1))
  {
    if n >= 2 {
      var top := Ceiling(n, Min(n, MAX_PARALLEL));
      SearchFindsApproved(sim, 1, top, 0, None);
      SearchReachesTop(AlwaysApproved(), 1, top, 0, None);
    }
  }

  ghost predicate BatchWithin(n: nat, bound: nat) {
    forall sim :: Batch(n, sim).Some? ==> Batch(n, sim).value <= bound
  }

  /**
   The limit of 100 bounds the index of the last candidate and not their number: every batch stays within it if and only
   if there are no more than 100 candidates. With more, a batch of 101 comes about.
   */
  lemma BatchBoundIff(n: nat)
    ensures BatchWithin(n, MAX_PARALLEL) <==> n <= MAX_PARALLEL
    ensures n > MAX_PARALLEL ==> Batch(n, AlwaysApproved()) == Some(101)
  {
    forall sim
      ensures Batch(n, sim).Some? ==> Batch(n, sim).value <= Min(n, MAX_PARALLEL + 1)
    {
      LargestBatch(n, sim);
    }
    LargestBatch(n, AlwaysApproved());
  }

  /**
   What firstNConsolidationOption promises, whatever the simulations answer: nothing or a prefix of at least two
   candidates that a simulation approved, after at most floor(log2(ceiling)) + 1 of them. When validity is steady and
   closed under shorter prefixes, it is the largest valid prefix in range.
   */
  ghost predicate IsAnswer(n: nat, parallel: nat, sim: Simulator, r: Outcome) {
    var top := Ceiling(n, parallel);
    && (n < 2 ==> r == Outcome(None, false, 0))
    && (n >= 2 && top >= 1 ==> r.simulations <= Bits(top))
    && (r.found.Some? ==> 2 <= r.found.value <= top + 1 <= n && WasApproved(sim, r.found.value, 0, r.simulations))
    && (n >= 2 && Steady(sim) && ClosedUnderPrefix(sim) ==> !r.failed && IsLargest(sim, r.found, top + 1))
  }

  lemma SearchAnswers(n: nat, parallel: nat, sim: Simulator)
    requires n >= 2
    ensures IsAnswer(n, parallel, sim, Search(sim, 1, Ceiling(n, parallel), 0, None))
  {
    var top := Ceiling(n, parallel);
    SearchFindsApproved(sim, 1, top, 0, None);
    SearchIsLogarithmic(sim, 1, top, 0, None);
    if Steady(sim) && ClosedUnderPrefix(sim) {
      var k := LargestValid(sim, top + 1);
      SearchFindsLargest(sim, 1, top, 0, None, k, top + 1, Search(sim, 1, top, 0, None));
    }
  }

  /** A search that fails finds nothing. */
  lemma {:induction false} FailureFindsNothing(sim: Simulator, min: nat, max: int, t: nat, found: Option<nat>, r: Outcome)
    requires r == Search(sim, min, max, t, found) && r.failed
    ensures r.found.None?
    decreases max - min + 1
  {
    if min <= max {
      var mid := (min + max) / 2;
      match sim(t, mid + 1)
      case DeadlineExceeded =>
      case Failed =>
      case Approved => FailureFindsNothing(sim, mid + 1, max, t + 1, Some(mid + 1), r);
      case Unusable => FailureFindsNothing(sim, min, mid - 1, t + 1, found, r);
    }
  }

  /** firstNConsolidationOption. */
  method FirstN(n: nat, parallel: nat, sim: Simulator) returns (found: Option<nat>, failed: bool, simulations: nat)
    ensures n >= 2 ==> Outcome(found, failed, simulations) == Search(sim, 1, Ceiling(n, parallel), 0, None)
    ensures IsAnswer(n, parallel, sim, Outcome(found, failed, simulations))
  {
    found, failed, simulations := None, false, 0;
    if n < 2 {
      return;
    }
    SearchAnswers(n, parallel, sim);
    var min, max := 1, parallel as int;
    if n <= parallel {
      max := n - 1;
    }
    while min <= max
      invariant 1 <= min && !failed
      invariant Search(sim, min, max, simulations, found) == Search(sim, 1, Ceiling(n, parallel), 0, None)
      decreases max - min + 1
    {
      var mid := (min + max) / 2;
      var outcome := sim(simulations, mid + 1);
      simulations := simulations + 1;
      if outcome == DeadlineExceeded {
        return;
      }
      if outcome == Failed {
        return None, true, simulations;
      }
      if outcome == Approved {
        found := Some(mid + 1);
        min := mid + 1;
      } else {
        max := mid - 1;
      }
    }
  }

  /* ----- the budget filter in front of the search ----- */

  function CountPool(pools: seq<string>, pool: string): nat {
    if pools == [] then 0 else CountPool(pools[..|pools| - 1], pool) + (if pools[|pools| - 1] == pool then 1 else 0)
  }

  lemma {:induction false} CountPrefix(pools: seq<string>, k: nat, pool: string)
    requires k <= |pools|
    ensures CountPool(pools[..k], pool) <= CountPool(pools, pool)
    decreases |pools|
  {
    if k < |pools| {
      var init := pools[..|pools| - 1];
      assert pools[..k] == init[..k];
      CountPrefix(init, k, pool);
    } else {
      assert pools[..k] == pools;
    }
  }

  /** How many eligible candidates of a pool stand before position i. */
  function EligibleBefore(candidates: seq<string>, eligible: seq<bool>, i: nat, pool: string): nat
    requires i <= |candidates| == |eligible|
  {
    if i == 0 then 0
    else EligibleBefore(candidates, eligible, i - 1, pool) + if eligible[i - 1] && candidates[i - 1] == pool then 1 else 0
  }

  /** The candidate is among the first eligible ones of its pool, as many as its budget has room for. */
  ghost predicate HasRoom(candidates: seq<string>, eligible: seq<bool>, budget: map<string, int>, j: nat)
    requires j < |candidates| == |eligible|
  {
    eligible[j] && EligibleBefore(candidates, eligible, j, candidates[j]) < Lookup(budget, candidates[j], 0)
  }

  ghost predicate Ascending(indices: seq<nat>, bound: nat) {
    && (forall k :: 0 <= k < |indices| ==> indices[k] < bound)
    && (forall j, k :: 0 <= j < k < |indices| ==> indices[j] < indices[k])
  }

  /** Of the first n candidates, exactly those with room are taken, in order. */
  ghost predicate TakesFirst(candidates: seq<string>, eligible: seq<bool>, budget: map<string, int>, indices: seq<nat>, n: nat)
    requires n <= |candidates| == |eligible|
  {
    && Ascending(indices, n)
    && (forall j: nat :: j < n ==> (j in indices <==> HasRoom(candidates, eligible, budget, j)))
  }

  /** Every pool has left what its eligible candidates so far did not use up. */
  ghost predicate LeftOver(candidates: seq<string>, eligible: seq<bool>, budget: map<string, int>, left: map<string, int>, n: nat)
    requires n <= |candidates| == |eligible|
  {
    forall p :: Lookup(left, p, 0) == Max(Lookup(budget, p, 0) - EligibleBefore(candidates, eligible, n, p), 0)
  }

  lemma TakesNext(candidates: seq<string>, eligible: seq<bool>, budget: map<string, int>, indices: seq<nat>, n: nat)
    requires n < |candidates| == |eligible| && TakesFirst(candidates, eligible, budget, indices, n)
    ensures TakesFirst(candidates, eligible, budget, if HasRoom(candidates, eligible, budget, n) then indices + [n] else indices, n + 1)
  {
    var after := if HasRoom(candidates, eligible, budget, n) then indices + [n] else indices;
    forall j: nat | j < n + 1
      ensures j in after <==> HasRoom(candidates, eligible, budget, j)
    {
      assert j in after <==> j in indices || (j == n && HasRoom(candidates, eligible, budget, n));
    }
  }

  lemma LeftOverNext(candidates: seq<string>, eligible: seq<bool>, budget: map<string, int>, left: map<string, int>, n: nat)
    requires n < |candidates| == |eligible| && LeftOver(candidates, eligible, budget, left, n)
    ensures HasRoom(candidates, eligible, budget, n) <==> eligible[n] && Lookup(left, candidates[n], 0) != 0
    ensures
      var p := candidates[n];
      LeftOver(candidates, eligible, budget, if HasRoom(candidates, eligible, budget, n) then left[p := Lookup(left, p, 0) - 1] else left, n + 1)
  {
    var p := candidates[n];
    assert Lookup(left, p, 0) == Max(Lookup(budget, p, 0) - EligibleBefore(candidates, eligible, n, p), 0);
    var after := if HasRoom(candidates, eligible, budget, n) then left[p := Lookup(left, p, 0) - 1] else left;
    forall q
      ensures Lookup(after, q, 0) == Max(Lookup(budget, q, 0) - EligibleBefore(candidates, eligible, n + 1, q), 0)
    {
      assert Lookup(left, q, 0) == Max(Lookup(budget, q, 0) - EligibleBefore(candidates, eligible, n, q), 0);
    }
  }

  /** The pools of the candidates at the given positions. */
  function PoolsAt(candidates: seq<string>, indices: seq<nat>): seq<string>
    requires forall k :: 0 <= k < |indices| ==> indices[k] < |candidates|
  {
    seq(|indices|, k requires 0 <= k < |indices| => candidates[indices[k]])
  }

  lemma CountLast(pools: seq<string>, p: string, q: string)
    ensures CountPool(pools + [p], q) == CountPool(pools, q) + if p == q then 1 else 0
  {
    assert (pools + [p])[..|pools|] == pools;
  }

  /** Taking the first of each pool that fit takes as many as there are, or as many as fit. */
  lemma {:induction false} TakesCount(candidates: seq<string>, eligible: seq<bool>, budget: map<string, int>, indices: seq<nat>, n: nat, pool: string)
    requires n <= |candidates| == |eligible| && TakesFirst(candidates, eligible, budget, indices, n) && Lookup(budget, pool, 0) >= 0
    ensures CountPool(PoolsAt(candidates, indices), pool) == Min(EligibleBefore(candidates, eligible, n, pool), Lookup(budget, pool, 0))
    decreases n
  {
    if n == 0 {
      assert PoolsAt(candidates, indices) == [];
    } else {
      var last := n - 1;
      if HasRoom(candidates, eligible, budget, last) {
        LastTaken(candidates, eligible, budget, indices, last);
        var init := indices[..|indices| - 1];
        TakesCount(candidates, eligible, budget, init, last, pool);
        assert PoolsAt(candidates, indices) == PoolsAt(candidates, init) + [candidates[last]];
        CountLast(PoolsAt(candidates, init), candidates[last], pool);
      } else {
        LastNotTaken(candidates, eligible, budget, indices, last);
        TakesCount(candidates, eligible, budget, indices, last, pool);
      }
    }
  }

  lemma AscendingLast(indices: seq<nat>, bound: nat, k: nat)
    requires Ascending(indices, bound) && k < |indices|
    ensures indices[k] <= indices[|indices| - 1] < bound
  {
  }

  lemma LastTaken(candidates: seq<string>, eligible: seq<bool>, budget: map<string, int>, indices: seq<nat>, last: nat)
    requires last < |candidates| == |eligible| && TakesFirst(candidates, eligible, budget, indices, last + 1) && HasRoom(candidates, eligible, budget, last)
    ensures indices != [] && indices[|indices| - 1] == last && TakesFirst(candidates, eligible, budget, indices[..|indices| - 1], last)
  {
    assert last in indices;
    var k :| 0 <= k < |indices| && indices[k] == last;
    var init := indices[..|indices| - 1];
    AscendingLast(indices, last + 1, k);
    assert forall x :: x in indices <==> x in init || x == last;
  }

  lemma LastNotTaken(candidates: seq<string>, eligible: seq<bool>, budget: map<string, int>, indices: seq<nat>, last: nat)
    requires last < |candidates| == |eligible| && TakesFirst(candidates, eligible, budget, indices, last + 1) && !HasRoom(candidates, eligible, budget, last)
    ensures TakesFirst(candidates, eligible, budget, indices, last)
  {
    forall k | 0 <= k < |indices|
      ensures indices[k] < last
    {
      assert indices[k] in indices;
    }
  }

  /**
   Takes candidates, given by their pools, in order while their pool's budget lasts: of every pool exactly the first
   eligible ones, up to its budget.
   */
  method WithinBudget(candidates: seq<string>, eligible: seq<bool>, budget: map<string, int>)
    returns (indices: seq<nat>)
    requires |eligible| == |candidates| && forall p :: p in budget ==> budget[p] >= 0
    ensures TakesFirst(candidates, eligible, budget, indices, |candidates|)
  {
    indices := [];
    var left := budget;
    var i := 0;
    while i < |candidates|
      invariant 0 <= i <= |candidates|
      invariant TakesFirst(candidates, eligible, budget, indices, i)
      invariant LeftOver(candidates, eligible, budget, left, i)
    {
      TakesNext(candidates, eligible, budget, indices, i);
      LeftOverNext(candidates, eligible, budget, left, i);
      var p := candidates[i];
      if eligible[i] && Lookup(left, p, 0) != 0 {
        indices := indices + [i];
        left := left[p := Lookup(left, p, 0) - 1];
      }
      i := i + 1;
    }
  }
}
