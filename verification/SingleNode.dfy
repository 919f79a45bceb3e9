/**
 Single-node consolidation looks at candidates one at a time until it times out, so their order decides who is looked at:
 candidates are interleaved pool by pool, and pools that the last pass did not reach come first.
 */
module SingleNode {
  import opened Common

  /** A candidate's round, which is its position in its pool, and its pool's position in the order. */
  datatype Slot = Slot(round: nat, pool: nat)

  predicate Before(a: Slot, b: Slot) {
    a.round < b.round || (a.round == b.round && a.pool < b.pool)
  }

  function SetOf(s: seq<string>): set<string> {
    set x | x in s
  }

  /** A pool that is listed without candidates has none. */
  function Group<T>(groups: map<string, seq<T>>, pool: string): seq<T> {
    Lookup(groups, pool, [])
  }

  predicate Exists<T>(s: Slot, order: seq<string>, groups: map<string, seq<T>>) {
    s.pool < |order| && s.round < |Group(groups, order[s.pool])|
  }

  /** The slots are those of the groups, each once, round by round and within a round in pool order. */
  ghost predicate Interleaved<T>(slots: seq<Slot>, result: seq<T>, order: seq<string>, groups: map<string, seq<T>>) {
    && |result| == |slots|
    && (forall k :: 0 <= k < |slots| ==> Exists(slots[k], order, groups) && result[k] == Group(groups, order[slots[k].pool])[slots[k].round])
    && (forall j, k :: 0 <= j < k < |slots| ==> Before(slots[j], slots[k]))
    && (forall s :: Exists(s, order, groups) ==> s in slots)
  }

  method LongestGroup<T>(order: seq<string>, groups: map<string, seq<T>>) returns (most: nat)
    ensures forall p :: 0 <= p < |order| ==> |Group(groups, order[p])| <= most
  {
    most := 0;
    for p := 0 to |order|
      invariant forall q :: 0 <= q < p ==> |Group(groups, order[q])| <= most
    {
      most := Max(most, |Group(groups, order[p])|);
    }
  }

  /** The pools that were unseen, then the others. */
  method SortedPools(unseen: seq<string>, pools: seq<string>) returns (order: seq<string>)
    requires Distinct(unseen) && Distinct(pools)
    ensures unseen <= order && Distinct(order) && SetOf(order) == SetOf(unseen) + SetOf(pools)
  {
    order := unseen;
    for i := 0 to |pools|
      invariant unseen <= order && Distinct(order)
      invariant forall x :: x in order <==> x in unseen || x in pools[..i]
    {
      assert forall x :: x in pools[..i + 1] <==> x in pools[..i] || x == pools[i];
      if pools[i] !in unseen {
        assert pools[i] !in pools[..i];
        order := order + [pools[i]];
      }
    }
    assert pools[..|pools|] == pools;
  }

  /** The candidate that the k-th place of the result went to. */
  ghost predicate Place(slots: seq<Slot>, order: seq<string>, k: nat, pool: string, i: nat) {
    k < |slots| && slots[k].pool < |order| && order[slots[k].pool] == pool && slots[k].round == i
  }

  /** The i-th candidate of the pool has exactly one place. */
  ghost predicate PlacedOnce(slots: seq<Slot>, order: seq<string>, pool: string, i: nat) {
    && (exists k :: Place(slots, order, k, pool, i))
    && (forall j, k :: Place(slots, order, j, pool, i) && Place(slots, order, k, pool, i) ==> j == k)
  }

  lemma SameSlotSamePlace(slots: seq<Slot>, a: nat, b: nat)
    requires a < |slots| && b < |slots| && slots[a] == slots[b]
    requires forall j, k :: 0 <= j < k < |slots| ==> Before(slots[j], slots[k])
    ensures a == b
  {
  }

  /** No candidate is left out, and none is taken twice. */
  lemma EveryCandidateOnce<T>(slots: seq<Slot>, result: seq<T>, order: seq<string>, groups: map<string, seq<T>>, pool: string, i: nat)
    requires Interleaved(slots, result, order, groups) && Distinct(order) && groups.Keys <= SetOf(order)
    requires pool in groups && i < |groups[pool]|
    ensures PlacedOnce(slots, order, pool, i)
  {
    assert pool in SetOf(order);
    var p :| 0 <= p < |order| && order[p] == pool;
    assert Exists(Slot(i, p), order, groups);
    var k :| 0 <= k < |slots| && slots[k] == Slot(i, p);
    assert Place(slots, order, k, pool, i);
    forall a: nat, b: nat | Place(slots, order, a, pool, i) && Place(slots, order, b, pool, i)
      ensures a == b
    {
      SameSlotSamePlace(slots, a, b);
    }
  }

  /** Round by round, pool order within a round, and every candidate of every pool once. */
  ghost predicate Shuffled<T>(slots: seq<Slot>, result: seq<T>, order: seq<string>, groups: map<string, seq<T>>) {
    && Interleaved(slots, result, order, groups)
    && forall pool, i :: pool in groups && 0 <= i < |groups[pool]| ==> PlacedOnce(slots, order, pool, i)
  }

  /** shuffleCandidates: the pools that the last pass did not reach come first, and every candidate of every pool is taken once. */
  method ShuffleCandidates<T>(unseen: seq<string>, pools: seq<string>, groups: map<string, seq<T>>) returns (result: seq<T>, order: seq<string>)
    requires Distinct(unseen) && Distinct(pools) && SetOf(pools) == groups.Keys
    ensures unseen <= order && Distinct(order) && SetOf(order) == SetOf(unseen) + groups.Keys
    ensures exists slots :: Shuffled(slots, result, order, groups)
  {
    order := SortedPools(unseen, pools);
    var most := LongestGroup(order, groups);
    result := [];
    ghost var slots: seq<Slot> := [];
    for i := 0 to most
      invariant Listed(slots, result, order, groups, Slot(i, 0))
    {
      for p := 0 to |order|
        invariant Listed(slots, result, order, groups, Slot(i, p))
      {
        var group := Group(groups, order[p]);
        ListedNext(slots, result, order, groups, i, p);
        if i < |group| {
          result, slots := result + [group[i]], slots + [Slot(i, p)];
        }
      }
      ListedRound(slots, result, order, groups, i);
    }
    ListedAll(slots, result, order, groups, most);
    forall pool, i | pool in groups && 0 <= i < |groups[pool]|
      ensures PlacedOnce(slots, order, pool, i)
    {
      EveryCandidateOnce(slots, result, order, groups, pool, i);
    }
    assert Shuffled(slots, result, order, groups);
  }

  /** The slots before a bound are listed, in order, each once. */
  ghost predicate Listed<T>(slots: seq<Slot>, result: seq<T>, order: seq<string>, groups: map<string, seq<T>>, bound: Slot) {
    && |result| == |slots|
    && (forall k :: 0 <= k < |slots| ==>
          Exists(slots[k], order, groups) && Before(slots[k], bound) && result[k] == Group(groups, order[slots[k].pool])[slots[k].round])
    && (forall j, k :: 0 <= j < k < |slots| ==> Before(slots[j], slots[k]))
    && (forall s :: Exists(s, order, groups) && Before(s, bound) ==> s in slots)
  }

  lemma ListedNext<T>(slots: seq<Slot>, result: seq<T>, order: seq<string>, groups: map<string, seq<T>>, i: nat, p: nat)
    requires p < |order| && Listed(slots, result, order, groups, Slot(i, p))
    ensures
      var group := Group(groups, order[p]);
      if i < |group| then Listed(slots + [Slot(i, p)], result + [group[i]], order, groups, Slot(i, p + 1))
      else Listed(slots, result, order, groups, Slot(i, p + 1))
  {
    forall s: Slot
      ensures Before(s, Slot(i, p + 1)) <==> Before(s, Slot(i, p)) || s == Slot(i, p)
    {
    }
  }

  lemma ListedRound<T>(slots: seq<Slot>, result: seq<T>, order: seq<string>, groups: map<string, seq<T>>, i: nat)
    requires Listed(slots, result, order, groups, Slot(i, |order|))
    ensures Listed(slots, result, order, groups, Slot(i + 1, 0))
  {
    assert forall s: Slot :: Exists(s, order, groups) ==> (Before(s, Slot(i, |order|)) <==> Before(s, Slot(i + 1, 0)));
  }

  lemma ListedAll<T>(slots: seq<Slot>, result: seq<T>, order: seq<string>, groups: map<string, seq<T>>, most: nat)
    requires Listed(slots, result, order, groups, Slot(most, 0))
    requires forall p :: 0 <= p < |order| ==> |Group(groups, order[p])| <= most
    ensures Interleaved(slots, result, order, groups)
  {
    assert forall s: Slot :: Exists(s, order, groups) ==> Before(s, Slot(most, 0));
  }

  /** No pool is looked at for the next time before every other pool was looked at as often, or ran out of candidates. */
  lemma RoundsAreFair<T>(slots: seq<Slot>, result: seq<T>, order: seq<string>, groups: map<string, seq<T>>, k: nat, s: Slot)
    requires Interleaved(slots, result, order, groups) && k < |slots|
    requires Exists(s, order, groups) && s.round < slots[k].round
    ensures s in slots[..k]
  {
    var j :| 0 <= j < |slots| && slots[j] == s;
    assert j < k;
    assert slots[..k][j] == s;
  }

  /** If every pool has a candidate, the first candidates are one of each pool, in pool order. */
  lemma {:induction false} FirstRound<T>(slots: seq<Slot>, result: seq<T>, order: seq<string>, groups: map<string, seq<T>>, k: nat)
    requires Interleaved(slots, result, order, groups) && k < |order|
    requires forall p :: 0 <= p < |order| ==> Group(groups, order[p]) != []
    ensures k < |slots| && slots[k] == Slot(0, k)
  {
    var s := Slot(0, k);
    assert Exists(s, order, groups);
    var j :| 0 <= j < |slots| && slots[j] == s;
    if k > 0 {
      FirstRound(slots, result, order, groups, k - 1);
      assert j > k - 1;
    }
    assert j > k ==> Before(slots[k], s);
  }

  /* ----- passes that time out ----- */

  /** An order in which the unseen pools come first. */
  ghost predicate Starts(order: seq<string>, unseen: set<string>, pools: set<string>) {
    Distinct(order) && SetOf(order) == pools && |unseen| <= |order| && SetOf(order[..|unseen|]) == unseen
  }

  /** What a pass that looks at n candidates, no more than there are pools, leaves unseen. */
  function UnseenAfter(order: seq<string>, n: nat, pools: set<string>): set<string>
    requires n <= |order|
  {
    pools - SetOf(order[..n])
  }

  /** What looking into one candidate ends in: no approved option, one that validation rejects or fails on, or a command. */
  datatype Answer = NoOption | Rejected | Found

  /** A candidate whose pool has budget left and whose score can pass, and for which there is an option, ends the pass. */
  predicate Decides(pools: seq<string>, budget: map<string, int>, canPass: seq<bool>, answers: seq<Answer>, i: nat)
    requires i < |pools| == |canPass| == |answers|
  {
    Lookup(budget, pools[i], 0) != 0 && canPass[i] && answers[i] != NoOption
  }

  /** The pass goes over the first i candidates without being late or coming to a decision. */
  ghost predicate GoesOver(pools: seq<string>, budget: map<string, int>, canPass: seq<bool>, answers: seq<Answer>, late: seq<bool>, i: nat)
    requires |pools| == |canPass| == |answers| == |late|
  {
    i <= |pools| && forall j: nat :: j < i ==> !late[j] && !Decides(pools, budget, canPass, answers, j)
  }

  /** How a pass over candidates, given by their pools, ends at position i, and what it then remembers as unseen. */
  ghost predicate EndsAt(pools: seq<string>, budget: map<string, int>, canPass: seq<bool>, answers: seq<Answer>, late: seq<bool>,
                         unseen: set<string>, i: nat, chosen: Option<nat>, after: set<string>)
    requires |pools| == |canPass| == |answers| == |late|
  {
    && GoesOver(pools, budget, canPass, answers, late, i)
    && if i == |pools| then chosen.None? && after == {}
       else if late[i] then chosen.None? && after == SetOf(pools) - SetOf(pools[..i])
       else Decides(pools, budget, canPass, answers, i) && after == unseen && chosen == if answers[i] == Found then Some(i) else None
  }

  /**
   ComputeCommands. A pass that is late remembers the pools of which it saw no candidate; one that went over everything remembers
   none; and one that comes to a decision leaves what was remembered alone.
   */
  method ComputeCommands(pools: seq<string>, budget: map<string, int>, canPass: seq<bool>, answers: seq<Answer>, late: seq<bool>, unseen: set<string>)
    returns (chosen: Option<nat>, after: set<string>)
    requires |pools| == |canPass| == |answers| == |late|
    ensures exists i :: EndsAt(pools, budget, canPass, answers, late, unseen, i, chosen, after)
  {
    after := SetOf(pools);
    var i := 0;
    while i < |pools|
      invariant GoesOver(pools, budget, canPass, answers, late, i)
      invariant after == SetOf(pools) - SetOf(pools[..i])
    {
      if late[i] {
        assert EndsAt(pools, budget, canPass, answers, late, unseen, i, None, after);
        return None, after;
      }
      after := after - {pools[i]};
      if Lookup(budget, pools[i], 0) != 0 && canPass[i] && answers[i] != NoOption {
        chosen := if answers[i] == Found then Some(i) else None;
        assert EndsAt(pools, budget, canPass, answers, late, unseen, i, chosen, unseen);
        return chosen, unseen;
      }
      assert SetOf(pools[..i + 1]) == SetOf(pools[..i]) + {pools[i]};
      i := i + 1;
    }
    assert pools[..|pools|] == pools;
    assert EndsAt(pools, budget, canPass, answers, late, unseen, |pools|, None, {});
    return None, {};
  }

  /** A pass that is late during the first round of its candidates leaves unseen the pools after the cut. */
  lemma LatePassCuts(order: seq<string>, pools: seq<string>, budget: map<string, int>, canPass: seq<bool>, answers: seq<Answer>, late: seq<bool>,
                     unseen: set<string>, i: nat, chosen: Option<nat>, after: set<string>)
    requires |pools| == |canPass| == |answers| == |late| && EndsAt(pools, budget, canPass, answers, late, unseen, i, chosen, after)
    requires order <= pools && SetOf(order) == SetOf(pools) && i < |pools| && i <= |order| && late[i]
    ensures after == UnseenAfter(order, i, SetOf(order))
  {
    assert pools[..i] == order[..i];
  }

  /** Successive passes over the same pools, each cut off after some number of candidates; the orders are otherwise arbitrary. */
  ghost predicate Passes(orders: seq<seq<string>>, cuts: seq<nat>, unseen: set<string>, pools: set<string>) {
    && |orders| == |cuts|
    && (orders == [] ||
        (Starts(orders[0], unseen, pools) && cuts[0] <= |orders[0]| && Passes(orders[1..], cuts[1..], UnseenAfter(orders[0], cuts[0], pools), pools)))
  }

  ghost predicate SeenIn(orders: seq<seq<string>>, cuts: seq<nat>, pool: string)
    requires |orders| == |cuts|
  {
    exists i :: 0 <= i < |orders| && pool in Reached(orders[i], cuts[i])
  }

  function Reached(order: seq<string>, n: nat): seq<string> {
    if n <= |order| then order[..n] else order
  }

  lemma {:induction false} DistinctSize(s: seq<string>)
    requires Distinct(s)
    ensures |SetOf(s)| == |s|
  {
    if s != [] {
      var init := s[..|s| - 1];
      DistinctSize(init);
      assert SetOf(s) == SetOf(init) + {s[|s| - 1]};
    }
  }

  lemma UnseenSize(order: seq<string>, n: nat, unseen: set<string>, pools: set<string>)
    requires Starts(order, unseen, pools) && n <= |order|
    ensures |order| == |pools| && |UnseenAfter(order, n, pools)| == |pools| - n
    ensures UnseenAfter(order, n, pools) <= pools
  {
    DistinctSize(order);
    DistinctSize(order[..n]);
    assert pools == UnseenAfter(order, n, pools) + SetOf(order[..n]);
  }

  /** When the cut comes no earlier than the unseen pools end, they are all seen. */
  lemma UnseenIsReached(order: seq<string>, unseen: set<string>, pools: set<string>, n: nat, pool: string)
    requires Starts(order, unseen, pools) && |unseen| <= n <= |order| && pool in unseen
    ensures pool in order[..n]
  {
    assert pool in order[..|unseen|];
    var i :| 0 <= i < |unseen| && order[i] == pool;
    assert order[..n][i] == pool;
  }

  lemma {:induction false} Listing(s: set<string>) returns (list: seq<string>)
    ensures Distinct(list) && SetOf(list) == s && |list| == |s|
    decreases |s|
  {
    list := [];
    if s != {} {
      var x :| x in s;
      var rest := Listing(s - {x});
      assert x !in SetOf(rest);
      list := rest + [x];
      assert SetOf(list) == SetOf(rest) + {x};
    }
  }

  lemma Joined(a: seq<string>, b: seq<string>)
    requires Distinct(a) && Distinct(b) && SetOf(a) !! SetOf(b)
    ensures Distinct(a + b) && SetOf(a + b) == SetOf(a) + SetOf(b)
  {
    forall i, j | 0 <= i < j < |a + b|
      ensures (a + b)[i] != (a + b)[j]
    {
      assert i < |a| ==> (a + b)[i] in SetOf(a);
      assert j >= |a| ==> (a + b)[j] in SetOf(b);
    }
  }

  lemma VictimLast(unseen: set<string>, victim: string) returns (front: seq<string>)
    requires victim in unseen
    ensures victim !in SetOf(front) && |front| == |unseen| - 1
    ensures Distinct(front + [victim]) && SetOf(front + [victim]) == unseen
  {
    front := Listing(unseen - {victim});
    assert SetOf([victim]) == {victim};
    Joined(front, [victim]);
  }

  lemma UnseenFirst(first: seq<string>, unseen: set<string>, pools: set<string>) returns (order: seq<string>)
    requires Distinct(first) && SetOf(first) == unseen <= pools && |first| == |unseen|
    ensures first <= order && Starts(order, unseen, pools)
  {
    var back := Listing(pools - unseen);
    Joined(first, back);
    order := first + back;
    assert order[..|unseen|] == first;
  }

  /** If the unseen pools outnumber the candidates looked at, some order leaves out whichever of them we like. */
  lemma PassedOver(unseen: set<string>, pools: set<string>, n: nat, victim: string) returns (order: seq<string>)
    requires unseen <= pools && victim in unseen && n < |unseen|
    ensures Starts(order, unseen, pools) && n <= |order| && victim !in order[..n]
  {
    var front := VictimLast(unseen, victim);
    order := UnseenFirst(front + [victim], unseen, pools);
    LeavesOut(front, order, n, victim);
  }

  lemma LeavesOut(front: seq<string>, order: seq<string>, n: nat, victim: string)
    requires n <= |front| && front <= order && victim !in SetOf(front)
    ensures victim !in order[..n]
  {
    forall i | 0 <= i < n
      ensures order[i] != victim
    {
      assert front[i] in SetOf(front);
    }
  }

  /** Any two passes in a row together look at fewer candidates than there are pools. */
  predicate Hurried(cuts: seq<nat>, n: nat) {
    forall i :: 0 <= i < |cuts| - 1 ==> cuts[i] + cuts[i + 1] < n
  }

  /** A pool can be passed over for any number of passes in a row, when they are hurried. */
  lemma {:induction false} PoolStarves(unseen: set<string>, pools: set<string>, cuts: seq<nat>, victim: string) returns (orders: seq<seq<string>>)
    requires unseen <= pools && victim in unseen && Hurried(cuts, |pools|) && (cuts != [] ==> cuts[0] < |unseen|)
    ensures Passes(orders, cuts, unseen, pools) && !SeenIn(orders, cuts, victim)
    decreases |cuts|
  {
    orders := [];
    if cuts != [] {
      var order := PassedOver(unseen, pools, cuts[0], victim);
      var left := UnseenAfter(order, cuts[0], pools);
      UnseenSize(order, cuts[0], unseen, pools);
      assert victim in left;
      HurriedRest(cuts, |pools|);
      var rest := PoolStarves(left, pools, cuts[1..], victim);
      orders := [order] + rest;
      assert orders[1..] == rest;
      forall i | 0 <= i < |orders|
        ensures victim !in Reached(orders[i], cuts[i])
      {
        assert i > 0 ==> orders[i] == rest[i - 1] && cuts[i] == cuts[1..][i - 1];
      }
    }
  }

  lemma HurriedRest(cuts: seq<nat>, n: nat)
    requires cuts != [] && Hurried(cuts, n)
    ensures Hurried(cuts[1..], n) && (|cuts| > 1 ==> cuts[0] + cuts[1..][0] < n)
  {
    forall i | 0 <= i < |cuts[1..]| - 1
      ensures cuts[1..][i] + cuts[1..][i + 1] < n
    {
      assert cuts[i + 1] + cuts[i + 2] < n;
    }
    assert |cuts| > 1 ==> cuts[0] + cuts[0 + 1] < n;
  }

  /** Two passes in a row that are not hurried reach every pool between them. */
  lemma PairReachesAll(orders: seq<seq<string>>, cuts: seq<nat>, unseen: set<string>, pools: set<string>, pool: string)
    requires |cuts| >= 2 && Passes(orders, cuts, unseen, pools) && pool in pools && cuts[0] + cuts[1] >= |pools|
    ensures SeenIn(orders, cuts, pool)
  {
    var first, second := orders[0], orders[1];
    var left := UnseenAfter(first, cuts[0], pools);
    assert orders[1..][0] == second && cuts[1..][0] == cuts[1];
    UnseenSize(first, cuts[0], unseen, pools);
    if pool in left {
      UnseenIsReached(second, left, pools, cuts[1], pool);
      assert pool in Reached(orders[1], cuts[1]);
    } else {
      assert pool in Reached(orders[0], cuts[0]);
    }
  }

  lemma {:induction false} CalmPairReachesAll(orders: seq<seq<string>>, cuts: seq<nat>, unseen: set<string>, pools: set<string>, pool: string, i: nat)
    requires i + 1 < |cuts| && Passes(orders, cuts, unseen, pools) && pool in pools && cuts[i] + cuts[i + 1] >= |pools|
    ensures SeenIn(orders, cuts, pool)
    decreases i
  {
    if i == 0 {
      PairReachesAll(orders, cuts, unseen, pools, pool);
    } else {
      CalmPairReachesAll(orders[1..], cuts[1..], UnseenAfter(orders[0], cuts[0], pools), pools, pool, i - 1);
      var k :| 0 <= k < |orders[1..]| && pool in Reached(orders[1..][k], cuts[1..][k]);
      assert pool in Reached(orders[k + 1], cuts[k + 1]);
    }
  }

  /** Some pool can be passed over by every one of the passes. */
  ghost predicate CanStarve(pools: set<string>, cuts: seq<nat>) {
    exists orders, pool :: Passes(orders, cuts, {}, pools) && pool in pools && !SeenIn(orders, cuts, pool)
  }

  /**
   Putting the unseen pools first does not by itself give every pool a look: whatever the number of passes, one can be
   passed over by all of them if and only if no two passes in a row look at as many candidates as there are pools.
   */
  lemma StarvesIff(pools: set<string>, cuts: seq<nat>)
    requires |cuts| >= 2 && forall i :: 0 <= i < |cuts| ==> cuts[i] <= |pools|
    ensures CanStarve(pools, cuts) <==> Hurried(cuts, |pools|)
  {
    if Hurried(cuts, |pools|) {
      StarvingStart(pools, cuts);
    } else {
      var i :| 0 <= i < |cuts| - 1 && cuts[i] + cuts[i + 1] >= |pools|;
      forall orders, pool | Passes(orders, cuts, {}, pools) && pool in pools
        ensures SeenIn(orders, cuts, pool)
      {
        CalmPairReachesAll(orders, cuts, {}, pools, pool, i);
      }
    }
  }

  lemma StarvingStart(pools: set<string>, cuts: seq<nat>)
    requires |cuts| >= 2 && Hurried(cuts, |pools|)
    ensures CanStarve(pools, cuts)
  {
    HurriedRest(cuts, |pools|);
    var first := Listing(pools);
    assert first[..0] == [];
    UnseenSize(first, cuts[0], {}, pools);
    var left := UnseenAfter(first, cuts[0], pools);
    var victim :| victim in left;
    var rest := PoolStarves(left, pools, cuts[1..], victim);
    var orders := [first] + rest;
    assert orders[1..] == rest;
    forall i | 0 <= i < |orders|
      ensures victim !in Reached(orders[i], cuts[i])
    {
      assert i > 0 ==> orders[i] == rest[i - 1] && cuts[i] == cuts[1..][i - 1];
    }
    assert Passes(orders, cuts, {}, pools) && victim in pools && !SeenIn(orders, cuts, victim);
  }
}
