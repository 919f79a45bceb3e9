/**
 Balanced consolidation scoring, over the reals: approval in multiplied-out form, how it moves with savings,
 disruption and pool size, the bound it puts on chains of replaces, the soundness of pruning, and
 the split of a cross-pool move's savings.
 */
module Balanced {
  import opened Common

  const BALANCED_K := 2

  /** A pool's total price and total disruption cost. */
  datatype Totals = Totals(cost: real, disruption: real)

  datatype Score = Finite(x: real) | Infinite

  datatype ScoreResult = ScoreResult(savings: real, disruption: real, k: int) {
    function GetScore(): Score {
      if savings <= 0.0 then Finite(0.0)
      else if disruption == 0.0 then Infinite
      else Finite(savings / disruption)
    }

    predicate Approved()
      requires k > 0
    {
      GetScore().Infinite? || GetScore().x >= 1.0 / k as real
    }
  }

  function ScoreMove(savings: real, disruption: real, totals: Totals, k: int): ScoreResult {
    if totals.cost <= 0.0 || totals.disruption <= 0.0 then ScoreResult(0.0, 0.0, k)
    else ScoreResult(savings / totals.cost, disruption / totals.disruption, k)
  }

  predicate Approves(savings: real, disruption: real, totals: Totals) {
    ScoreMove(savings, disruption, totals, BALANCED_K).Approved()
  }

  /* ----- what approval means ----- */

  lemma QuotientAtLeast(a: real, b: real, c: real)
    requires b > 0.0
    ensures a / b >= c <==> a >= c * b
    ensures a / b > 0.0 <==> a > 0.0
    ensures a / b == 0.0 <==> a == 0.0
  {
    var q := a / b;
    assert q * b == a;
    if q >= c {
      assert (q - c) * b >= 0.0;
    } else {
      assert (c - q) * b > 0.0;
    }
    if q > 0.0 {
      assert q * b > 0.0;
    } else if q < 0.0 {
      assert (-q) * b > 0.0;
    }
  }

  lemma NonNegative(a: real, b: real)
    requires a >= 0.0 && b >= 0.0
    ensures a * b >= 0.0
  {
  }

  lemma Cancel(a: real, b: real, c: real)
    requires c > 0.0 && a * c == b * c
    ensures a == b
  {
    Scale(a, b, c);
    Scale(b, a, c);
  }

  lemma Scale(a: real, b: real, c: real)
    requires c > 0.0
    ensures a >= b <==> a * c >= b * c
  {
    if a >= b {
      assert (a - b) * c >= 0.0;
    } else {
      assert (b - a) * c > 0.0;
    }
  }

  lemma RatioOfShares(s: real, d: real, t: Totals)
    requires t.cost > 0.0 && t.disruption > 0.0 && d > 0.0
    ensures (s / t.cost) / (d / t.disruption) >= 0.5 <==> 2.0 * s * t.disruption >= d * t.cost
  {
    var sf, df := s / t.cost, d / t.disruption;
    QuotientAtLeast(d, t.disruption, 0.0);
    assert df > 0.0;
    QuotientAtLeast(sf, df, 0.5);
    assert sf * t.cost == s && df * t.disruption == d;
    Scale(sf, 0.5 * df, t.cost);
    Scale(s, 0.5 * df * t.cost, t.disruption);
    assert 0.5 * df * t.cost * t.disruption == 0.5 * (d * t.cost) by {
      assert df * t.cost * t.disruption == (df * t.disruption) * t.cost;
    }
  }

  /** Without divisions: savings are positive and at least half of what the move's disruption share would justify. */
  lemma ApprovesIff(s: real, d: real, t: Totals)
    ensures Approves(s, d, t) <==>
      && t.cost > 0.0 && t.disruption > 0.0 && s > 0.0
      && (d == 0.0 || (d > 0.0 && 2.0 * s * t.disruption >= d * t.cost))
  {
    if t.cost > 0.0 && t.disruption > 0.0 {
      QuotientAtLeast(s, t.cost, 0.0);
      QuotientAtLeast(d, t.disruption, 0.0);
      if s > 0.0 && d > 0.0 {
        RatioOfShares(s, d, t);
      } else if s > 0.0 && d < 0.0 {
        NegativeRatio(s / t.cost, d / t.disruption);
      }
    }
  }

  lemma NegativeRatio(a: real, b: real)
    requires a > 0.0 && b < 0.0
    ensures a / b < 0.5
  {
    var q := a / b;
    assert q * b == a;
    if q >= 0.0 {
      NonNegative(q, -b);
    }
  }

  /* ----- how approval moves ----- */

  /** More savings never turn an approval into a rejection. */
  lemma MonotoneInSavings(s: real, more: real, d: real, t: Totals)
    requires s <= more && Approves(s, d, t)
    ensures Approves(more, d, t)
  {
    ApprovesIff(s, d, t);
    ApprovesIff(more, d, t);
    assert (more - s) * t.disruption >= 0.0;
  }

  /** Lowering the node's disruption keeps the approval of a move with these savings in a pool of this cost. */
  ghost predicate StaysApproved(less: real, d: real, others: real, s: real, cost: real) {
    Approves(s, d, Totals(cost, d + others)) ==> Approves(s, less, Totals(cost, less + others))
  }

  /**
   Less disruption on the node itself, the rest of the pool unchanged, never turns an approval into a rejection,
   if and only if the pool is left with some disruption to measure against.
   */
  lemma AntitoneInOwnDisruptionIff(less: real, d: real, others: real)
    requires 0.0 <= less <= d && others >= 0.0
    ensures (forall s, cost :: StaysApproved(less, d, others, s, cost)) <==> (d + others > 0.0 ==> less + others > 0.0)
  {
    if d + others > 0.0 ==> less + others > 0.0 {
      forall s, cost
        ensures StaysApproved(less, d, others, s, cost)
      {
        ApprovesIff(s, d, Totals(cost, d + others));
        if Approves(s, d, Totals(cost, d + others)) {
          LessDisruption(less, d, others, s, cost);
        }
      }
    } else {
      ApprovesIff(1.0, d, Totals(1.0, d + others));
      ApprovesIff(1.0, less, Totals(1.0, less + others));
      assert !StaysApproved(less, d, others, 1.0, 1.0);
    }
  }

  lemma ShareGrows(less: real, d: real, others: real, s: real, cost: real)
    requires 0.0 < less <= d && others >= 0.0 && s > 0.0
    requires 2.0 * s * (d + others) >= d * cost
    ensures 2.0 * s * (less + others) >= less * cost
  {
    var a, b := 2.0 * s * (less + others), less * cost;
    NonNegative(s, others);
    NonNegative(s * others, d - less);
    Scale(2.0 * s * (d + others), d * cost, less);
    calc {
      a * d;
      2.0 * s * (less * d) + 2.0 * (s * others) * d;
    >= { assert (s * others) * d >= (s * others) * less by { assert (s * others) * (d - less) >= 0.0; } }
      2.0 * s * (less * d) + 2.0 * (s * others) * less;
      (2.0 * s * (d + others)) * less;
    >=
      (d * cost) * less;
      b * d;
    }
    Scale(a, b, d);
  }

  lemma LessDisruption(less: real, d: real, others: real, s: real, cost: real)
    requires 0.0 <= less <= d && others >= 0.0 && less + others > 0.0
    requires Approves(s, d, Totals(cost, d + others))
    ensures Approves(s, less, Totals(cost, less + others))
  {
    ApprovesIff(s, d, Totals(cost, d + others));
    ApprovesIff(s, less, Totals(cost, less + others));
    if less > 0.0 {
      ShareGrows(less, d, others, s, cost);
    }
  }

  lemma ScaledPool(m: real, s: real, price: real, d: real)
    requires m > 0.0 && price > 0.0 && d > 0.0
    ensures Approves(s, d, Totals(m * price, m * d)) <==> Approves(s, d, Totals(price, d))
  {
    var big, small := Totals(m * price, m * d), Totals(price, d);
    assert big.cost > 0.0 && big.disruption > 0.0 by {
      Positive(m, price);
      Positive(m, d);
    }
    ApprovesIff(s, d, big);
    ApprovesIff(s, d, small);
    Scale(2.0 * s * d, d * price, m);
    assert 2.0 * s * big.disruption == (2.0 * s * d) * m;
    assert d * big.cost == (d * price) * m;
  }

  lemma Positive(a: real, b: real)
    requires a > 0.0 && b > 0.0
    ensures a * b > 0.0
  {
  }

  /** In a pool of identical nodes the decision does not depend on how many there are. */
  lemma UniformPoolSize(n: int, s: real, price: real, d: real)
    requires n >= 1 && price > 0.0 && d > 0.0
    ensures Approves(s, d, Totals(n as real * price, n as real * d)) <==> Approves(s, d, Totals(price, d))
  {
    ScaledPool(n as real, s, price, d);
  }

  /* ----- chains of replaces ----- */

  /** Replacing a Balanced candidate alone by a machine of price `next`, at its pool's totals of the time. */
  datatype Replace = Replace(candidate: Candidate, next: real, totals: Totals) {
    function Cmd(): Command {
      Command([candidate], [next], false)
    }

    /** The node's share of the pool's disruption is at least its share of the pool's cost. */
    predicate Loaded() {
      candidate.isBalanced && candidate.disruption > 0.0 && candidate.disruption * totals.cost >= candidate.price * totals.disruption
    }

    predicate ApprovedMove() {
      PoolApproves(Cmd(), [candidate.pool], map[candidate.pool := totals], candidate.pool)
    }
  }

  /** The command saves the difference of the two prices, and is scored on it. */
  lemma ReplaceSaves(r: Replace)
    ensures Savings(r.Cmd()) == r.candidate.price - r.next
    ensures r.candidate.isBalanced ==> (r.ApprovedMove() <==> Approves(r.candidate.price - r.next, r.candidate.disruption, r.totals))
  {
    SumsOfOne(r.candidate);
    LaunchOfOne(r.next);
    SavingsMeaning(r.Cmd());
  }

  /** An approved replace of such a node at least halves its price. */
  lemma ReplaceHalves(r: Replace)
    requires r.Loaded() && r.ApprovedMove()
    ensures 2.0 * r.next <= r.candidate.price
  {
    var price, t := r.candidate.price, r.totals;
    ReplaceSaves(r);
    ApprovesIff(price - r.next, r.candidate.disruption, t);
    assert 2.0 * (price - r.next) * t.disruption >= price * t.disruption;
    Scale(2.0 * (price - r.next), price, t.disruption);
  }

  ghost predicate Chain(moves: seq<Replace>) {
    && (forall i :: 0 <= i < |moves| ==> moves[i].Loaded() && moves[i].ApprovedMove())
    && (forall i :: 0 <= i < |moves| - 1 ==> moves[i].next == moves[i + 1].candidate.price)
  }

  function Pow2(n: nat): int {
    if n == 0 then 1 else 2 * Pow2(n - 1)
  }

  /** A chain of n approved replaces divides the price by at least 2^n: from p down to q takes at most log2(p/q) steps. */
  lemma {:induction false} ChainIsLogarithmic(moves: seq<Replace>)
    requires Chain(moves) && moves != []
    ensures Pow2(|moves|) as real * moves[|moves| - 1].next <= moves[0].candidate.price
  {
    var n := |moves|;
    ReplaceHalves(moves[n - 1]);
    if n > 1 {
      var init := moves[..n - 1];
      assert Chain(init);
      ChainIsLogarithmic(init);
      var p := Pow2(n - 1) as real;
      PowPositive(n - 1);
      assert moves[n - 2].next == moves[n - 1].candidate.price;
      assert init[n - 2].next == moves[n - 1].candidate.price;
      Scale(moves[n - 1].candidate.price, 2.0 * moves[n - 1].next, p);
      assert Pow2(n) as real * moves[n - 1].next == (2.0 * moves[n - 1].next) * p;
    }
  }

  lemma {:induction false} PowPositive(n: nat)
    ensures Pow2(n) >= 1
  {
    if n > 0 {
      PowPositive(n - 1);
    }
  }

  /* ----- commands ----- */

  datatype Candidate = Candidate(pool: string, isBalanced: bool, price: real, disruption: real)

  /** `launches` holds, per replacement, the price of its cheapest launchable offering, or 0 when there is none. */
  datatype Command = Command(candidates: seq<Candidate>, launches: seq<real>, reboot: bool)

  function SumPrices(cs: seq<Candidate>): real {
    if cs == [] then 0.0 else SumPrices(cs[..|cs| - 1]) + cs[|cs| - 1].price
  }

  function SumReals(xs: seq<real>): real {
    if xs == [] then 0.0 else SumReals(xs[..|xs| - 1]) + xs[|xs| - 1]
  }

  function InPool(cs: seq<Candidate>, pool: string): seq<Candidate> {
    if cs == [] then []
    else InPool(cs[..|cs| - 1], pool) + (if cs[|cs| - 1].pool == pool then [cs[|cs| - 1]] else [])
  }

  function SumDisruption(cs: seq<Candidate>): real {
    if cs == [] then 0.0 else SumDisruption(cs[..|cs| - 1]) + cs[|cs| - 1].disruption
  }

  function Savings(cmd: Command): real {
    if cmd.reboot then 0.0
    else if cmd.launches == [] then SumPrices(cmd.candidates)
    else SumPrices(cmd.candidates) - SumReals(cmd.launches)
  }

  /** What the sources cost is what the command saves and what its launches cost; a reboot keeps its instance and saves nothing. */
  lemma SavingsMeaning(cmd: Command)
    ensures !cmd.reboot ==> Savings(cmd) + SumReals(cmd.launches) == SumPrices(cmd.candidates)
    ensures cmd.reboot ==> Savings(cmd) == 0.0
  {
  }

  /** The sums add up over any split, so with the sums of one they are settled. */
  lemma {:induction false} SumsAdd(a: seq<Candidate>, b: seq<Candidate>)
    ensures SumPrices(a + b) == SumPrices(a) + SumPrices(b)
    ensures SumDisruption(a + b) == SumDisruption(a) + SumDisruption(b)
    decreases |b|
  {
    if b == [] {
      assert a + b == a;
    } else {
      var init := b[..|b| - 1];
      assert (a + b)[..|a + b| - 1] == a + init;
      SumsAdd(a, init);
    }
  }

  lemma {:induction false} LaunchesAdd(a: seq<real>, b: seq<real>)
    ensures SumReals(a + b) == SumReals(a) + SumReals(b)
    decreases |b|
  {
    if b == [] {
      assert a + b == a;
    } else {
      var init := b[..|b| - 1];
      assert (a + b)[..|a + b| - 1] == a + init;
      LaunchesAdd(a, init);
    }
  }

  lemma LaunchOfOne(x: real)
    ensures SumReals([x]) == x
  {
    assert [x][..0] == [];
    assert SumReals([]) == 0.0;
  }

  /** A pool's group has exactly its candidates, each as often as the command. */
  lemma {:induction false} InPoolMeaning(cs: seq<Candidate>, pool: string, c: Candidate)
    ensures multiset(InPool(cs, pool))[c] == if c.pool == pool then multiset(cs)[c] else 0
  {
    if cs != [] {
      InPoolMeaning(cs[..|cs| - 1], pool, c);
      assert cs == cs[..|cs| - 1] + [cs[|cs| - 1]];
    }
  }

  /** A pool's part of the savings: all of them, unless several pools share the command's cost. */
  function PoolSavings(cmd: Command, pools: seq<string>, pool: string): real {
    var cost := SumPrices(cmd.candidates);
    if cost > 0.0 && |pools| > 1 then Savings(cmd) * (SumPrices(InPool(cmd.candidates, pool)) / cost) else Savings(cmd)
  }

  predicate PoolApproves(cmd: Command, pools: seq<string>, totals: map<string, Totals>, pool: string) {
    var mine := InPool(cmd.candidates, pool);
    mine != [] && mine[0].isBalanced ==>
      Approves(PoolSavings(cmd, pools, pool), SumDisruption(mine), Lookup(totals, pool, Totals(0.0, 0.0)))
  }

  /** The pools of the candidates, each once. */
  ghost predicate Groups(cmd: Command, pools: seq<string>) {
    && Distinct(pools)
    && (forall c :: c in cmd.candidates ==> c.pool in pools)
    && (forall p :: p in pools ==> InPool(cmd.candidates, p) != [])
  }

  /**
   The part num/den of the savings is positive, and the pool's disruption share is at most twice the share of the
   pool's cost that this part saves; all multiplied out.
   */
  predicate Worthwhile(savings: real, num: real, den: real, d: real, t: Totals) {
    && t.cost > 0.0 && t.disruption > 0.0 && savings * num > 0.0
    && (d == 0.0 || (d > 0.0 && 2.0 * (savings * num) * t.disruption >= (d * t.cost) * den))
  }

  predicate IsPart(part: real, savings: real, num: real, den: real) {
    den > 0.0 && part == savings * (num / den)
  }

  lemma ShareApprovesIff(part: real, savings: real, num: real, den: real, d: real, t: Totals)
    requires IsPart(part, savings, num, den)
    ensures Approves(part, d, t) <==> Worthwhile(savings, num, den, d, t)
  {
    ApprovesIff(part, d, t);
    assert part * den == savings * num by {
      assert (num / den) * den == num;
      assert (savings * (num / den)) * den == savings * ((num / den) * den);
    }
    Scale(2.0 * part * t.disruption, d * t.cost, den);
    assert (2.0 * part * t.disruption) * den == 2.0 * (part * den) * t.disruption;
    QuotientAtLeast(savings * num, den, 0.0);
    Cancel(part, (savings * num) / den, den);
  }

  /** The prices that weigh a pool's part of the savings: those of its own candidates and of all, if several pools share. */
  function Weights(cmd: Command, pools: seq<string>, pool: string): (real, real) {
    var cost := SumPrices(cmd.candidates);
    if cost > 0.0 && |pools| > 1 then (SumPrices(InPool(cmd.candidates, pool)), cost) else (1.0, 1.0)
  }

  lemma WeightedPart(cmd: Command, pools: seq<string>, pool: string)
    ensures IsPart(PoolSavings(cmd, pools, pool), Savings(cmd), Weights(cmd, pools, pool).0, Weights(cmd, pools, pool).1)
  {
    assert Savings(cmd) * (1.0 / 1.0) == Savings(cmd);
  }

  /** Where several pools share a command, each one's part is to the savings as its own candidates' price is to the price of all. */
  lemma PartIsProportional(cmd: Command, pools: seq<string>, pool: string)
    requires |pools| > 1 && SumPrices(cmd.candidates) > 0.0
    ensures PoolSavings(cmd, pools, pool) * SumPrices(cmd.candidates) == Savings(cmd) * SumPrices(InPool(cmd.candidates, pool))
  {
    var mine, cost := SumPrices(InPool(cmd.candidates, pool)), SumPrices(cmd.candidates);
    assert (mine / cost) * cost == mine;
    assert (Savings(cmd) * (mine / cost)) * cost == Savings(cmd) * ((mine / cost) * cost);
  }

  /** The weighted part of the savings is worth the disruption of the pool's candidates. */
  predicate PoolGains(cmd: Command, pools: seq<string>, totals: map<string, Totals>, pool: string) {
    var weights := Weights(cmd, pools, pool);
    Worthwhile(Savings(cmd), weights.0, weights.1, SumDisruption(InPool(cmd.candidates, pool)), Lookup(totals, pool, Totals(0.0, 0.0)))
  }

  /** What a pool's verdict means: it is not Balanced, or its weighted part of the savings is worth its disruption. */
  lemma PoolApprovesIff(cmd: Command, pools: seq<string>, totals: map<string, Totals>, pool: string)
    ensures
      var mine := InPool(cmd.candidates, pool);
      PoolApproves(cmd, pools, totals, pool) <==> mine == [] || !mine[0].isBalanced || PoolGains(cmd, pools, totals, pool)
  {
    var weights, mine := Weights(cmd, pools, pool), InPool(cmd.candidates, pool);
    WeightedPart(cmd, pools, pool);
    ShareApprovesIff(PoolSavings(cmd, pools, pool), Savings(cmd), weights.0, weights.1, SumDisruption(mine), Lookup(totals, pool, Totals(0.0, 0.0)));
  }

  /** The pool is not Balanced, or its part of the savings is worth its disruption. */
  predicate Agrees(cmd: Command, pools: seq<string>, totals: map<string, Totals>, pool: string) {
    var mine := InPool(cmd.candidates, pool);
    mine != [] && mine[0].isBalanced ==> PoolGains(cmd, pools, totals, pool)
  }

  /** The loop body of EvaluateBalancedMove. */
  method EvaluatePool(cmd: Command, pools: seq<string>, totals: map<string, Totals>, pool: string) returns (approved: bool)
    requires InPool(cmd.candidates, pool) != []
    ensures approved <==> Agrees(cmd, pools, totals, pool)
  {
    PoolApprovesIff(cmd, pools, totals, pool);
    var mine := InPool(cmd.candidates, pool);
    if !mine[0].isBalanced {
      return true;
    }
    var cost, part := SumPrices(cmd.candidates), Savings(cmd);
    if cost > 0.0 && |pools| > 1 {
      part := part * (SumPrices(mine) / cost);
    }
    assert part == PoolSavings(cmd, pools, pool);
    var result := ScoreMove(part, SumDisruption(mine), Lookup(totals, pool, Totals(0.0, 0.0)), BALANCED_K);
    return result.Approved();
  }

  /** A move is approved when there is something to move and every Balanced pool approves its part. */
  method EvaluateBalancedMove(cmd: Command, pools: seq<string>, totals: map<string, Totals>) returns (approved: bool)
    requires Groups(cmd, pools)
    ensures approved <==> cmd.candidates != [] && forall p :: p in pools ==> Agrees(cmd, pools, totals, p)
  {
    if |cmd.candidates| == 0 {
      return false;
    }
    approved := true;
    var i := 0;
    while i < |pools|
      invariant 0 <= i <= |pools|
      invariant approved <==> forall j :: 0 <= j < i ==> Agrees(cmd, pools, totals, pools[j])
    {
      var ok := EvaluatePool(cmd, pools, totals, pools[i]);
      approved := approved && ok;
      i := i + 1;
    }
  }

  predicate CanPassThreshold(c: Candidate, totals: map<string, Totals>) {
    || !c.isBalanced || c.pool !in totals || totals[c.pool].cost <= 0.0
    || Approves(c.price, c.disruption, totals[c.pool])
  }

  lemma {:induction false} LaunchesCost(xs: seq<real>)
    requires forall i :: 0 <= i < |xs| ==> xs[i] >= 0.0
    ensures SumReals(xs) >= 0.0
  {
    if xs != [] {
      LaunchesCost(xs[..|xs| - 1]);
    }
  }

  /** The sums over a command's only candidate are the candidate's own figures. */
  lemma SumsOfOne(c: Candidate)
    ensures InPool([c], c.pool) == [c]
    ensures SumPrices([c]) == c.price && SumDisruption([c]) == c.disruption
  {
    assert [c][..0] == [];
    assert InPool([], c.pool) == [];
    assert SumPrices([]) == 0.0 && SumDisruption([]) == 0.0;
  }

  /** Pruning is sound: no command for a pruned candidate alone would be approved, whatever its replacements cost. */
  lemma PruningIsSound(c: Candidate, totals: map<string, Totals>, launches: seq<real>, reboot: bool)
    requires !CanPassThreshold(c, totals)
    requires forall i :: 0 <= i < |launches| ==> launches[i] >= 0.0
    ensures !PoolApproves(Command([c], launches, reboot), [c.pool], totals, c.pool)
  {
    var cmd := Command([c], launches, reboot);
    SumsOfOne(c);
    LaunchesCost(launches);
    var t := totals[c.pool];
    if Approves(Savings(cmd), c.disruption, t) {
      if reboot {
        ApprovesIff(0.0, c.disruption, t);
      } else {
        MonotoneInSavings(Savings(cmd), c.price, c.disruption, t);
      }
    }
  }

  ghost predicate NonNegatives(xs: seq<real>) {
    forall i :: 0 <= i < |xs| ==> xs[i] >= 0.0
  }

  /** Some command for the candidate alone would be approved. */
  ghost predicate Approvable(c: Candidate, totals: map<string, Totals>) {
    exists launches, reboot :: NonNegatives(launches) && PoolApproves(Command([c], launches, reboot), [c.pool], totals, c.pool)
  }

  /** Pruning is exact: a candidate of a Balanced pool with some cost is pruned if and only if no command for it alone would be approved. */
  lemma PruningIff(c: Candidate, totals: map<string, Totals>)
    ensures !CanPassThreshold(c, totals) <==>
      c.isBalanced && c.pool in totals && totals[c.pool].cost > 0.0 && !Approvable(c, totals)
  {
    if !CanPassThreshold(c, totals) {
      forall launches, reboot | NonNegatives(launches)
        ensures !PoolApproves(Command([c], launches, reboot), [c.pool], totals, c.pool)
      {
        PruningIsSound(c, totals, launches, reboot);
      }
    } else if c.isBalanced && c.pool in totals && totals[c.pool].cost > 0.0 {
      SumsOfOne(c);
      assert SumReals([]) == 0.0;
      SavingsMeaning(Command([c], [], false));
      assert NonNegatives([]) && PoolApproves(Command([c], [], false), [c.pool], totals, c.pool);
    }
  }

  /* ----- conservation of a cross-pool move's savings ----- */

  function SumCosts(cs: seq<Candidate>, pools: seq<string>): real {
    if pools == [] then 0.0 else SumCosts(cs, pools[..|pools| - 1]) + SumPrices(InPool(cs, pools[|pools| - 1]))
  }

  function SumParts(cmd: Command, all: seq<string>, pools: seq<string>): real {
    if pools == [] then 0.0 else SumParts(cmd, all, pools[..|pools| - 1]) + PoolSavings(cmd, all, pools[|pools| - 1])
  }

  lemma {:induction false} SumCostsAdd(cs: seq<Candidate>, c: Candidate, pools: seq<string>)
    requires Distinct(pools)
    ensures SumCosts(cs + [c], pools) == SumCosts(cs, pools) + (if c.pool in pools then c.price else 0.0)
    decreases |pools|
  {
    if pools != [] {
      var init, p := pools[..|pools| - 1], pools[|pools| - 1];
      SumCostsAdd(cs, c, init);
      assert (cs + [c])[..|cs|] == cs;
      var mine := InPool(cs, p);
      assert InPool(cs + [c], p) == if c.pool == p then mine + [c] else mine;
      assert (mine + [c])[..|mine|] == mine;
      assert forall q :: q in pools <==> q in init || q == p;
    }
  }

  lemma {:induction false} SumCostsEmpty(pools: seq<string>)
    ensures SumCosts([], pools) == 0.0
  {
    if pools != [] {
      SumCostsEmpty(pools[..|pools| - 1]);
    }
  }

  /** Grouping by pool loses no cost. */
  lemma {:induction false} GroupsAddUp(cs: seq<Candidate>, pools: seq<string>)
    requires Distinct(pools) && forall c :: c in cs ==> c.pool in pools
    ensures SumCosts(cs, pools) == SumPrices(cs)
    decreases |cs|
  {
    if cs == [] {
      SumCostsEmpty(pools);
    } else {
      var init, c := cs[..|cs| - 1], cs[|cs| - 1];
      assert cs == init + [c];
      GroupsAddUp(init, pools);
      SumCostsAdd(init, c, pools);
    }
  }

  predicate InProportion(parts: real, cost: real, savings: real, costs: real) {
    parts * cost == savings * costs
  }

  /** One more pool's part, scaled by the whole cost. */
  lemma PartScales(savings: real, parts: real, costs: real, mine: real, cost: real)
    requires cost > 0.0 && InProportion(parts, cost, savings, costs)
    ensures InProportion(parts + savings * (mine / cost), cost, savings, costs + mine)
  {
    var share := mine / cost;
    assert share * cost == mine;
    assert (savings * share) * cost == savings * (share * cost);
    assert (parts + savings * share) * cost == parts * cost + (savings * share) * cost;
  }

  lemma {:induction false} PartsScale(cmd: Command, all: seq<string>, pools: seq<string>)
    requires |all| > 1 && SumPrices(cmd.candidates) > 0.0
    ensures InProportion(SumParts(cmd, all, pools), SumPrices(cmd.candidates), Savings(cmd), SumCosts(cmd.candidates, pools))
    decreases |pools|
  {
    if pools != [] {
      var init, p := pools[..|pools| - 1], pools[|pools| - 1];
      PartsScale(cmd, all, init);
      PartScales(Savings(cmd), SumParts(cmd, all, init), SumCosts(cmd.candidates, init),
                 SumPrices(InPool(cmd.candidates, p)), SumPrices(cmd.candidates));
    }
  }

  lemma SameFactor(a: real, b: real, c: real, d: real)
    requires c > 0.0 && a * c == b * d && d == c
    ensures a == b
  {
    Cancel(a, b, c);
  }

  /** The pools' parts of a cross-pool move's savings add up to its savings. */
  lemma {:induction false} SplitConservesSavings(cmd: Command, pools: seq<string>)
    requires Distinct(pools) && (forall c :: c in cmd.candidates ==> c.pool in pools)
    requires |pools| > 1 && SumPrices(cmd.candidates) > 0.0
    ensures SumParts(cmd, pools, pools) == Savings(cmd)
  {
    PartsScale(cmd, pools, pools);
    GroupsAddUp(cmd.candidates, pools);
    SameFactor(SumParts(cmd, pools, pools), Savings(cmd), SumPrices(cmd.candidates), SumCosts(cmd.candidates, pools));
  }
}
