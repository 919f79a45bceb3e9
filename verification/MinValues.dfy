/**
 Whether a list of instance types offers enough distinct values for the requirements that ask for a minimum, and how
 short a prefix of the list already does.
 */
module MinValues {
  import opened Common
  import opened RequirementAlgebra
  import opened RequirementMaps
  import opened SetMaps

  /** What an instance type lists for a label; an unlisted label lists no values. */
  function Listed(it: Requirements, key: string): set<string> {
    if key in it then it[key].values else {}
  }

  /** The listed values that the requirement allows. */
  function Offered(it: Requirements, r: Requirement): set<string> {
    set v | v in Listed(it, r.key) && r.Has(v)
  }

  function Available(its: seq<Requirements>, r: Requirement): set<string> {
    if its == [] then {} else Available(its[..|its| - 1], r) + Offered(its[|its| - 1], r)
  }

  /** A value is available if some instance type lists it for the label and the requirement allows it. */
  lemma {:induction false} AvailableMeaning(its: seq<Requirements>, r: Requirement, v: string)
    ensures v in Available(its, r) <==> r.Has(v) && exists i :: 0 <= i < |its| && r.key in its[i] && v in its[i][r.key].values
  {
    if its != [] {
      var init, last := its[..|its| - 1], its[|its| - 1];
      AvailableMeaning(init, r, v);
      if i :| 0 <= i < |init| && r.key in init[i] && v in init[i][r.key].values {
        assert its[i] == init[i];
      }
      if i :| 0 <= i < |its| && r.key in its[i] && v in its[i][r.key].values {
        assert i < |init| ==> its[i] == init[i];
      }
    }
  }

  predicate Enough(its: seq<Requirements>, r: Requirement) {
    r.minValues.Some? ==> |Available(its, r)| >= r.minValues.value
  }

  predicate Satisfied(its: seq<Requirements>, reqs: Requirements) {
    forall k :: k in reqs ==> Enough(its, reqs[k])
  }

  predicate HasMinValues(reqs: Requirements) {
    exists k :: k in reqs && reqs[k].minValues.Some?
  }

  function Demanding(reqs: Requirements): set<string> {
    set k | k in reqs && reqs[k].minValues.Some?
  }

  lemma {:induction false} AvailableGrows(its: seq<Requirements>, n: nat, r: Requirement)
    requires n <= |its|
    ensures Available(its[..n], r) <= Available(its, r)
    decreases |its|
  {
    if n < |its| {
      var init := its[..|its| - 1];
      assert its[..n] == init[..n];
      AvailableGrows(init, n, r);
    } else {
      assert its[..n] == its;
    }
  }

  /** A longer list satisfies whatever a prefix of it satisfies. */
  lemma LongerStaysSatisfied(its: seq<Requirements>, n: nat, reqs: Requirements)
    requires n <= |its| && Satisfied(its[..n], reqs)
    ensures Satisfied(its, reqs)
  {
    forall k | k in reqs
      ensures Enough(its, reqs[k])
    {
      assert Enough(its[..n], reqs[k]);
      AvailableGrows(its, n, reqs[k]);
      SubsetSize(Available(its[..n], reqs[k]), Available(its, reqs[k]));
    }
  }

  /** Keeping at least as many of the first types as the shortest satisfying prefix has keeps the minimums. */
  lemma TruncationKeepsMinimums(its: seq<Requirements>, needed: nat, keep: nat, reqs: Requirements)
    requires needed <= |its| && Satisfied(its[..needed], reqs)
    ensures
      var kept := if Max(keep, needed) < |its| then its[..Max(keep, needed)] else its;
      Satisfied(kept, reqs)
  {
    var kept := if Max(keep, needed) < |its| then its[..Max(keep, needed)] else its;
    assert kept[..needed] == its[..needed];
    LongerStaysSatisfied(kept, needed, reqs);
  }

  /**
   The two results tie together: cutting the list to a non-empty prefix keeps every minimum exactly when the prefix is at
   least as long as the shortest one that does.
   */
  lemma TruncateKeepsIff(its: seq<Requirements>, needed: nat, n: nat, reqs: Requirements)
    requires 1 <= needed <= |its| && Satisfied(its[..needed], reqs) && NoneUpTo(its, needed - 1, reqs)
    requires 1 <= n <= |its|
    ensures Satisfied(its[..n], reqs) <==> needed <= n
  {
    if needed <= n {
      assert its[..n][..needed] == its[..needed];
      LongerStaysSatisfied(its[..n], needed, reqs);
    }
  }

  /* ----- the loops ----- */

  function Collected(its: seq<Requirements>, reqs: Requirements): map<string, set<string>> {
    map k | k in reqs && reqs[k].minValues.Some? :: Available(its, reqs[k])
  }

  /** What one more instance type adds to the values collected so far. */
  function Extended(values: map<string, set<string>>, it: Requirements, reqs: Requirements): map<string, set<string>> {
    map k | k in Demanding(reqs) :: Lookup(values, k, {}) + Offered(it, reqs[k])
  }

  lemma AvailableAppend(its: seq<Requirements>, it: Requirements, r: Requirement)
    ensures Available(its + [it], r) == Available(its, r) + Offered(it, r)
  {
    assert (its + [it])[..|its|] == its;
  }

  lemma CollectedAppend(its: seq<Requirements>, it: Requirements, reqs: Requirements)
    ensures Collected(its + [it], reqs) == Extended(if its == [] then map[] else Collected(its, reqs), it, reqs)
  {
    forall k | k in reqs
      ensures Available(its + [it], reqs[k]) == Available(its, reqs[k]) + Offered(it, reqs[k])
    {
      AvailableAppend(its, it, reqs[k]);
    }
  }

  method CollectValues(values: map<string, set<string>>, it: Requirements, reqs: Requirements) returns (out: map<string, set<string>>)
    requires values.Keys <= Demanding(reqs)
    ensures out == Extended(values, it, reqs)
  {
    var offers := map k | k in Demanding(reqs) :: Offered(it, reqs[k]);
    out := MergeSets(values, offers);
  }

  /** The keys whose values fall short, with how many there are. */
  function Short(its: seq<Requirements>, reqs: Requirements): map<string, int> {
    map k | k in reqs && reqs[k].minValues.Some? && |Available(its, reqs[k])| < reqs[k].minValues.value :: |Available(its, reqs[k])|
  }

  /** The labels that fall short are listed with what they have, but for those still to look at. */
  ghost predicate ShortBut(values: map<string, set<string>>, reqs: Requirements, out: map<string, int>, todo: set<string>)
    requires forall k :: k in values ==> k in reqs && reqs[k].minValues.Some?
  {
    forall k :: k in values && k !in todo ==>
      (k in out <==> |values[k]| < reqs[k].minValues.value) && (k in out ==> out[k] == |values[k]|)
  }

  lemma ShortButNone(its: seq<Requirements>, reqs: Requirements, out: map<string, int>)
    requires out.Keys <= Collected(its, reqs).Keys && ShortBut(Collected(its, reqs), reqs, out, {})
    ensures out == Short(its, reqs)
  {
    assert out.Keys == Short(its, reqs).Keys;
  }

  method UpdateShort(short: map<string, int>, values: map<string, set<string>>, reqs: Requirements, ghost its: seq<Requirements>)
    returns (out: map<string, int>)
    requires values == Collected(its, reqs) && short.Keys <= values.Keys
    ensures out == Short(its, reqs)
  {
    out := short;
    var todo := values.Keys;
    while todo != {}
      invariant todo <= values.Keys && out.Keys <= values.Keys
      invariant ShortBut(values, reqs, out, todo)
      decreases todo
    {
      var k :| k in todo;
      if |values[k]| < reqs[k].minValues.value {
        out := out[k := |values[k]|];
      } else {
        out := out - {k};
      }
      todo := todo - {k};
    }
    ShortButNone(its, reqs, out);
  }

  lemma ShortIff(its: seq<Requirements>, reqs: Requirements)
    ensures Short(its, reqs) == map[] <==> Satisfied(its, reqs)
  {
    if Short(its, reqs) == map[] {
      forall k | k in reqs
        ensures Enough(its, reqs[k])
      {
        assert k !in Short(its, reqs);
      }
    } else {
      var k :| k in Short(its, reqs);
      assert !Enough(its, reqs[k]);
    }
  }

  /** No non-empty prefix of at most this length meets the minimums. */
  ghost predicate NoneUpTo(its: seq<Requirements>, n: nat, reqs: Requirements)
    requires n <= |its|
  {
    forall m :: 1 <= m <= n ==> !Satisfied(its[..m], reqs)
  }

  /**
   For a non-empty list and requirements with minimums: success exactly when every minimum is met, and then the length of
   the shortest satisfying prefix. An empty list succeeds whatever the minimums are.
   */
  method SatisfiesMinValues(its: seq<Requirements>, reqs: Requirements) returns (needed: nat, short: map<string, int>, ok: bool)
    requires WellFiled(reqs)
    ensures !HasMinValues(reqs) || its == [] ==> needed == 0 && ok
    ensures ok ==> short == map[]
    ensures HasMinValues(reqs) && its != [] ==>
      && (ok <==> Satisfied(its, reqs))
      && (ok ==> 1 <= needed <= |its| && Satisfied(its[..needed], reqs) && NoneUpTo(its, needed - 1, reqs))
      && (!ok ==> needed == |its| && short == Short(its, reqs))
  {
    if Demanding(reqs) == {} {
      NothingDemanded(reqs);
      return 0, map[], true;
    }
    if |its| == 0 {
      return 0, map[], true;
    }
    needed, short, ok := Search(its, reqs);
  }

  /**
   Truncate, on the types in the order that sorting them by price gave: the cheapest ones up to a number, or all of them
   with an error when that cut would break a minimum. An empty cut breaks none.
   */
  method Truncate(its: seq<Requirements>, sorted: seq<Requirements>, reqs: Requirements, maxItems: nat, bestEffort: bool)
    returns (kept: seq<Requirements>, ok: bool)
    requires WellFiled(reqs) && multiset(sorted) == multiset(its)
    ensures
      var cut := sorted[..Min(maxItems, |sorted|)];
      && (ok <==> bestEffort || !HasMinValues(reqs) || cut == [] || Satisfied(cut, reqs))
      && kept == if ok then cut else its
    ensures ok && maxItems >= 1 && HasMinValues(reqs) && !bestEffort && its != [] ==> Satisfied(kept, reqs) && Satisfied(sorted, reqs)
  {
    kept := sorted[..Min(maxItems, |sorted|)];
    ok := true;
    if !bestEffort {
      var needed, short, enough := SatisfiesMinValues(kept, reqs);
      ok := enough;
    }
    if ok && kept != [] && HasMinValues(reqs) && !bestEffort {
      LongerStaysSatisfied(sorted, |kept|, reqs);
    }
    assert sorted == [] ==> multiset(its) == multiset{};
    if !ok {
      kept := its;
    }
  }

  lemma NothingDemanded(reqs: Requirements)
    requires Demanding(reqs) == {}
    ensures !HasMinValues(reqs)
  {
    forall k | k in reqs
      ensures reqs[k].minValues.None?
    {
      assert k !in Demanding(reqs);
    }
  }

  lemma NoneNext(its: seq<Requirements>, i: nat, reqs: Requirements)
    requires i < |its| && NoneUpTo(its, i, reqs) && !Satisfied(its[..i + 1], reqs)
    ensures NoneUpTo(its, i + 1, reqs)
  {
  }

  /** What the search knows after the first types: their values, and the labels they leave short. */
  ghost predicate Current(values: map<string, set<string>>, short: map<string, int>, its: seq<Requirements>, reqs: Requirements) {
    if its == [] then values == map[] && short == map[] else values == Collected(its, reqs) && short == Short(its, reqs)
  }

  method Search(its: seq<Requirements>, reqs: Requirements) returns (needed: nat, short: map<string, int>, ok: bool)
    requires its != []
    ensures 1 <= needed <= |its|
    ensures ok ==> Satisfied(its[..needed], reqs) && Satisfied(its, reqs) && NoneUpTo(its, needed - 1, reqs)
    ensures ok ==> short == map[]
    ensures !ok ==> needed == |its| && short == Short(its, reqs) && !Satisfied(its, reqs)
  {
    short := map[];
    var values: map<string, set<string>> := map[];
    var i := 0;
    while i < |its|
      invariant 0 <= i <= |its|
      invariant Current(values, short, its[..i], reqs)
      invariant NoneUpTo(its, i, reqs)
    {
      assert its[..i + 1] == its[..i] + [its[i]];
      values, short := Extend(values, short, its[i], reqs, its[..i]);
      if |short| == 0 {
        LongerStaysSatisfied(its, i + 1, reqs);
        return i + 1, map[], true;
      }
      NoneNext(its, i, reqs);
      i := i + 1;
    }
    assert its[..i] == its;
    assert !Satisfied(its[..i], reqs);
    return |its|, short, false;
  }

  method Extend(values: map<string, set<string>>, short: map<string, int>, it: Requirements, reqs: Requirements, ghost before: seq<Requirements>)
    returns (values': map<string, set<string>>, short': map<string, int>)
    requires Current(values, short, before, reqs)
    ensures Current(values', short', before + [it], reqs)
    ensures |short'| == 0 <==> Satisfied(before + [it], reqs)
  {
    CollectedAppend(before, it, reqs);
    ShortIff(before + [it], reqs);
    values' := CollectValues(values, it, reqs);
    short' := UpdateShort(short, values', reqs, before + [it]);
  }
}
