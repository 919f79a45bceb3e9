/**
 Requirements on several labels: adding them in any order gives the same map, printing and re-reading gives the
 same map exactly when no requirement mixes a bound with exclusions, and compatibility is decided
 by common strings.
 */
module RequirementMaps {
  import opened Common
  import opened Numerals
  import opened RequirementAlgebra

  type Requirements = map<string, Requirement>

  /* ----- adding ----- */

  function AddOne(rs: Requirements, r: Requirement): Requirements {
    rs[r.key := if r.key in rs then r.Intersection(rs[r.key]) else r]
  }

  function Add(rs: Requirements, list: seq<Requirement>): Requirements
    decreases |list|
  {
    if list == [] then rs else Add(AddOne(rs, list[0]), list[1..])
  }

  ghost predicate AllNormal(list: seq<Requirement>) {
    forall r :: r in list ==> r.Normal()
  }

  /** Each entry is in normal form and filed under its own key. */
  ghost predicate WellFiled(rs: Requirements) {
    forall k :: k in rs ==> rs[k].Normal() && rs[k].key == k
  }

  lemma AddOneWellFiled(rs: Requirements, r: Requirement)
    requires WellFiled(rs) && r.Normal()
    ensures WellFiled(AddOne(rs, r))
  {
    if r.key in rs {
      IntersectionNormal(r, rs[r.key]);
    }
  }

  lemma {:induction false} AddWellFiled(rs: Requirements, list: seq<Requirement>)
    requires WellFiled(rs) && AllNormal(list)
    ensures WellFiled(Add(rs, list))
    decreases |list|
  {
    if list != [] {
      AddOneWellFiled(rs, list[0]);
      AddWellFiled(AddOne(rs, list[0]), list[1..]);
    }
  }

  /** The strings a map of requirements admits for a label: all of them when the label is not mentioned. */
  predicate Admits(rs: Requirements, key: string, s: string) {
    key in rs ==> rs[key].Has(s)
  }

  /** Adding a list is conjunction, label by label. */
  lemma {:induction false} AddIsConjunction(rs: Requirements, list: seq<Requirement>, key: string, s: string)
    ensures Admits(Add(rs, list), key, s) <==> Admits(rs, key, s) && forall r :: r in list && r.key == key ==> r.Has(s)
    decreases |list|
  {
    if list != [] {
      var first := list[0];
      AddIsConjunction(AddOne(rs, first), list[1..], key, s);
      if first.key in rs {
        IntersectionExact(first, rs[first.key], s);
      }
      assert forall r :: r in list <==> r == first || r in list[1..];
    }
  }

  function MinOf(rs: Requirements, key: string): Option<int> {
    if key in rs then rs[key].minValues else None
  }

  function MaxMinimum(list: seq<Requirement>, key: string): Option<int>
    decreases |list|
  {
    if list == [] then None
    else MaxOpt(if list[0].key == key then list[0].minValues else None, MaxMinimum(list[1..], key))
  }

  /** The label's minimum is the largest minimum anyone asked for. */
  lemma {:induction false} AddTakesLargestMinimum(rs: Requirements, list: seq<Requirement>, key: string)
    ensures MinOf(Add(rs, list), key) == MaxOpt(MinOf(rs, key), MaxMinimum(list, key))
    decreases |list|
  {
    if list != [] {
      AddTakesLargestMinimum(AddOne(rs, list[0]), list[1..], key);
      OptAssociates(MinOf(rs, key), list[0].minValues, MaxMinimum(list[1..], key));
    }
  }

  /* ----- order ----- */

  lemma AddSwaps(rs: Requirements, a: Requirement, b: Requirement)
    requires WellFiled(rs) && a.Normal() && b.Normal()
    ensures AddOne(AddOne(rs, a), b) == AddOne(AddOne(rs, b), a)
  {
    if a.key == b.key {
      IntersectionCommutes(a, b);
      if a.key in rs {
        var e := rs[a.key];
        IntersectionAssociates(b, a, e);
        IntersectionAssociates(a, b, e);
      }
    }
  }

  lemma {:induction false} AddMovesToFront(rs: Requirements, before: seq<Requirement>, r: Requirement, after: seq<Requirement>)
    requires WellFiled(rs) && AllNormal(before) && r.Normal() && AllNormal(after)
    ensures Add(rs, before + [r] + after) == Add(rs, [r] + before + after)
    decreases |before|
  {
    if before == [] {
      assert before + [r] + after == [r] + before + after;
    } else {
      var first, rest := before[0], before[1..];
      AddOneWellFiled(rs, first);
      AddOneWellFiled(rs, r);
      AddMovesToFront(AddOne(rs, first), rest, r, after);
      AddSwaps(rs, first, r);
      assert (before + [r] + after)[1..] == rest + [r] + after;
      assert ([r] + rest + after)[1..] == rest + after;
      assert ([r] + before + after)[1..] == before + after;
      assert (before + after)[1..] == rest + after;
    }
  }

  /** Takes one occurrence of ys' first element out of xs. */
  lemma TakeOut<T>(xs: seq<T>, ys: seq<T>) returns (before: seq<T>, after: seq<T>)
    requires multiset(xs) == multiset(ys) && ys != []
    ensures xs == before + [ys[0]] + after
    ensures multiset(before + after) == multiset(ys[1..])
  {
    assert ys == [ys[0]] + ys[1..];
    assert ys[0] in multiset(xs);
    var i :| 0 <= i < |xs| && xs[i] == ys[0];
    before, after := xs[..i], xs[i + 1..];
    assert xs == before + [ys[0]] + after;
    assert multiset(xs) == multiset(before) + multiset{ys[0]} + multiset(after);
    assert multiset(ys) == multiset{ys[0]} + multiset(ys[1..]);
    assert multiset(before + after) == multiset(before) + multiset(after) == multiset(xs) - multiset{ys[0]};
  }

  lemma AllNormalParts(xs: seq<Requirement>, before: seq<Requirement>, r: Requirement, after: seq<Requirement>)
    requires AllNormal(xs) && xs == before + [r] + after
    ensures AllNormal(before) && r.Normal() && AllNormal(after) && AllNormal(before + after)
  {
    assert forall x :: x in before ==> x in xs;
    assert forall x :: x in after ==> x in xs;
    assert xs[|before|] == r;
  }

  /** Adding the same requirements in any order gives the same map, down to representation. */
  lemma {:induction false} OrderDoesNotMatter(rs: Requirements, xs: seq<Requirement>, ys: seq<Requirement>)
    requires WellFiled(rs) && AllNormal(xs) && multiset(xs) == multiset(ys)
    ensures Add(rs, xs) == Add(rs, ys)
    decreases |xs|
  {
    if ys == [] {
      assert |multiset(xs)| == 0;
    } else {
      var r := ys[0];
      var before, after := TakeOut(xs, ys);
      AllNormalParts(xs, before, r, after);
      AddMovesToFront(rs, before, r, after);
      assert [r] + before + after == [r] + (before + after);
      assert ([r] + (before + after))[1..] == before + after;
      AddOneWellFiled(rs, r);
      OrderDoesNotMatter(AddOne(rs, r), before + after, ys[1..]);
    }
  }

  /* ----- the constructor ----- */

  datatype Selector = Selector(key: string, op: Operator, values: seq<string>, minValues: Option<int>) {
    /** Prevalidated: a comparison carries its operand. */
    predicate Valid() {
      op in {Gt, Lt, Gte, Lte} ==> values != []
    }
  }

  function SetOf(values: seq<string>): set<string> {
    set v | v in values
  }

  function Read(s: Selector): Requirement
    requires s.Valid()
  {
    match s.op
    case In => Requirement(s.key, false, SetOf(s.values), None, None, s.minValues)
    case DoesNotExist => Requirement(s.key, false, {}, None, None, s.minValues)
    case NotIn => Requirement(s.key, true, SetOf(s.values), None, None, s.minValues)
    case Exists => Requirement(s.key, true, {}, None, None, s.minValues)
    case Gt =>
      var n := Atoi(s.values[0]).Value();
      if n == MAX64 then Requirement(s.key, false, {}, None, None, None)
      else Requirement(s.key, true, {}, Some(n + 1), None, s.minValues)
    case Lt => Requirement(s.key, true, {}, None, Some(Wrap64(Atoi(s.values[0]).Value() - 1)), s.minValues)
    case Gte => Requirement(s.key, true, {}, Some(Atoi(s.values[0]).Value()), None, s.minValues)
    case Lte => Requirement(s.key, true, {}, None, Some(Atoi(s.values[0]).Value()), s.minValues)
  }

  lemma ReadIsNormal(s: Selector)
    requires s.Valid()
    ensures Read(s).Normal()
  {
  }

  /** What an operator means of a string, read off the Kubernetes API. */
  ghost predicate Matches(s: Selector, v: string)
    requires s.Valid()
  {
    var p := Atoi(v);
    match s.op
    case In => v in s.values
    case NotIn => v !in s.values
    case Exists => true
    case DoesNotExist => false
    case Gt => p.Ok? && Atoi(s.values[0]).Ok? && p.n > Atoi(s.values[0]).n
    case Lt => p.Ok? && Atoi(s.values[0]).Ok? && p.n < Atoi(s.values[0]).n
    case Gte => p.Ok? && Atoi(s.values[0]).Ok? && p.n >= Atoi(s.values[0]).n
    case Lte => p.Ok? && Atoi(s.values[0]).Ok? && p.n <= Atoi(s.values[0]).n
  }

  /**
   A selector admits what its operator says, for every string, if and only if it is not "less than the smallest
   integer", whose bound wraps around.
   */
  lemma ReadMeaning(s: Selector)
    requires s.Valid() && (s.op in {Gt, Lt, Gte, Lte} ==> Atoi(s.values[0]).Ok?)
    ensures (forall v :: Read(s).Has(v) <==> Matches(s, v)) <==> !(s.op == Lt && Atoi(s.values[0]).n == MIN64)
  {
    if s.op == Lt && Atoi(s.values[0]).n == MIN64 {
      assert Read(s).lte == Some(MAX64);
      NumeralReads(0, 0);
      assert Read(s).Has(Numeral(0, 0)) && !Matches(s, Numeral(0, 0));
    } else if s.op == Lt {
      var n := Atoi(s.values[0]).n;
      assert Wrap64(n - 1) == n - 1;
    }
  }

  /* ----- printing and re-reading ----- */

  /** Some listing of a finite set; the code sorts, which does not matter to who reads it back. */
  ghost function Listing(values: set<string>): (list: seq<string>)
    ensures SetOf(list) == values
    decreases |values|
  {
    if values == {} then [] else
    var v :| v in values;
    var rest := Listing(values - {v});
    assert SetOf([v] + rest) == {v} + SetOf(rest);
    [v] + rest
  }

  ghost function Print(r: Requirement): (printed: seq<Selector>)
    requires r.Machine()
    ensures forall s :: s in printed ==> s.Valid() && s.key == r.key
  {
    if r.gte.Some? && r.lte.Some? then
      [Selector(r.key, Gte, [Itoa(r.gte.value)], r.minValues), Selector(r.key, Lte, [Itoa(r.lte.value)], r.minValues)]
    else if r.gte.Some? then [Selector(r.key, Gte, [Itoa(r.gte.value)], r.minValues)]
    else if r.lte.Some? then [Selector(r.key, Lte, [Itoa(r.lte.value)], r.minValues)]
    else if r.complement then
      if |r.values| > 0 then [Selector(r.key, NotIn, Listing(r.values), r.minValues)] else [Selector(r.key, Exists, [], r.minValues)]
    else
      if |r.values| > 0 then [Selector(r.key, In, Listing(r.values), r.minValues)] else [Selector(r.key, DoesNotExist, [], r.minValues)]
  }

  function ReadAll(list: seq<Selector>): seq<Requirement>
    requires forall s :: s in list ==> s.Valid()
  {
    if list == [] then [] else [Read(list[0])] + ReadAll(list[1..])
  }

  /** "Greater than the largest integer" is read as "does not exist", without the minimum. */
  predicate DropsMinimum(s: Selector)
    requires s.Valid()
  {
    s.op == Gt && Atoi(s.values[0]).Value() == MAX64
  }

  /** The largest minimum asked for a label by the selectors that lose it, or by those that keep it. */
  function LargestAsked(list: seq<Selector>, key: string, lost: bool): Option<int>
    requires forall s :: s in list ==> s.Valid()
  {
    if list == [] then None
    else MaxOpt(if list[0].key == key && DropsMinimum(list[0]) == lost then list[0].minValues else None, LargestAsked(list[1..], key, lost))
  }

  predicate AtLeast(a: Option<int>, b: Option<int>) {
    b.Some? ==> a.Some? && a.value >= b.value
  }

  lemma {:induction false} ReadAllMinimum(list: seq<Selector>, key: string)
    requires forall s :: s in list ==> s.Valid()
    ensures MaxMinimum(ReadAll(list), key) == LargestAsked(list, key, false)
  {
    if list != [] {
      ReadAllMinimum(list[1..], key);
      assert ReadAll(list)[1..] == ReadAll(list[1..]);
    }
  }

  /**
   A label gets the largest minimum that the selectors ask for if and only if those that lose theirs ask for no more
   than is asked for by the others and was there already.
   */
  lemma ReadKeepsMinimumIff(rs: Requirements, list: seq<Selector>, key: string)
    requires forall s :: s in list ==> s.Valid()
    ensures
      var asked := MaxOpt(MinOf(rs, key), MaxOpt(LargestAsked(list, key, false), LargestAsked(list, key, true)));
      MinOf(Add(rs, ReadAll(list)), key) == asked
      <==> AtLeast(MaxOpt(MinOf(rs, key), LargestAsked(list, key, false)), LargestAsked(list, key, true))
  {
    AddTakesLargestMinimum(rs, ReadAll(list), key);
    ReadAllMinimum(list, key);
  }

  /** A bound and excluded values at once: what printing cannot express. */
  predicate Mixed(r: Requirement) {
    (r.gte.Some? || r.lte.Some?) && r.values != {}
  }

  /** What comes back after printing and reading a requirement in normal form. */
  function Reread(r: Requirement): Requirement {
    if r.gte.Some? || r.lte.Some? then r.(values := {}) else r
  }

  lemma {:induction false} AddAppends(rs: Requirements, xs: seq<Requirement>, ys: seq<Requirement>)
    ensures Add(rs, xs + ys) == Add(Add(rs, xs), ys)
    decreases |xs|
  {
    if xs == [] {
      assert xs + ys == ys;
    } else {
      assert (xs + ys)[1..] == xs[1..] + ys;
      AddAppends(AddOne(rs, xs[0]), xs[1..], ys);
    }
  }

  lemma AddSingle(rs: Requirements, r: Requirement)
    ensures Add(rs, [r]) == AddOne(rs, r)
  {
    assert [r][1..] == [];
  }

  lemma AddPair(rs: Requirements, a: Requirement, b: Requirement)
    ensures Add(rs, [a, b]) == AddOne(AddOne(rs, a), b)
  {
    assert [a, b][1..] == [b];
    AddSingle(AddOne(rs, a), b);
  }

  lemma ReadPair(a: Selector, b: Selector)
    requires a.Valid() && b.Valid()
    ensures ReadAll([a]) == [Read(a)]
    ensures ReadAll([a, b]) == [Read(a), Read(b)]
  {
    assert [a][1..] == [] && [a, b][1..] == [b] && [b][1..] == [];
  }

  /** A printed bound reads back as that bound. */
  lemma ReadBound(key: string, n: Int64, m: Option<int>)
    ensures Read(Selector(key, Gte, [Itoa(n)], m)) == Requirement(key, true, {}, Some(n), None, m)
    ensures Read(Selector(key, Lte, [Itoa(n)], m)) == Requirement(key, true, {}, None, Some(n), m)
  {
    NumeralReads(n, 0);
  }

  lemma JoinBounds(key: string, g: int, l: int, m: Option<int>)
    requires g <= l
    ensures Requirement(key, true, {}, None, Some(l), m).Intersection(Requirement(key, true, {}, Some(g), None, m))
         == Requirement(key, true, {}, Some(g), Some(l), m)
  {
  }

  lemma RereadInterval(rs: Requirements, r: Requirement)
    requires r.Normal() && r.key !in rs && r.gte.Some? && r.lte.Some?
    ensures Add(rs, ReadAll(Print(r))) == rs[r.key := Reread(r)]
  {
    var g, l, m := r.gte.value, r.lte.value, r.minValues;
    ReadBound(r.key, g, m);
    ReadBound(r.key, l, m);
    ReadPair(Selector(r.key, Gte, [Itoa(g)], m), Selector(r.key, Lte, [Itoa(l)], m));
    AddPair(rs, Requirement(r.key, true, {}, Some(g), None, m), Requirement(r.key, true, {}, None, Some(l), m));
    JoinBounds(r.key, g, l, m);
  }

  lemma RereadSingle(r: Requirement)
    requires r.Normal() && (r.gte.None? || r.lte.None?)
    ensures |Print(r)| == 1 && Read(Print(r)[0]) == Reread(r)
  {
    if r.gte.Some? {
      ReadBound(r.key, r.gte.value, r.minValues);
    } else if r.lte.Some? {
      ReadBound(r.key, r.lte.value, r.minValues);
    }
  }

  lemma RereadOne(rs: Requirements, r: Requirement)
    requires r.Normal() && r.key !in rs
    ensures Add(rs, ReadAll(Print(r))) == rs[r.key := Reread(r)]
  {
    if r.gte.Some? && r.lte.Some? {
      RereadInterval(rs, r);
    } else {
      RereadSingle(r);
      var printed := Print(r);
      assert printed == [printed[0]];
      ReadPair(printed[0], printed[0]);
      AddSingle(rs, Reread(r));
    }
  }

  /** The whole map, printed in any key order. */
  ghost function PrintAll(rs: Requirements, keys: seq<string>): (printed: seq<Selector>)
    requires WellFiled(rs) && forall k :: k in keys ==> k in rs
    ensures forall s :: s in printed ==> s.Valid()
  {
    if keys == [] then [] else Print(rs[keys[0]]) + PrintAll(rs, keys[1..])
  }

  lemma {:induction false} ReadAllAppends(xs: seq<Selector>, ys: seq<Selector>)
    requires (forall s :: s in xs ==> s.Valid()) && forall s :: s in ys ==> s.Valid()
    ensures ReadAll(xs + ys) == ReadAll(xs) + ReadAll(ys)
  {
    if xs == [] {
      assert xs + ys == ys;
    } else {
      ReadAllAppends(xs[1..], ys);
      assert (xs + ys)[0] == xs[0] && (xs + ys)[1..] == xs[1..] + ys;
      assert [Read(xs[0])] + (ReadAll(xs[1..]) + ReadAll(ys)) == [Read(xs[0])] + ReadAll(xs[1..]) + ReadAll(ys);
    }
  }

  function RereadMap(rs: Requirements, keys: seq<string>): Requirements
    requires forall k :: k in keys ==> k in rs
  {
    map k | k in keys :: Reread(rs[k])
  }

  lemma RereadStep(done: Requirements, rs: Requirements, keys: seq<string>)
    requires WellFiled(rs) && keys != [] && (forall k :: k in keys ==> k in rs) && keys[0] !in done
    ensures Add(done, ReadAll(PrintAll(rs, keys))) == Add(done[keys[0] := Reread(rs[keys[0]])], ReadAll(PrintAll(rs, keys[1..])))
  {
    var k, rest := keys[0], keys[1..];
    ReadAllAppends(Print(rs[k]), PrintAll(rs, rest));
    AddAppends(done, ReadAll(Print(rs[k])), ReadAll(PrintAll(rs, rest)));
    RereadOne(done, rs[k]);
  }

  lemma RereadMapStep(done: Requirements, rs: Requirements, keys: seq<string>)
    requires Distinct(keys) && keys != [] && forall k :: k in keys ==> k in rs && k !in done
    ensures
      var next := done[keys[0] := Reread(rs[keys[0]])];
      && (forall k :: k in keys[1..] ==> k in rs && k !in next)
      && next + RereadMap(rs, keys[1..]) == done + RereadMap(rs, keys)
  {
    assert forall k :: k in keys <==> k == keys[0] || k in keys[1..];
    assert keys[0] !in keys[1..];
  }

  lemma {:induction false} RereadAll(done: Requirements, rs: Requirements, keys: seq<string>)
    requires WellFiled(rs) && Distinct(keys) && forall k :: k in keys ==> k in rs && k !in done
    ensures Add(done, ReadAll(PrintAll(rs, keys))) == done + RereadMap(rs, keys)
    decreases |keys|
  {
    if keys == [] {
      assert done + RereadMap(rs, keys) == done;
      assert ReadAll(PrintAll(rs, keys)) == [];
    } else {
      RereadStep(done, rs, keys);
      RereadMapStep(done, rs, keys);
      RereadAll(done[keys[0] := Reread(rs[keys[0]])], rs, keys[1..]);
    }
  }

  /** Printing a map and reading it back gives the same map if and only if no requirement mixes a bound with exclusions. */
  lemma RoundTripIff(rs: Requirements, keys: seq<string>)
    requires WellFiled(rs) && Distinct(keys) && SetOf(keys) == rs.Keys
    ensures Add(map[], ReadAll(PrintAll(rs, keys))) == rs <==> forall k :: k in rs ==> !Mixed(rs[k])
  {
    forall k | k in keys
      ensures k in rs
    {
      assert k in SetOf(keys);
    }
    RereadAll(map[], rs, keys);
    assert map[] + RereadMap(rs, keys) == RereadMap(rs, keys);
    var back := Add(map[], ReadAll(PrintAll(rs, keys)));
    forall k | k in rs
      ensures k in back && back[k] == Reread(rs[k])
      ensures Reread(rs[k]) == rs[k] <==> !Mixed(rs[k])
    {
      assert k in SetOf(keys);
    }
  }

  /** What comes back is never narrower, and is wider exactly when a bound was mixed with exclusions. */
  lemma RereadWidensIff(r: Requirement)
    requires r.Normal()
    ensures forall s :: r.Has(s) ==> Reread(r).Has(s)
    ensures (exists s :: Reread(r).Has(s) && !r.Has(s)) <==> Mixed(r)
    ensures Reread(r).minValues == r.minValues
  {
    if Mixed(r) {
      var s :| s in r.values;
      assert Reread(r).Has(s) && !r.Has(s);
    }
  }

  /* ----- compatibility ----- */

  predicate Absent(r: Requirement) {
    r.Op() == NotIn || r.Op() == DoesNotExist
  }

  /**
   A requirement tolerates absence if and only if it admits nothing, or it is a complement that excludes something its
   bounds would let through.
   */
  lemma AbsentMeaning(r: Requirement)
    requires r.Normal()
    ensures Absent(r) <==> (forall s :: !r.Has(s)) || (r.complement && exists s :: WithinBounds(s, r.gte, r.lte) && !r.Has(s))
  {
    EmptyIsDoesNotExist(r);
    if r.values != {} {
      var v :| v in r.values;
      assert r.complement ==> WithinBounds(v, r.gte, r.lte) && !r.Has(v);
    }
  }

  /** One label of Intersects. */
  predicate Agree(existing: Requirement, incoming: Requirement) {
    existing.HasIntersection(incoming) || (Absent(incoming) && Absent(existing))
  }

  predicate Intersects(rs: Requirements, incoming: Requirements) {
    forall k :: k in rs && k in incoming ==> Agree(rs[k], incoming[k])
  }

  predicate Compatible(rs: Requirements, incoming: Requirements, allowUndefined: set<string>) {
    && (forall k :: k in incoming && k !in allowUndefined ==> k in rs || Absent(incoming[k]))
    && Intersects(rs, incoming)
  }

  /** Compatible means: on every shared label a common string, unless both sides tolerate its absence. */
  lemma CompatibleMeaning(rs: Requirements, incoming: Requirements, allowUndefined: set<string>)
    requires WellFiled(rs) && WellFiled(incoming)
    ensures Compatible(rs, incoming, allowUndefined) <==>
      && (forall k :: k in incoming && k !in rs ==> k in allowUndefined || Absent(incoming[k]))
      && (forall k :: k in incoming && k in rs ==>
            (exists s :: rs[k].Has(s) && incoming[k].Has(s)) || (Absent(rs[k]) && Absent(incoming[k])))
  {
    forall k | k in rs && k in incoming
      ensures rs[k].HasIntersection(incoming[k]) <==> exists s :: rs[k].Has(s) && incoming[k].Has(s)
    {
      HasIntersectionExact(rs[k], incoming[k]);
    }
  }

  /** A value that one of two complements excludes, within the bounds of both. */
  ghost predicate SharedExclusion(a: Requirement, b: Requirement) {
    && a.complement && b.complement
    && exists v :: v in a.values + b.values && WithinBounds(v, MaxOpt(a.gte, b.gte), MinOpt(a.lte, b.lte))
  }

  /**
   An intersection tolerates absence if and only if there is nothing in it, or both sides are complements and one excludes
   something that the bounds of both let through.
   */
  lemma AbsentIntersectionIff(a: Requirement, b: Requirement)
    ensures Absent(a.Intersection(b)) <==> !a.HasIntersection(b) || SharedExclusion(a, b)
  {
    var g, l := MaxOpt(a.gte, b.gte), MinOpt(a.lte, b.lte);
    var both, values := a.complement && b.complement, a.Intersection(b).values;
    if !Crossing(g, l) {
      if both {
        assert values != {} <==> exists v :: v in a.values + b.values && WithinBounds(v, g, l) by {
          assert forall v :: v in values <==> v in a.values + b.values && WithinBounds(v, g, l);
        }
      } else {
        assert values != {} <==> exists v :: v in values;
        assert forall v :: v in values <==> WithinBounds(v, g, l) && (if a.complement then v !in a.values else v in a.values) && (if b.complement then v !in b.values else v in b.values);
      }
    }
  }

  /**
   Narrowing is not monotone. If two requirements disagree, narrowing one by a third makes them agree if and only
   if the other side tolerates absence and either the third has nothing in common with the first, or both are
   complements and one excludes something within their joint bounds.
   */
  lemma NarrowingRepairsIff(existing: Requirement, incoming: Requirement, extra: Requirement)
    requires existing.Normal() && incoming.Normal() && extra.Normal()
    requires !Agree(existing, incoming)
    ensures Agree(extra.Intersection(existing), incoming) <==>
      Absent(incoming) && (!extra.HasIntersection(existing) || SharedExclusion(extra, existing))
  {
    var narrowed := extra.Intersection(existing);
    IntersectionNormal(extra, existing);
    HasIntersectionExact(existing, incoming);
    HasIntersectionExact(narrowed, incoming);
    if s :| narrowed.Has(s) && incoming.Has(s) {
      IntersectionExact(extra, existing, s);
      assert false;
    }
    AbsentIntersectionIff(extra, existing);
  }

  /** It happens: In {a} and NotIn {a} disagree, and adding In {b} makes them agree. */
  lemma NarrowingCanRepair(key: string)
    ensures
      var existing := Requirement(key, false, {"a"}, None, None, None);
      var incoming := Requirement(key, true, {"a"}, None, None, None);
      var extra := Requirement(key, false, {"b"}, None, None, None);
      !Agree(existing, incoming) && Agree(extra.Intersection(existing), incoming)
  {
    var existing := Requirement(key, false, {"a"}, None, None, None);
    var extra := Requirement(key, false, {"b"}, None, None, None);
    assert extra.Intersection(existing).values == {};
  }

  /* ----- the loops ----- */

  method AddInPlace(rs: Requirements, list: seq<Requirement>) returns (out: Requirements)
    ensures out == Add(rs, list)
  {
    out := rs;
    var i := 0;
    while i < |list|
      invariant 0 <= i <= |list|
      invariant Add(rs, list) == Add(out, list[i..])
    {
      var r := list[i];
      assert list[i..][1..] == list[i + 1..];
      if r.key in out {
        r := Intersect(r, out[r.key]);
      }
      out := out[r.key := r];
      i := i + 1;
    }
    assert list[|list|..] == [];
  }

  /** NewNodeSelectorRequirementsWithMinValues. */
  method ReadSelectors(list: seq<Selector>) returns (out: Requirements)
    requires forall s :: s in list ==> s.Valid()
    ensures out == Add(map[], ReadAll(list))
    ensures WellFiled(out)
  {
    out := map[];
    var i := 0;
    while i < |list|
      invariant 0 <= i <= |list|
      invariant WellFiled(out)
      invariant Add(map[], ReadAll(list)) == Add(out, ReadAll(list[i..]))
    {
      assert list[i..][1..] == list[i + 1..];
      ReadIsNormal(list[i]);
      AddOneWellFiled(out, Read(list[i]));
      ghost var before := out;
      out := AddInPlace(out, [Read(list[i])]);
      assert Add(before, [Read(list[i])]) == AddOne(before, Read(list[i]));
      i := i + 1;
    }
    assert list[|list|..] == [];
  }
}
