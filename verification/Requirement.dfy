/**
 One scheduling requirement on a label: a finite set of strings or the complement of one, with
 optional integer bounds. Intersection is exact, the fast emptiness test agrees with it,
 and intersecting requirements in normal form is commutative and associative.
 */
module RequirementAlgebra {
  import opened Common
  import opened Numerals

  datatype Operator = In | NotIn | Exists | DoesNotExist | Gt | Lt | Gte | Lte

  function MaxOpt(a: Option<int>, b: Option<int>): Option<int> {
    if a.None? then b else if b.None? then a else if a.value > b.value then a else b
  }

  function MinOpt(a: Option<int>, b: Option<int>): Option<int> {
    if a.None? then b else if b.None? then a else if a.value < b.value then a else b
  }

  predicate WithinBounds(s: string, gte: Option<int>, lte: Option<int>) {
    var p := Atoi(s);
    || (gte.None? && lte.None?)
    || (p.Ok? && (gte.Some? ==> p.n >= gte.value) && (lte.Some? ==> p.n <= lte.value))
  }

  predicate Crossing(gte: Option<int>, lte: Option<int>) {
    gte.Some? && lte.Some? && gte.value > lte.value
  }

  datatype Requirement = Requirement(
    key: string, complement: bool, values: set<string>,
    gte: Option<int>, lte: Option<int>, minValues: Option<int>)
  {
    predicate Has(s: string) {
      (if complement then s !in values else s in values) && WithinBounds(s, gte, lte)
    }

    function Op(): Operator {
      if complement then if |values| > 0 then NotIn else Exists
      else if |values| > 0 then In else DoesNotExist
    }

    /** Bounds are machine integers. */
    predicate Machine() {
      (gte.Some? ==> MIN64 <= gte.value <= MAX64) && (lte.Some? ==> MIN64 <= lte.value <= MAX64)
    }

    /** What the constructor and Intersection produce: bounds only on complements, not crossing, and no useless exclusion. */
    predicate Normal() {
      && Machine()
      && (!complement ==> gte.None? && lte.None?)
      && !Crossing(gte, lte)
      && (complement ==> forall v :: v in values ==> WithinBounds(v, gte, lte))
    }

    function Intersection(that: Requirement): Requirement {
      var g, l := MaxOpt(gte, that.gte), MinOpt(lte, that.lte);
      var m := MaxOpt(minValues, that.minValues);
      if Crossing(g, l) then Requirement(key, false, {}, None, None, m) else
      var both := complement && that.complement;
      var vs :=
        if both then values + that.values
        else if complement then that.values - values
        else if that.complement then values - that.values
        else values * that.values;
      var kept := set v | v in vs && WithinBounds(v, g, l);
      Requirement(key, both, kept, if both then g else None, if both then l else None, m)
    }

    predicate HasIntersection(that: Requirement) {
      var g, l := MaxOpt(gte, that.gte), MinOpt(lte, that.lte);
      !Crossing(g, l) &&
      if complement && that.complement then true
      else if complement then exists v :: v in that.values && v !in values && WithinBounds(v, g, l)
      else if that.complement then exists v :: v in values && v !in that.values && WithinBounds(v, g, l)
      else exists v :: v in values && v in that.values && WithinBounds(v, g, l)
    }
  }

  /* ----- meaning ----- */

  lemma BoundsMeet(s: string, a: Requirement, b: Requirement)
    ensures WithinBounds(s, MaxOpt(a.gte, b.gte), MinOpt(a.lte, b.lte))
       <==> WithinBounds(s, a.gte, a.lte) && WithinBounds(s, b.gte, b.lte)
  {
  }

  /** Intersection admits exactly the strings that both admit. */
  lemma IntersectionExact(a: Requirement, b: Requirement, s: string)
    ensures a.Intersection(b).Has(s) <==> a.Has(s) && b.Has(s)
  {
    BoundsMeet(s, a, b);
  }

  /** Some string lies within any bounds that do not cross, and avoids any finite set. */
  lemma SomethingWithin(gte: Option<int>, lte: Option<int>, excluded: set<string>) returns (s: string)
    requires !Crossing(gte, lte)
    requires gte.Some? ==> MIN64 <= gte.value <= MAX64
    requires lte.Some? ==> MIN64 <= lte.value <= MAX64
    ensures s !in excluded && WithinBounds(s, gte, lte)
  {
    s := FreshNumeral(excluded, if gte.Some? then gte.value else if lte.Some? then lte.value else 0);
  }

  /** The fast test answers yes exactly when some string is admitted by both. */
  lemma HasIntersectionExact(a: Requirement, b: Requirement)
    requires a.Machine() && b.Machine()
    ensures a.HasIntersection(b) <==> exists s :: a.Has(s) && b.Has(s)
  {
    var g, l := MaxOpt(a.gte, b.gte), MinOpt(a.lte, b.lte);
    if a.HasIntersection(b) {
      var s: string;
      if a.complement && b.complement {
        s := SomethingWithin(g, l, a.values + b.values);
      } else if a.complement {
        s :| s in b.values && s !in a.values && WithinBounds(s, g, l);
      } else if b.complement {
        s :| s in a.values && s !in b.values && WithinBounds(s, g, l);
      } else {
        s :| s in a.values && s in b.values && WithinBounds(s, g, l);
      }
      BoundsMeet(s, a, b);
      assert a.Has(s) && b.Has(s);
    }
    if s :| a.Has(s) && b.Has(s) {
      BoundsMeet(s, a, b);
    }
  }

  /** A requirement in normal form admits nothing exactly when it is DoesNotExist. */
  lemma EmptyIsDoesNotExist(r: Requirement)
    requires r.Normal()
    ensures (forall s :: !r.Has(s)) <==> r.Op() == DoesNotExist
  {
    if r.complement {
      var s := SomethingWithin(r.gte, r.lte, r.values);
      assert r.Has(s);
    } else if s :| s in r.values {
      assert r.Has(s);
    }
  }

  /* ----- algebra ----- */

  lemma IntersectionNormal(a: Requirement, b: Requirement)
    requires a.Normal() && b.Normal()
    ensures a.Intersection(b).Normal()
  {
  }

  lemma IntersectionCommutes(a: Requirement, b: Requirement)
    requires a.key == b.key
    ensures a.Intersection(b) == b.Intersection(a)
  {
  }

  /** In normal form a requirement is determined by what it admits, its bounds, its sign and its minimum. */
  lemma NormalFormIsUnique(a: Requirement, b: Requirement)
    requires a.Normal() && b.Normal()
    requires a.key == b.key && a.complement == b.complement && a.gte == b.gte && a.lte == b.lte && a.minValues == b.minValues
    requires forall s :: a.Has(s) <==> b.Has(s)
    ensures a == b
  {
    forall v
      ensures v in a.values <==> v in b.values
    {
      assert a.Has(v) <==> b.Has(v);
    }
  }

  lemma ComplementOf(a: Requirement, b: Requirement)
    requires a.Normal() && b.Normal()
    ensures a.Intersection(b).complement <==> a.complement && b.complement && !Crossing(MaxOpt(a.gte, b.gte), MinOpt(a.lte, b.lte))
    ensures a.Intersection(b).complement ==>
      a.Intersection(b).gte == MaxOpt(a.gte, b.gte) && a.Intersection(b).lte == MinOpt(a.lte, b.lte)
    ensures !a.Intersection(b).complement ==> a.Intersection(b).gte.None? && a.Intersection(b).lte.None?
    ensures a.Intersection(b).minValues == MaxOpt(a.minValues, b.minValues)
    ensures a.Intersection(b).key == a.key
  {
  }

  lemma OptAssociates(a: Option<int>, b: Option<int>, c: Option<int>)
    ensures MaxOpt(MaxOpt(a, b), c) == MaxOpt(a, MaxOpt(b, c))
    ensures MinOpt(MinOpt(a, b), c) == MinOpt(a, MinOpt(b, c))
  {
  }

  lemma CrossingPersists(g: Option<int>, l: Option<int>, g': Option<int>, l': Option<int>)
    requires Crossing(g, l)
    ensures Crossing(MaxOpt(g, g'), MinOpt(l, l')) && Crossing(MaxOpt(g', g), MinOpt(l', l))
  {
  }

  /** The order in which three requirements are combined does not matter, down to representation. */
  lemma IntersectionAssociates(a: Requirement, b: Requirement, c: Requirement)
    requires a.Normal() && b.Normal() && c.Normal() && a.key == b.key == c.key
    ensures a.Intersection(b).Intersection(c) == a.Intersection(b.Intersection(c))
  {
    var ab, bc := a.Intersection(b), b.Intersection(c);
    var left, right := ab.Intersection(c), a.Intersection(bc);
    IntersectionNormal(a, b);
    IntersectionNormal(b, c);
    IntersectionNormal(ab, c);
    IntersectionNormal(a, bc);
    OptAssociates(a.gte, b.gte, c.gte);
    OptAssociates(a.lte, b.lte, c.lte);
    OptAssociates(a.minValues, b.minValues, c.minValues);
    ComplementOf(a, b);
    ComplementOf(b, c);
    ComplementOf(ab, c);
    ComplementOf(a, bc);
    if Crossing(MaxOpt(a.gte, b.gte), MinOpt(a.lte, b.lte)) {
      CrossingPersists(MaxOpt(a.gte, b.gte), MinOpt(a.lte, b.lte), c.gte, c.lte);
    }
    if Crossing(MaxOpt(b.gte, c.gte), MinOpt(b.lte, c.lte)) {
      CrossingPersists(MaxOpt(b.gte, c.gte), MinOpt(b.lte, c.lte), a.gte, a.lte);
    }
    forall s
      ensures left.Has(s) <==> right.Has(s)
    {
      IntersectionExact(a, b, s);
      IntersectionExact(b, c, s);
      IntersectionExact(ab, c, s);
      IntersectionExact(a, bc, s);
    }
    NormalFormIsUnique(left, right);
  }

  /* ----- the loops ----- */

  /** The pruning loop of Intersection. */
  method Prune(values: set<string>, gte: Option<int>, lte: Option<int>) returns (kept: set<string>)
    ensures kept == set v | v in values && WithinBounds(v, gte, lte)
  {
    kept := values;
    var todo := values;
    while todo != {}
      invariant todo <= kept <= values
      invariant forall v :: v in values && v !in todo ==> (v in kept <==> WithinBounds(v, gte, lte))
      decreases todo
    {
      var v :| v in todo;
      if !WithinBounds(v, gte, lte) {
        kept := kept - {v};
      }
      todo := todo - {v};
    }
  }

  method Intersect(a: Requirement, b: Requirement) returns (r: Requirement)
    ensures r == a.Intersection(b)
    ensures forall s :: r.Has(s) <==> a.Has(s) && b.Has(s)
  {
    forall s {
      IntersectionExact(a, b, s);
    }
    var complement := a.complement && b.complement;
    var gte, lte := MaxOpt(a.gte, b.gte), MinOpt(a.lte, b.lte);
    var minValues := MaxOpt(a.minValues, b.minValues);
    if gte.Some? && lte.Some? && gte.value > lte.value {
      return Requirement(a.key, false, {}, None, None, minValues);
    }
    var values;
    if a.complement && b.complement {
      values := a.values + b.values;
    } else if a.complement {
      values := b.values - a.values;
    } else if b.complement {
      values := a.values - b.values;
    } else {
      values := a.values * b.values;
    }
    values := Prune(values, gte, lte);
    if !complement {
      gte, lte := None, None;
    }
    return Requirement(a.key, complement, values, gte, lte, minValues);
  }

  /** Scans a set for a value within bounds that is, or is not, in another set. */
  method Scan(values: set<string>, other: set<string>, wanted: bool, gte: Option<int>, lte: Option<int>) returns (found: bool)
    ensures found <==> exists v :: v in values && (v in other <==> wanted) && WithinBounds(v, gte, lte)
  {
    var todo := values;
    while todo != {}
      invariant todo <= values
      invariant forall v :: v in values && v !in todo ==> !((v in other <==> wanted) && WithinBounds(v, gte, lte))
      decreases todo
    {
      var v :| v in todo;
      if (v in other) == wanted && WithinBounds(v, gte, lte) {
        return true;
      }
      todo := todo - {v};
    }
    return false;
  }

  /** HasIntersection without building a set, and what its answer means. */
  method FastHasIntersection(a: Requirement, b: Requirement) returns (yes: bool)
    requires a.Machine() && b.Machine()
    ensures yes <==> exists s :: a.Has(s) && b.Has(s)
    ensures yes == a.HasIntersection(b)
  {
    HasIntersectionExact(a, b);
    var gte, lte := MaxOpt(a.gte, b.gte), MinOpt(a.lte, b.lte);
    if gte.Some? && lte.Some? && gte.value > lte.value {
      return false;
    }
    if a.complement && b.complement {
      return true;
    }
    if a.complement {
      yes := Scan(b.values, a.values, false, gte, lte);
    } else if b.complement {
      yes := Scan(a.values, b.values, false, gte, lte);
    } else {
      yes := Scan(a.values, b.values, true, gte, lte);
    }
  }
}
