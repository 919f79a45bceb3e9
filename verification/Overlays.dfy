/**
 Folding node overlays into the instance-type store. Overlays are taken in descending weight order; each is either
 rejected as conflicting or stored as a whole. The store is shown to be a function of the accepted
 overlays, and the conflict test to be exact for prices and, for capacity, exact about the last accepted
 overlay only.
 */
module Overlays {
  import opened Common

  type Resources = map<string, int>

  datatype Overlay = Overlay(name: string, weight: Option<int>, price: Option<string>, priceAdjustment: Option<string>,
                             capacity: Option<Resources>)
  {
    function Weight(): int {
      if weight.Some? then weight.value else 0
    }

    function Change(): Option<string> {
      if price.None? then priceAdjustment else price
    }
  }

  /** An instance type of a NodePool. */
  datatype Place = Place(pool: string, instanceType: string)

  /** The offerings of an instance type that an overlay's requirements select; none means it selects nothing there. */
  type Selection = (Overlay, Place) -> seq<string>

  datatype PriceUpdate = PriceUpdate(change: string, lowestWeight: Option<int>)

  datatype Update = Update(price: map<string, PriceUpdate>, capacity: Resources,
                           lowestWeightResources: set<string>, lowestWeight: Option<int>)

  type Store = map<Place, Update>

  const NO_UPDATE := Update(map[], map[], {}, None)

  function WeightOf(w: Option<int>): int {
    if w.Some? then w.value else 0
  }

  /** An overlay without a weight weighs nothing, and a price goes before a price adjustment. */
  lemma OverlayMeaning(o: Overlay)
    ensures o.weight.None? ==> o.Weight() == 0
    ensures o.weight.Some? ==> o.Weight() == o.weight.value
    ensures o.price.Some? ==> o.Change() == o.price
    ensures o.price.None? ==> o.Change() == o.priceAdjustment
  {
  }

  /* ----- storing ----- */

  function WithPrices(u: Update, o: Overlay, offerings: seq<string>): Update
    requires o.Change().Some?
  {
    u.(price := map k | k in u.price.Keys + (set of | of in offerings) ::
        if k !in offerings then u.price[k]
        else if k in u.price then u.price[k].(lowestWeight := o.weight)
        else PriceUpdate(o.Change().value, o.weight))
  }

  function WithCapacity(u: Update, o: Overlay): Update
    requires o.capacity.Some?
  {
    Update(u.price, o.capacity.value + u.capacity, o.capacity.value.Keys, o.weight)
  }

  /** What storing an overlay does at one place it selects. */
  function Stored(u: Update, o: Overlay, offerings: seq<string>): Update {
    var priced := if o.Change().Some? then WithPrices(u, o, offerings) else u;
    if o.capacity.Some? then WithCapacity(priced, o) else priced
  }

  predicate Touches(o: Overlay, offerings: seq<string>) {
    offerings != [] && (o.Change().Some? || o.capacity.Some?)
  }

  function StoreAt(store: Store, place: Place, o: Overlay, offerings: seq<string>): Store {
    if !Touches(o, offerings) then store
    else store[place := Stored(Lookup(store, place, NO_UPDATE), o, offerings)]
  }

  function StoreAll(store: Store, places: seq<Place>, sel: Selection, o: Overlay): Store
    decreases |places|
  {
    if places == [] then store
    else StoreAll(StoreAt(store, places[0], o, sel(o, places[0])), places[1..], sel, o)
  }

  /* ----- conflicts ----- */

  predicate PriceConflict(store: Store, place: Place, of: string, o: Overlay) {
    place in store && of in store[place].price && o.Weight() == WeightOf(store[place].price[of].lowestWeight)
  }

  predicate CapacityConflict(store: Store, place: Place, o: Overlay)
    requires o.capacity.Some?
  {
    && place in store && WeightOf(store[place].lowestWeight) == o.Weight()
    && exists r :: r in o.capacity.value && r in store[place].lowestWeightResources
  }

  predicate ConflictAt(store: Store, place: Place, o: Overlay, offerings: seq<string>) {
    && offerings != []
    && (|| (o.Change().Some? && exists of :: of in offerings && PriceConflict(store, place, of, o))
        || (o.capacity.Some? && CapacityConflict(store, place, o)))
  }

  predicate Conflicts(store: Store, places: seq<Place>, sel: Selection, o: Overlay) {
    exists place :: place in places && ConflictAt(store, place, o, sel(o, place))
  }

  /* ----- the fold ----- */

  datatype Fold = Fold(store: Store, accepted: seq<Overlay>, rejected: seq<Overlay>)

  function Take(f: Fold, places: seq<Place>, sel: Selection, o: Overlay): Fold {
    if Conflicts(f.store, places, sel, o) then f.(rejected := f.rejected + [o])
    else f.(store := StoreAll(f.store, places, sel, o), accepted := f.accepted + [o])
  }

  function FoldAll(overlays: seq<Overlay>, places: seq<Place>, sel: Selection): Fold {
    if overlays == [] then Fold(map[], [], [])
    else Take(FoldAll(overlays[..|overlays| - 1], places, sel), places, sel, overlays[|overlays| - 1])
  }

  /** OrderByWeight leaves the heaviest first. */
  ghost predicate Descending(os: seq<Overlay>) {
    forall i, j :: 0 <= i < j < |os| ==> os[i].Weight() >= os[j].Weight()
  }

  /* ----- the reference: what the accepted overlays say, without a store ----- */

  predicate Prices(o: Overlay, places: seq<Place>, sel: Selection, place: Place, of: string) {
    place in places && o.Change().Some? && of in sel(o, place)
  }

  predicate Caps(o: Overlay, places: seq<Place>, sel: Selection, place: Place) {
    place in places && o.capacity.Some? && sel(o, place) != []
  }

  predicate Sizes(o: Overlay, places: seq<Place>, sel: Selection, place: Place, r: string) {
    Caps(o, places, sel, place) && r in o.capacity.value
  }

  /** The first and the last overlay of a list with a property. */
  function First(os: seq<Overlay>, p: Overlay -> bool): Option<Overlay> {
    if os == [] then None else
    var before := First(os[..|os| - 1], p);
    if before.Some? then before else if p(os[|os| - 1]) then Some(os[|os| - 1]) else None
  }

  function Last(os: seq<Overlay>, p: Overlay -> bool): Option<Overlay> {
    if os == [] then None else if p(os[|os| - 1]) then Some(os[|os| - 1]) else Last(os[..|os| - 1], p)
  }

  lemma {:induction false} FirstIsHeaviest(os: seq<Overlay>, p: Overlay -> bool)
    requires Descending(os)
    ensures First(os, p).None? <==> forall o :: o in os ==> !p(o)
    ensures First(os, p).Some? ==> First(os, p).value in os && p(First(os, p).value)
    ensures First(os, p).Some? ==> forall o :: o in os && p(o) ==> First(os, p).value.Weight() >= o.Weight()
  {
    if os != [] {
      var init, last := os[..|os| - 1], os[|os| - 1];
      FirstIsHeaviest(init, p);
      assert forall o :: o in os <==> o in init || o == last;
    }
  }

  lemma {:induction false} LastIsLightest(os: seq<Overlay>, p: Overlay -> bool)
    requires Descending(os)
    ensures Last(os, p).None? <==> forall o :: o in os ==> !p(o)
    ensures Last(os, p).Some? ==> Last(os, p).value in os && p(Last(os, p).value)
    ensures Last(os, p).Some? ==> forall o :: o in os && p(o) ==> Last(os, p).value.Weight() <= o.Weight()
  {
    if os != [] {
      var init, last := os[..|os| - 1], os[|os| - 1];
      LastIsLightest(init, p);
      assert forall o :: o in os <==> o in init || o == last;
    }
  }

  function PriceBy(os: seq<Overlay>, places: seq<Place>, sel: Selection, place: Place, of: string): Option<PriceUpdate> {
    var p := (o: Overlay) => Prices(o, places, sel, place, of);
    var first, last := First(os, p), Last(os, p);
    if first.Some? && last.Some? && first.value.Change().Some? then Some(PriceUpdate(first.value.Change().value, last.value.weight)) else None
  }

  function SizeBy(os: seq<Overlay>, places: seq<Place>, sel: Selection, place: Place, r: string): Option<int> {
    var first := First(os, o => Sizes(o, places, sel, place, r));
    if first.Some? && first.value.capacity.Some? && r in first.value.capacity.value then Some(first.value.capacity.value[r]) else None
  }

  function LastCap(os: seq<Overlay>, places: seq<Place>, sel: Selection, place: Place): Option<Overlay> {
    Last(os, o => Caps(o, places, sel, place))
  }

  function Get<V>(m: map<string, V>, k: string): Option<V> {
    if k in m then Some(m[k]) else None
  }

  /** The place's update says what the accepted overlays say about it. */
  ghost predicate Faithful(u: Update, os: seq<Overlay>, places: seq<Place>, sel: Selection, place: Place) {
    && (forall of :: Get(u.price, of) == PriceBy(os, places, sel, place, of))
    && (forall r :: Get(u.capacity, r) == SizeBy(os, places, sel, place, r))
    && (match LastCap(os, places, sel, place)
        case None => u.lowestWeight == None && u.lowestWeightResources == {}
        case Some(o) => o.capacity.Some? && u.lowestWeight == o.weight && u.lowestWeightResources == o.capacity.value.Keys)
  }

  ghost predicate Represents(store: Store, os: seq<Overlay>, places: seq<Place>, sel: Selection) {
    forall place :: Faithful(Lookup(store, place, NO_UPDATE), os, places, sel, place)
  }

  /* ----- the store is a function of the accepted overlays ----- */

  lemma StoredTwice(u: Update, o: Overlay, offerings: seq<string>)
    ensures Stored(Stored(u, o, offerings), o, offerings) == Stored(u, o, offerings)
  {
  }

  lemma {:induction false} StoreAllAt(store: Store, places: seq<Place>, sel: Selection, o: Overlay, place: Place)
    ensures Lookup(StoreAll(store, places, sel, o), place, NO_UPDATE)
         == if place in places && Touches(o, sel(o, place)) then Stored(Lookup(store, place, NO_UPDATE), o, sel(o, place))
            else Lookup(store, place, NO_UPDATE)
    decreases |places|
  {
    if places != [] {
      StoreAllAt(StoreAt(store, places[0], o, sel(o, places[0])), places[1..], sel, o, place);
      if place == places[0] {
        StoredTwice(Lookup(store, place, NO_UPDATE), o, sel(o, place));
      }
    }
  }

  lemma FirstAppend(os: seq<Overlay>, o: Overlay, p: Overlay -> bool)
    ensures First(os + [o], p) == (if First(os, p).Some? then First(os, p) else if p(o) then Some(o) else None)
    ensures Last(os + [o], p) == (if p(o) then Some(o) else Last(os, p))
  {
    assert (os + [o])[..|os|] == os;
  }

  lemma PriceAppend(u: Update, os: seq<Overlay>, o: Overlay, places: seq<Place>, sel: Selection, place: Place, of: string)
    requires Get(u.price, of) == PriceBy(os, places, sel, place, of)
    requires place in places && Touches(o, sel(o, place))
    ensures Get(Stored(u, o, sel(o, place)).price, of) == PriceBy(os + [o], places, sel, place, of)
  {
    var p := (o: Overlay) => Prices(o, places, sel, place, of);
    FirstAppend(os, o, p);
    FirstLastAgree(os, p);
  }

  lemma {:induction false} FirstLastAgree(os: seq<Overlay>, p: Overlay -> bool)
    ensures First(os, p).Some? <==> Last(os, p).Some?
    ensures First(os, p).Some? ==> p(First(os, p).value) && p(Last(os, p).value)
  {
    if os != [] {
      FirstLastAgree(os[..|os| - 1], p);
    }
  }

  lemma SizeAppend(u: Update, os: seq<Overlay>, o: Overlay, places: seq<Place>, sel: Selection, place: Place, r: string)
    requires Get(u.capacity, r) == SizeBy(os, places, sel, place, r)
    requires place in places && Touches(o, sel(o, place))
    ensures Get(Stored(u, o, sel(o, place)).capacity, r) == SizeBy(os + [o], places, sel, place, r)
  {
    var p := (o: Overlay) => Sizes(o, places, sel, place, r);
    FirstAppend(os, o, p);
    FirstLastAgree(os, p);
  }

  lemma NothingAppended(os: seq<Overlay>, o: Overlay, places: seq<Place>, sel: Selection, place: Place, k: string)
    requires !(place in places && Touches(o, sel(o, place)))
    ensures PriceBy(os + [o], places, sel, place, k) == PriceBy(os, places, sel, place, k)
    ensures SizeBy(os + [o], places, sel, place, k) == SizeBy(os, places, sel, place, k)
    ensures LastCap(os + [o], places, sel, place) == LastCap(os, places, sel, place)
  {
    FirstAppend(os, o, (o: Overlay) => Prices(o, places, sel, place, k));
    FirstAppend(os, o, (o: Overlay) => Sizes(o, places, sel, place, k));
    FirstAppend(os, o, (o: Overlay) => Caps(o, places, sel, place));
  }

  lemma FaithfulAppend(u: Update, os: seq<Overlay>, o: Overlay, places: seq<Place>, sel: Selection, place: Place)
    requires Faithful(u, os, places, sel, place)
    ensures
      var after := if place in places && Touches(o, sel(o, place)) then Stored(u, o, sel(o, place)) else u;
      Faithful(after, os + [o], places, sel, place)
  {
    if place in places && Touches(o, sel(o, place)) {
      forall of {
        PriceAppend(u, os, o, places, sel, place, of);
      }
      forall r {
        SizeAppend(u, os, o, places, sel, place, r);
      }
      FirstAppend(os, o, (o: Overlay) => Caps(o, places, sel, place));
      FirstLastAgree(os, (o: Overlay) => Caps(o, places, sel, place));
    } else {
      forall k {
        NothingAppended(os, o, places, sel, place, k);
      }
      NothingAppended(os, o, places, sel, place, "");
    }
  }

  lemma StoreKeepsFaith(store: Store, os: seq<Overlay>, o: Overlay, places: seq<Place>, sel: Selection)
    requires Represents(store, os, places, sel)
    ensures Represents(StoreAll(store, places, sel, o), os + [o], places, sel)
  {
    forall place
      ensures Faithful(Lookup(StoreAll(store, places, sel, o), place, NO_UPDATE), os + [o], places, sel, place)
    {
      StoreAllAt(store, places, sel, o, place);
      FaithfulAppend(Lookup(store, place, NO_UPDATE), os, o, places, sel, place);
    }
  }

  /* ----- the conflict test ----- */

  /** An accepted overlay of the same weight prices an offering that this one prices too. */
  ghost predicate PriceClash(os: seq<Overlay>, places: seq<Place>, sel: Selection, o: Overlay) {
    exists other, place, of :: other in os && other.Weight() == o.Weight()
      && Prices(other, places, sel, place, of) && Prices(o, places, sel, place, of)
  }

  ghost predicate ShareResource(a: Overlay, b: Overlay) {
    a.capacity.Some? && b.capacity.Some? && exists r :: r in a.capacity.value && r in b.capacity.value
  }

  /** An accepted overlay of the same weight sizes a resource, at the same place, that this one sizes too. */
  ghost predicate CapacityClash(os: seq<Overlay>, places: seq<Place>, sel: Selection, o: Overlay) {
    exists other, place :: other in os && other.Weight() == o.Weight()
      && Caps(other, places, sel, place) && Caps(o, places, sel, place) && ShareResource(other, o)
  }

  /** The last accepted capacity overlay of some place is such an overlay. */
  ghost predicate LastCapacityClash(os: seq<Overlay>, places: seq<Place>, sel: Selection, o: Overlay) {
    exists place :: Caps(o, places, sel, place) && ClashesWith(LastCap(os, places, sel, place), o)
  }

  ghost predicate ClashesWith(last: Option<Overlay>, o: Overlay) {
    last.Some? && last.value.Weight() == o.Weight() && ShareResource(last.value, o)
  }

  lemma LighterThanAll(os: seq<Overlay>, o: Overlay, other: Overlay)
    requires Descending(os + [o]) && other in os
    ensures other.Weight() >= o.Weight() && Descending(os)
  {
    var i :| 0 <= i < |os| && os[i] == other;
    assert (os + [o])[i] == other && (os + [o])[|os|] == o;
    forall i, j | 0 <= i < j < |os|
      ensures os[i].Weight() >= os[j].Weight()
    {
      assert (os + [o])[i] == os[i] && (os + [o])[j] == os[j];
    }
  }

  lemma DescendingInit(os: seq<Overlay>, o: Overlay)
    requires Descending(os + [o])
    ensures Descending(os)
  {
    if os != [] {
      LighterThanAll(os, o, os[0]);
    }
  }

  /** At one offering: the recorded weight equals the overlay's exactly when some accepted pricer has that weight. */
  lemma PriceConflictExact(store: Store, os: seq<Overlay>, places: seq<Place>, sel: Selection, o: Overlay, place: Place, of: string)
    requires Represents(store, os, places, sel) && Descending(os + [o])
    ensures PriceConflict(store, place, of, o) <==>
      exists other :: other in os && other.Weight() == o.Weight() && Prices(other, places, sel, place, of)
  {
    var p := (x: Overlay) => Prices(x, places, sel, place, of);
    DescendingInit(os, o);
    LastIsLightest(os, p);
    FirstLastAgree(os, p);
    assert Faithful(Lookup(store, place, NO_UPDATE), os, places, sel, place);
    assert Get(Lookup(store, place, NO_UPDATE).price, of) == PriceBy(os, places, sel, place, of);
    if other :| other in os && other.Weight() == o.Weight() && Prices(other, places, sel, place, of) {
      assert p(other);
      LighterThanAll(os, o, Last(os, p).value);
    }
  }

  lemma CapacityConflictExact(store: Store, os: seq<Overlay>, places: seq<Place>, sel: Selection, o: Overlay, place: Place)
    requires Represents(store, os, places, sel) && o.capacity.Some?
    ensures CapacityConflict(store, place, o) <==> ClashesWith(LastCap(os, places, sel, place), o)
  {
    assert Faithful(Lookup(store, place, NO_UPDATE), os, places, sel, place);
    var last := LastCap(os, places, sel, place);
    if last.Some? && last.value.Weight() == o.Weight() && ShareResource(last.value, o) {
      var r :| r in last.value.capacity.value && r in o.capacity.value;
      assert r in store[place].lowestWeightResources;
    }
  }

  /**
   The test reports a conflict exactly when an accepted overlay of the same weight prices a common offering, or the last
   accepted capacity overlay of a common place has the same weight and sizes a common resource.
   */
  lemma ConflictsExact(store: Store, os: seq<Overlay>, places: seq<Place>, sel: Selection, o: Overlay)
    requires Represents(store, os, places, sel) && Descending(os + [o])
    ensures Conflicts(store, places, sel, o) <==> PriceClash(os, places, sel, o) || LastCapacityClash(os, places, sel, o)
  {
    forall place, of {
      PriceConflictExact(store, os, places, sel, o, place, of);
    }
    if o.capacity.Some? {
      forall place {
        CapacityConflictExact(store, os, places, sel, o, place);
      }
    }
    if Conflicts(store, places, sel, o) {
      var place :| place in places && ConflictAt(store, place, o, sel(o, place));
      if o.Change().Some? && exists of :: of in sel(o, place) && PriceConflict(store, place, of, o) {
        var of :| of in sel(o, place) && PriceConflict(store, place, of, o);
        assert Prices(o, places, sel, place, of);
      } else {
        assert Caps(o, places, sel, place);
      }
    }
    if PriceClash(os, places, sel, o) {
      var other, place, of :| other in os && other.Weight() == o.Weight()
        && Prices(other, places, sel, place, of) && Prices(o, places, sel, place, of);
      assert ConflictAt(store, place, o, sel(o, place));
    }
    if LastCapacityClash(os, places, sel, o) {
      var place :| Caps(o, places, sel, place) && ClashesWith(LastCap(os, places, sel, place), o);
      assert ConflictAt(store, place, o, sel(o, place));
    }
  }

  /* ----- over the whole fold ----- */

  ghost predicate UnambiguousPrices(os: seq<Overlay>, places: seq<Place>, sel: Selection) {
    forall i, j, place, of :: 0 <= i < j < |os| && Prices(os[i], places, sel, place, of) && Prices(os[j], places, sel, place, of)
      ==> os[i].Weight() > os[j].Weight()
  }

  /** A rejected overlay really clashes with an accepted overlay of the same weight. */
  ghost predicate RealConflict(os: seq<Overlay>, places: seq<Place>, sel: Selection, o: Overlay) {
    PriceClash(os, places, sel, o) || CapacityClash(os, places, sel, o)
  }

  ghost predicate FoldInvariant(f: Fold, places: seq<Place>, sel: Selection) {
    && Represents(f.store, f.accepted, places, sel)
    && Descending(f.accepted)
    && UnambiguousPrices(f.accepted, places, sel)
    && (forall o :: o in f.rejected ==> RealConflict(f.accepted, places, sel, o))
  }

  lemma RealConflictGrows(os: seq<Overlay>, more: seq<Overlay>, places: seq<Place>, sel: Selection, o: Overlay)
    requires RealConflict(os, places, sel, o) && forall x :: x in os ==> x in more
    ensures RealConflict(more, places, sel, o)
  {
    if PriceClash(os, places, sel, o) {
      var other, place, of :| other in os && other.Weight() == o.Weight()
        && Prices(other, places, sel, place, of) && Prices(o, places, sel, place, of);
      assert other in more;
    } else {
      var other, place :| other in os && other.Weight() == o.Weight()
        && Caps(other, places, sel, place) && Caps(o, places, sel, place) && ShareResource(other, o);
      assert other in more;
    }
  }

  lemma LastClashIsReal(os: seq<Overlay>, places: seq<Place>, sel: Selection, o: Overlay)
    requires Descending(os) && LastCapacityClash(os, places, sel, o)
    ensures CapacityClash(os, places, sel, o)
  {
    var place :| Caps(o, places, sel, place) && ClashesWith(LastCap(os, places, sel, place), o);
    LastIsLightest(os, (x: Overlay) => Caps(x, places, sel, place));
  }

  lemma TakeKeepsInvariant(f: Fold, places: seq<Place>, sel: Selection, o: Overlay)
    requires FoldInvariant(f, places, sel) && Descending(f.accepted + [o])
    ensures FoldInvariant(Take(f, places, sel, o), places, sel)
  {
    var after := Take(f, places, sel, o);
    ConflictsExact(f.store, f.accepted, places, sel, o);
    if Conflicts(f.store, places, sel, o) {
      if !PriceClash(f.accepted, places, sel, o) {
        LastClashIsReal(f.accepted, places, sel, o);
      }
    } else {
      StoreKeepsFaith(f.store, f.accepted, o, places, sel);
      forall x | x in f.rejected
        ensures RealConflict(after.accepted, places, sel, x)
      {
        RealConflictGrows(f.accepted, after.accepted, places, sel, x);
      }
      AcceptedStaysUnambiguous(f.accepted, places, sel, o);
    }
  }

  lemma AcceptedStaysUnambiguous(os: seq<Overlay>, places: seq<Place>, sel: Selection, o: Overlay)
    requires UnambiguousPrices(os, places, sel) && Descending(os + [o]) && !PriceClash(os, places, sel, o)
    ensures UnambiguousPrices(os + [o], places, sel)
  {
    var more := os + [o];
    forall i, j, place, of | 0 <= i < j < |more| && Prices(more[i], places, sel, place, of) && Prices(more[j], places, sel, place, of)
      ensures more[i].Weight() > more[j].Weight()
    {
      if j == |os| {
        assert os[i] in os && more[i].Weight() >= more[j].Weight();
      } else {
        assert Prices(os[i], places, sel, place, of) && Prices(os[j], places, sel, place, of);
      }
    }
  }

  /** Accepted overlays come from the input, in input order, and each overlay is accepted or rejected once. */
  lemma {:induction false} FoldPartitions(overlays: seq<Overlay>, places: seq<Place>, sel: Selection, o: Overlay)
    requires Descending(overlays + [o])
    ensures multiset(overlays) == multiset(FoldAll(overlays, places, sel).accepted) + multiset(FoldAll(overlays, places, sel).rejected)
    ensures Descending(FoldAll(overlays, places, sel).accepted + [o])
  {
    if overlays != [] {
      var init, last := overlays[..|overlays| - 1], overlays[|overlays| - 1];
      assert overlays == init + [last];
      DescendingInit(overlays, o);
      FoldPartitions(init, places, sel, last);
      var f := FoldAll(init, places, sel);
      var g := FoldAll(overlays, places, sel);
      LighterThanAll(overlays, o, last);
      forall x | x in g.accepted
        ensures x.Weight() >= o.Weight()
      {
        assert x in multiset(overlays);
        LighterThanAll(overlays, o, x);
      }
      DescendingInit(f.accepted, last);
      assert Descending(g.accepted);
      AppendLightest(g.accepted, o);
    }
  }

  lemma AppendLightest(os: seq<Overlay>, o: Overlay)
    requires Descending(os) && forall x :: x in os ==> x.Weight() >= o.Weight()
    ensures Descending(os + [o])
  {
  }

  /**
   Folding overlays in descending weight order: accepted overlays pricing the same offering have different weights, the
   store is what the accepted overlays say, and every rejection names a real conflict with an accepted overlay of
   equal weight.
   */
  lemma {:induction false} FoldIsSound(overlays: seq<Overlay>, places: seq<Place>, sel: Selection)
    requires Descending(overlays)
    ensures FoldInvariant(FoldAll(overlays, places, sel), places, sel)
  {
    if overlays == [] {
      EmptyIsFaithful(places, sel);
    } else {
      var init, last := overlays[..|overlays| - 1], overlays[|overlays| - 1];
      assert overlays == init + [last];
      DescendingInit(init, last);
      FoldIsSound(init, places, sel);
      FoldPartitions(init, places, sel, last);
      TakeKeepsInvariant(FoldAll(init, places, sel), places, sel, last);
    }
  }

  lemma EmptyIsFaithful(places: seq<Place>, sel: Selection)
    ensures FoldInvariant(FoldAll([], places, sel), places, sel)
  {
    forall place
      ensures Faithful(Lookup(FoldAll([], places, sel).store, place, NO_UPDATE), [], places, sel, place)
    {
    }
  }

  ghost predicate HeaviestPricer(os: seq<Overlay>, i: nat, places: seq<Place>, sel: Selection, place: Place, of: string)
    requires i < |os|
  {
    && Prices(os[i], places, sel, place, of)
    && (forall j :: 0 <= j < |os| && j != i && Prices(os[j], places, sel, place, of) ==> os[j].Weight() < os[i].Weight())
  }

  ghost predicate HeaviestSizer(os: seq<Overlay>, o: Overlay, places: seq<Place>, sel: Selection, place: Place, r: string) {
    && o in os && Sizes(o, places, sel, place, r)
    && (forall x :: x in os && Sizes(x, places, sel, place, r) ==> x.Weight() <= o.Weight())
  }

  /** A stored price is the change asked for by the one heaviest accepted overlay that prices the offering. */
  lemma StoredPriceIsHeaviest(overlays: seq<Overlay>, places: seq<Place>, sel: Selection, place: Place, of: string)
    requires Descending(overlays)
    ensures
      var f := FoldAll(overlays, places, sel);
      var stored := Get(Lookup(f.store, place, NO_UPDATE).price, of);
      if stored.None? then forall o :: o in f.accepted ==> !Prices(o, places, sel, place, of)
      else exists i :: 0 <= i < |f.accepted| && HeaviestPricer(f.accepted, i, places, sel, place, of) && f.accepted[i].Change() == Some(stored.value.change)
  {
    FoldIsSound(overlays, places, sel);
    var f := FoldAll(overlays, places, sel);
    var p := (x: Overlay) => Prices(x, places, sel, place, of);
    FirstIsHeaviest(f.accepted, p);
    FirstLastAgree(f.accepted, p);
    assert Faithful(Lookup(f.store, place, NO_UPDATE), f.accepted, places, sel, place);
    assert Get(Lookup(f.store, place, NO_UPDATE).price, of) == PriceBy(f.accepted, places, sel, place, of);
    if First(f.accepted, p).Some? {
      var i :| 0 <= i < |f.accepted| && f.accepted[i] == First(f.accepted, p).value;
      forall j | 0 <= j < |f.accepted| && j != i && Prices(f.accepted[j], places, sel, place, of)
        ensures f.accepted[j].Weight() < f.accepted[i].Weight()
      {
        assert p(f.accepted[j]) && f.accepted[j] in f.accepted;
      }
      assert HeaviestPricer(f.accepted, i, places, sel, place, of);
    } else {
      forall o | o in f.accepted
        ensures !Prices(o, places, sel, place, of)
      {
        assert !p(o);
      }
    }
  }

  /** A stored quantity comes from an accepted overlay that no accepted overlay naming the resource outweighs. */
  lemma StoredQuantityIsHeaviest(overlays: seq<Overlay>, places: seq<Place>, sel: Selection, place: Place, r: string)
    requires Descending(overlays)
    ensures
      var f := FoldAll(overlays, places, sel);
      var stored := Get(Lookup(f.store, place, NO_UPDATE).capacity, r);
      if stored.None? then forall o :: o in f.accepted ==> !Sizes(o, places, sel, place, r)
      else exists o :: HeaviestSizer(f.accepted, o, places, sel, place, r) && o.capacity.value[r] == stored.value
  {
    FoldIsSound(overlays, places, sel);
    var f := FoldAll(overlays, places, sel);
    var p := (x: Overlay) => Sizes(x, places, sel, place, r);
    FirstIsHeaviest(f.accepted, p);
    assert Faithful(Lookup(f.store, place, NO_UPDATE), f.accepted, places, sel, place);
    assert Get(Lookup(f.store, place, NO_UPDATE).capacity, r) == SizeBy(f.accepted, places, sel, place, r);
    if First(f.accepted, p).Some? {
      var o := First(f.accepted, p).value;
      forall x | x in f.accepted && Sizes(x, places, sel, place, r)
        ensures x.Weight() <= o.Weight()
      {
        assert p(x);
      }
      assert HeaviestSizer(f.accepted, o, places, sel, place, r);
    } else {
      forall o | o in f.accepted
        ensures !Sizes(o, places, sel, place, r)
      {
        assert !p(o);
      }
    }
  }

  /* ----- what the capacity test misses ----- */

  /** Both overlays size a common resource at the place. */
  ghost predicate SizeTogether(a: Overlay, b: Overlay, places: seq<Place>, sel: Selection, place: Place) {
    Caps(a, places, sel, place) && Caps(b, places, sel, place) && ShareResource(a, b)
  }

  ghost predicate UnambiguousSizes(os: seq<Overlay>, places: seq<Place>, sel: Selection) {
    forall i, j, place :: 0 <= i < j < |os| && SizeTogether(os[i], os[j], places, sel, place) ==> os[i].Weight() > os[j].Weight()
  }

  /** Overlay k sizes the place between overlays i and j of one weight that clash there, and shares nothing with j. */
  ghost predicate HidesBetween(os: seq<Overlay>, i: nat, k: nat, j: nat, places: seq<Place>, sel: Selection, place: Place) {
    && i < k < j < |os| && os[i].Weight() == os[j].Weight() && SizeTogether(os[i], os[j], places, sel, place)
    && Caps(os[k], places, sel, place) && !ShareResource(os[k], os[j])
  }

  lemma {:induction false} LastComesAfter(os: seq<Overlay>, p: Overlay -> bool, i: nat) returns (k: nat)
    requires i < |os| && p(os[i])
    ensures i <= k < |os| && p(os[k]) && Last(os, p) == Some(os[k])
  {
    if p(os[|os| - 1]) {
      k := |os| - 1;
    } else {
      k := LastComesAfter(os[..|os| - 1], p, i);
    }
  }

  /** No accepted overlay clashed with the last capacity overlay of a place when its turn came. */
  lemma {:induction false} AcceptedPassedTheTest(overlays: seq<Overlay>, places: seq<Place>, sel: Selection, j: nat)
    requires Descending(overlays) && j < |FoldAll(overlays, places, sel).accepted|
    ensures
      var accepted := FoldAll(overlays, places, sel).accepted;
      !LastCapacityClash(accepted[..j], places, sel, accepted[j])
  {
    var init, last := overlays[..|overlays| - 1], overlays[|overlays| - 1];
    assert overlays == init + [last];
    DescendingInit(init, last);
    var f, accepted := FoldAll(init, places, sel), FoldAll(overlays, places, sel).accepted;
    if j < |f.accepted| {
      AcceptedPassedTheTest(init, places, sel, j);
      assert accepted[..j] == f.accepted[..j];
    } else {
      FoldIsSound(init, places, sel);
      FoldPartitions(init, places, sel, last);
      ConflictsExact(f.store, f.accepted, places, sel, last);
      assert accepted[..j] == f.accepted;
    }
  }

  /** A clash that was accepted has an overlay between that hid it. */
  lemma ClashIsHidden(overlays: seq<Overlay>, places: seq<Place>, sel: Selection, i: nat, j: nat, place: Place) returns (k: nat)
    requires Descending(overlays) && i < j < |FoldAll(overlays, places, sel).accepted|
    requires
      var accepted := FoldAll(overlays, places, sel).accepted;
      accepted[i].Weight() <= accepted[j].Weight() && SizeTogether(accepted[i], accepted[j], places, sel, place)
    ensures HidesBetween(FoldAll(overlays, places, sel).accepted, i, k, j, places, sel, place)
  {
    var accepted := FoldAll(overlays, places, sel).accepted;
    FoldIsSound(overlays, places, sel);
    AcceptedPassedTheTest(overlays, places, sel, j);
    k := LastComesAfter(accepted[..j], (o: Overlay) => Caps(o, places, sel, place), i);
    assert LastCap(accepted[..j], places, sel, place) == Some(accepted[k]);
    assert !ClashesWith(Some(accepted[k]), accepted[j]);
    assert accepted[i].Weight() >= accepted[k].Weight() >= accepted[j].Weight();
  }

  /**
   The accepted overlays leave a quantity ambiguous if and only if one of them sizes a place between two of the same
   weight that clash there, and shares nothing with the later one: such a clash, and no other, is missed.
   */
  lemma ClashMissedIff(overlays: seq<Overlay>, places: seq<Place>, sel: Selection)
    requires Descending(overlays)
    ensures
      var accepted := FoldAll(overlays, places, sel).accepted;
      UnambiguousSizes(accepted, places, sel) <==> !exists i, k, j, place :: HidesBetween(accepted, i, k, j, places, sel, place)
  {
    var accepted := FoldAll(overlays, places, sel).accepted;
    forall i, j, place | 0 <= i < j < |accepted| && SizeTogether(accepted[i], accepted[j], places, sel, place)
      ensures accepted[i].Weight() > accepted[j].Weight()
        || exists k :: HidesBetween(accepted, i, k, j, places, sel, place)
    {
      if accepted[i].Weight() <= accepted[j].Weight() {
        var k := ClashIsHidden(overlays, places, sel, i, j, place);
      }
    }
  }

  /** Where an accepted overlay stands in the input. */
  ghost function Origin(overlays: seq<Overlay>, places: seq<Place>, sel: Selection, j: nat): (at: nat)
    requires j < |FoldAll(overlays, places, sel).accepted|
    ensures at < |overlays| && overlays[at] == FoldAll(overlays, places, sel).accepted[j]
  {
    var init := overlays[..|overlays| - 1];
    if j < |FoldAll(init, places, sel).accepted| then Origin(init, places, sel, j) else |overlays| - 1
  }

  /** The accepted overlays stand in input order. */
  lemma {:induction false} OriginsAscend(overlays: seq<Overlay>, places: seq<Place>, sel: Selection, i: nat, j: nat)
    requires i < j < |FoldAll(overlays, places, sel).accepted|
    ensures Origin(overlays, places, sel, i) < Origin(overlays, places, sel, j)
  {
    var init := overlays[..|overlays| - 1];
    if j < |FoldAll(init, places, sel).accepted| {
      OriginsAscend(init, places, sel, i, j);
    }
  }

  /** When no overlay of the input hides a clash between two others, no clash is missed. */
  lemma NothingHiddenNothingMissed(overlays: seq<Overlay>, places: seq<Place>, sel: Selection)
    requires Descending(overlays)
    requires !exists i, k, j, place :: HidesBetween(overlays, i, k, j, places, sel, place)
    ensures UnambiguousSizes(FoldAll(overlays, places, sel).accepted, places, sel)
  {
    var accepted := FoldAll(overlays, places, sel).accepted;
    forall i, k, j, place | HidesBetween(accepted, i, k, j, places, sel, place)
      ensures false
    {
      OriginsAscend(overlays, places, sel, i, k);
      OriginsAscend(overlays, places, sel, k, j);
      assert HidesBetween(overlays, Origin(overlays, places, sel, i), Origin(overlays, places, sel, k),
                          Origin(overlays, places, sel, j), places, sel, place);
    }
    ClashMissedIff(overlays, places, sel);
  }

  function CapacityOnly(name: string, r: string, q: int): Overlay {
    Overlay(name, Some(1), None, None, Some(map[r := q]))
  }

  const HERE := Place("pool", "type")
  const CPU := CapacityOnly("c", "cpu", 1)
  const MEMORY := CapacityOnly("b", "memory", 2)
  const CPU_AGAIN := CapacityOnly("a", "cpu", 3)

  function SelectsAll(o: Overlay, place: Place): seq<string> {
    ["offering"]
  }

  /** A capacity overlay that shares nothing with the last one stored is accepted and becomes the last one. */
  lemma TakeHere(f: Fold, o: Overlay)
    requires o.Change().None? && o.capacity.Some?
    requires forall r :: r in o.capacity.value ==> r !in Lookup(f.store, HERE, NO_UPDATE).lowestWeightResources
    ensures Take(f, [HERE], SelectsAll, o).accepted == f.accepted + [o]
    ensures Lookup(Take(f, [HERE], SelectsAll, o).store, HERE, NO_UPDATE).lowestWeightResources == o.capacity.value.Keys
  {
    assert !ConflictAt(f.store, HERE, o, SelectsAll(o, HERE));
    assert !Conflicts(f.store, [HERE], SelectsAll, o);
    StoreAllAt(f.store, [HERE], SelectsAll, o, HERE);
  }

  lemma FoldOfThree(a: Overlay, b: Overlay, c: Overlay, places: seq<Place>, sel: Selection)
    ensures FoldAll([a, b, c], places, sel) == Take(Take(Take(Fold(map[], [], []), places, sel, a), places, sel, b), places, sel, c)
  {
    assert [a][..0] == [] && [a, b][..1] == [a] && [a, b, c][..2] == [a, b];
    assert FoldAll([a], places, sel) == Take(FoldAll([], places, sel), places, sel, a);
    assert FoldAll([a, b], places, sel) == Take(FoldAll([a], places, sel), places, sel, b);
  }

  /** Three overlays of one weight: the second hides the first from the third, which sizes the same resource again. */
  lemma ThirdOverlaySlipsThrough()
    ensures FoldAll([CPU, MEMORY, CPU_AGAIN], [HERE], SelectsAll).accepted == [CPU, MEMORY, CPU_AGAIN]
    ensures !UnambiguousSizes([CPU, MEMORY, CPU_AGAIN], [HERE], SelectsAll)
  {
    FoldOfThree(CPU, MEMORY, CPU_AGAIN, [HERE], SelectsAll);
    var f1 := Take(Fold(map[], [], []), [HERE], SelectsAll, CPU);
    TakeHere(Fold(map[], [], []), CPU);
    TakeHere(f1, MEMORY);
    TakeHere(Take(f1, [HERE], SelectsAll, MEMORY), CPU_AGAIN);
    assert Caps(CPU, [HERE], SelectsAll, HERE) && Caps(CPU_AGAIN, [HERE], SelectsAll, HERE);
    assert "cpu" in CPU.capacity.value && "cpu" in CPU_AGAIN.capacity.value;
    var os := [CPU, MEMORY, CPU_AGAIN];
    assert SizeTogether(os[0], os[2], [HERE], SelectsAll, HERE) && os[0].Weight() == os[2].Weight();
  }
}
