/** The mutable overlay store, the controller loop that fills it, and the copy of an instance type it hands out. */
module OverlayStore {
  import opened Common
  import opened Overlays

  /** The resource loop of updateInstanceTypeCapacity: what is there stays. */
  method AddMissing(base: Resources, extra: Resources) returns (merged: Resources)
    ensures merged == extra + base
  {
    merged := base;
    var todo := extra.Keys;
    while todo != {}
      invariant todo <= extra.Keys
      invariant merged.Keys == base.Keys + (extra.Keys - todo)
      invariant forall r :: r in merged ==> merged[r] == if r in base then base[r] else extra[r]
      decreases todo
    {
      var r :| r in todo;
      if r !in merged {
        merged := merged[r := extra[r]];
      }
      todo := todo - {r};
    }
  }

  function WithPrice(price: map<string, PriceUpdate>, k: string, o: Overlay): map<string, PriceUpdate>
    requires o.Change().Some?
  {
    price[k := if k in price then price[k].(lowestWeight := o.weight) else PriceUpdate(o.Change().value, o.weight)]
  }

  function PricesAfter(price: map<string, PriceUpdate>, o: Overlay, offerings: seq<string>): map<string, PriceUpdate>
    requires o.Change().Some?
  {
    if offerings == [] then price
    else WithPrice(PricesAfter(price, o, offerings[..|offerings| - 1]), offerings[|offerings| - 1], o)
  }

  lemma {:induction false} PricesAfterAt(price: map<string, PriceUpdate>, o: Overlay, offerings: seq<string>, k: string)
    requires o.Change().Some?
    ensures Get(PricesAfter(price, o, offerings), k) == if k in offerings then Some(WithPrice(price, k, o)[k]) else Get(price, k)
  {
    if offerings != [] {
      var init, last := offerings[..|offerings| - 1], offerings[|offerings| - 1];
      PricesAfterAt(price, o, init, k);
      assert k in offerings <==> k in init || k == last;
    }
  }

  /** One offering after the other, or all at once. */
  lemma PricesAfterAll(u: Update, o: Overlay, offerings: seq<string>)
    requires o.Change().Some?
    ensures PricesAfter(u.price, o, offerings) == WithPrices(u, o, offerings).price
  {
    var one, all := PricesAfter(u.price, o, offerings), WithPrices(u, o, offerings).price;
    forall k
      ensures Get(one, k) == Get(all, k)
    {
      PricesAfterAt(u.price, o, offerings, k);
    }
    SameGets(one, all);
  }

  lemma SameGets<V>(a: map<string, V>, b: map<string, V>)
    requires forall k :: Get(a, k) == Get(b, k)
    ensures a == b
  {
    forall k
      ensures k in a <==> k in b
      ensures k in a ==> a[k] == b[k]
    {
      assert Get(a, k) == Get(b, k);
    }
  }

  /** The offering loop of updateInstanceTypeOffering: the first price stays, the weight becomes this overlay's. */
  method AddPrices(u: Update, o: Overlay, offerings: seq<string>) returns (priced: Update)
    requires o.Change().Some?
    ensures priced == WithPrices(u, o, offerings)
  {
    var price := u.price;
    var i := 0;
    while i < |offerings|
      invariant 0 <= i <= |offerings|
      invariant price == PricesAfter(u.price, o, offerings[..i])
    {
      var k := offerings[i];
      assert offerings[..i + 1][..i] == offerings[..i];
      if k in price {
        price := price[k := price[k].(lowestWeight := o.weight)];
      } else {
        price := price[k := PriceUpdate(o.Change().value, o.weight)];
      }
      i := i + 1;
    }
    assert offerings[..|offerings|] == offerings;
    PricesAfterAll(u, o, offerings);
    return u.(price := price);
  }

  class InstanceTypeStore {
    var updates: Store

    constructor ()
      ensures updates == map[]
    {
      updates := map[];
    }

    method UpdateInstanceTypeOffering(place: Place, o: Overlay, offerings: seq<string>)
      modifies this
      ensures updates == if o.Change().None? then old(updates)
                         else old(updates)[place := WithPrices(Lookup(old(updates), place, NO_UPDATE), o, offerings)]
    {
      if o.Change().None? {
        return;
      }
      if place !in updates {
        updates := updates[place := NO_UPDATE];
      }
      var u := AddPrices(updates[place], o, offerings);
      updates := updates[place := u];
    }

    method UpdateInstanceTypeCapacity(place: Place, o: Overlay)
      modifies this
      ensures updates == if o.capacity.None? then old(updates)
                         else old(updates)[place := WithCapacity(Lookup(old(updates), place, NO_UPDATE), o)]
    {
      if o.capacity.None? {
        return;
      }
      var u := Lookup(updates, place, NO_UPDATE);
      var merged := AddMissing(u.capacity, o.capacity.value);
      updates := updates[place := Update(u.price, merged, o.capacity.value.Keys, o.weight)];
    }

    method IsOfferingUpdateConflicting(place: Place, of: string, o: Overlay) returns (conflict: bool)
      ensures conflict == PriceConflict(updates, place, of, o)
    {
      if place !in updates || of !in updates[place].price {
        return false;
      }
      return o.Weight() == WeightOf(updates[place].price[of].lowestWeight);
    }

    method IsCapacityUpdateConflicting(place: Place, o: Overlay) returns (conflict: bool)
      requires o.capacity.Some?
      ensures conflict == CapacityConflict(updates, place, o)
    {
      if place !in updates || WeightOf(updates[place].lowestWeight) != o.Weight() {
        return false;
      }
      var todo := o.capacity.value.Keys;
      while todo != {}
        invariant todo <= o.capacity.value.Keys
        invariant forall r :: r in o.capacity.value && r !in todo ==> r !in updates[place].lowestWeightResources
        decreases todo
      {
        var r :| r in todo;
        if r in updates[place].lowestWeightResources {
          return true;
        }
        todo := todo - {r};
      }
      return false;
    }

    method IsConflictingAt(place: Place, o: Overlay, offerings: seq<string>) returns (conflict: bool)
      ensures conflict == ConflictAt(updates, place, o, offerings)
    {
      if |offerings| == 0 {
        return false;
      }
      if o.Change().Some? {
        var i := 0;
        while i < |offerings|
          invariant 0 <= i <= |offerings|
          invariant forall j :: 0 <= j < i ==> !PriceConflict(updates, place, offerings[j], o)
        {
          conflict := IsOfferingUpdateConflicting(place, offerings[i], o);
          if conflict {
            return;
          }
          i := i + 1;
        }
      }
      if o.capacity.None? {
        return false;
      }
      conflict := IsCapacityUpdateConflicting(place, o);
    }

    method StoreUpdates(place: Place, o: Overlay, offerings: seq<string>)
      modifies this
      ensures updates == StoreAt(old(updates), place, o, offerings)
    {
      if |offerings| == 0 {
        return;
      }
      UpdateInstanceTypeOffering(place, o, offerings);
      UpdateInstanceTypeCapacity(place, o);
    }

    /** Validates everywhere before storing anywhere: a rejected overlay leaves the store as it was. */
    method ValidateAndUpdate(places: seq<Place>, sel: Selection, o: Overlay) returns (accepted: bool)
      modifies this
      ensures accepted <==> !Conflicts(old(updates), places, sel, o)
      ensures updates == if accepted then StoreAll(old(updates), places, sel, o) else old(updates)
    {
      var i := 0;
      while i < |places|
        invariant 0 <= i <= |places|
        invariant updates == old(updates)
        invariant forall j :: 0 <= j < i ==> !ConflictAt(updates, places[j], o, sel(o, places[j]))
      {
        var conflict := IsConflictingAt(places[i], o, sel(o, places[i]));
        if conflict {
          return false;
        }
        i := i + 1;
      }
      i := 0;
      while i < |places|
        invariant 0 <= i <= |places|
        invariant StoreAll(old(updates), places, sel, o) == StoreAll(updates, places[i..], sel, o)
      {
        assert places[i..][1..] == places[i + 1..];
        StoreUpdates(places[i], o, sel(o, places[i]));
        i := i + 1;
      }
      assert places[|places|..] == [];
      return true;
    }

    /** The controller's loop over the overlays that pass validation, in weight order. */
    method Reconcile(overlays: seq<Overlay>, places: seq<Place>, sel: Selection) returns (accepted: seq<Overlay>, rejected: seq<Overlay>)
      requires updates == map[]
      modifies this
      ensures Fold(updates, accepted, rejected) == FoldAll(overlays, places, sel)
    {
      accepted, rejected := [], [];
      var i := 0;
      while i < |overlays|
        invariant 0 <= i <= |overlays|
        invariant Fold(updates, accepted, rejected) == FoldAll(overlays[..i], places, sel)
      {
        assert overlays[..i + 1][..i] == overlays[..i];
        var ok := ValidateAndUpdate(places, sel, overlays[i]);
        if ok {
          accepted := accepted + [overlays[i]];
        } else {
          rejected := rejected + [overlays[i]];
        }
        i := i + 1;
      }
      assert overlays[..|overlays|] == overlays;
    }
  }

  /* ----- handing out instance types ----- */

  datatype Offering = Offering(key: string, price: real, available: bool, reservationCapacity: int,
                               capacityOverride: Option<Resources>, overheadOverride: Option<Resources>)

  datatype InstanceType = InstanceType(name: string, offerings: seq<Offering>, capacity: Resources)

  /** How a price or price adjustment changes a price. */
  type Adjustment = (real, string) -> real

  function Overlaid(of: Offering, price: map<string, PriceUpdate>, adjust: Adjustment): Offering {
    if of.key in price
    then Offering(of.key, adjust(of.price, price[of.key].change), of.available, of.reservationCapacity, None, None)
    else of
  }

  function Apply(store: Store, pool: string, it: InstanceType, adjust: Adjustment): InstanceType {
    var place := Place(pool, it.name);
    if place !in store then it else
    var u := store[place];
    InstanceType(it.name,
                 if |u.price| == 0 then it.offerings
                 else seq(|it.offerings|, i requires 0 <= i < |it.offerings| => Overlaid(it.offerings[i], u.price, adjust)),
                 if |u.capacity| == 0 then it.capacity else it.capacity + u.capacity)
  }

  /**
   The price handed out for an offering is the one that the heaviest accepted overlay pricing it asks for,
   and the original price when there is none.
   */
  lemma AppliedPriceIsHeaviest(overlays: seq<Overlay>, places: seq<Place>, sel: Selection, pool: string, it: InstanceType, i: nat, adjust: Adjustment)
    requires Descending(overlays) && i < |it.offerings|
    ensures
      var f := FoldAll(overlays, places, sel);
      var given := Apply(f.store, pool, it, adjust);
      var of, place := it.offerings[i], Place(pool, it.name);
      && |given.offerings| == |it.offerings|
      && if exists o :: o in f.accepted && Prices(o, places, sel, place, of.key)
         then exists h :: 0 <= h < |f.accepted| && HeaviestPricer(f.accepted, h, places, sel, place, of.key)
                && given.offerings[i].price == adjust(of.price, f.accepted[h].Change().value)
         else given.offerings[i] == of
  {
    StoredPriceIsHeaviest(overlays, places, sel, Place(pool, it.name), it.offerings[i].key);
    var store := FoldAll(overlays, places, sel).store;
    var u := Lookup(store, Place(pool, it.name), NO_UPDATE);
    var of := it.offerings[i];
    assert of.key in u.price ==> |u.price| != 0;
    assert Apply(store, pool, it, adjust).offerings[i] == Overlaid(of, u.price, adjust);
  }

  /** The quantity handed out for a resource is that of the heaviest accepted overlay sizing it, or the original one. */
  lemma AppliedQuantityIsHeaviest(overlays: seq<Overlay>, places: seq<Place>, sel: Selection, pool: string, it: InstanceType, r: string, adjust: Adjustment)
    requires Descending(overlays)
    ensures
      var f := FoldAll(overlays, places, sel);
      var given := Get(Apply(f.store, pool, it, adjust).capacity, r);
      var place := Place(pool, it.name);
      if exists o :: o in f.accepted && Sizes(o, places, sel, place, r)
      then exists o :: HeaviestSizer(f.accepted, o, places, sel, place, r) && given == Some(o.capacity.value[r])
      else given == Get(it.capacity, r)
  {
    StoredQuantityIsHeaviest(overlays, places, sel, Place(pool, it.name), r);
    var u := Lookup(FoldAll(overlays, places, sel).store, Place(pool, it.name), NO_UPDATE);
    assert r in u.capacity ==> |u.capacity| != 0;
  }

  /** An overlay changes nothing of an offering but its price if and only if the offering carries no overrides. */
  lemma OverridesSurviveIff(of: Offering, price: map<string, PriceUpdate>, adjust: Adjustment)
    requires of.key in price
    ensures Overlaid(of, price, adjust) == of.(price := adjust(of.price, price[of.key].change))
       <==> of.capacityOverride.None? && of.overheadOverride.None?
  {
    var out := Overlaid(of, price, adjust);
    assert out.capacityOverride == None && out.overheadOverride == None;
  }
}
