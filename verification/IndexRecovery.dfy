/**
 * Recovery of a packet's position from its 16-bit sequence number
 * (src/receiver/index_recovery.rs; section 3.3.1 and Appendix A of RFC 3711).
 */
module IndexRecovery {
  import opened Arithmetic
  import opened Options

  function Recover(highest: Option<nat>, seq16: nat): (index: nat)
    requires seq16 < U16
    ensures index % U16 == seq16
  {
    match highest
    case None => seq16
    case Some(h) =>
      var roc, sl := h / U16, h % U16;
      var v :=
        if sl < 32_768 then
          if seq16 - sl > 32_768 then (if roc == 0 then 0 else roc - 1) else roc
        else if sl - 32_768 > seq16 then roc + 1
        else roc;
      v * U16 + seq16
  }

  function Distance(a: nat, b: nat): nat { if a <= b then b - a else a - b }

  /** No non-negative index with the same low 16 bits is closer to the reference. */
  lemma RecoverIsNearest(h: nat, seq16: nat, other: nat)
    requires seq16 < U16 && other % U16 == seq16
    ensures Distance(h, Recover(Some(h), seq16)) <= Distance(h, other)
  {
    assert h == U16 * (h / U16) + h % U16;
    assert other == U16 * (other / U16) + seq16;
  }

  /**
   * Which true positions the reference h can place: everything closer than half the range,
   * one of the two ties depending on the half h sits in, and, before the first
   * wrap, everything ahead of h up to that wrap.
   */
  predicate Placeable(h: nat, i: nat)
  {
    || h - 32_768 < i < h + 32_768
    || (i == h + 32_768 && h % U16 < 32_768)
    || (h == i + 32_768 && h % U16 >= 32_768)
    || (h < 32_768 && h < i < U16)
  }

  lemma RecoverExact(h: nat, i: nat)
    ensures Recover(Some(h), i % U16) == i <==> Placeable(h, i)
  {
    assert h == U16 * (h / U16) + h % U16;
    assert i == U16 * (i / U16) + i % U16;
  }

  /** Which positions an optional reference can place; without one, those before the first wrap. */
  predicate PlaceableFrom(highest: Option<nat>, i: nat)
  {
    match highest
    case None => i < U16
    case Some(h) => Placeable(h, i)
  }

  lemma RecoverFrom(highest: Option<nat>, i: nat)
    ensures Recover(highest, i % U16) == i <==> PlaceableFrom(highest, i)
  {
    if highest.Some? {
      RecoverExact(highest.value, i);
    }
  }

  class IndexRecovery {
    var highest: Option<nat>

    constructor ()
      ensures highest == None
    {
      highest := None;
    }

    method Update(index: nat)
      modifies this
      ensures highest == Some(MaxWith(old(highest), index))
    {
      if highest == None || index > highest.value {
        highest := Some(index);
      }
    }
  }

  /** The reference after every packet of `order` has been recovered and authenticated in turn. */
  function Follow(order: seq<nat>): (highest: Option<nat>)
  {
    if order == [] then None
    else
      var before := Follow(order[..|order| - 1]);
      Some(MaxWith(before, Recover(before, order[|order| - 1] % U16)))
  }

  /** The largest index of an arrival order. */
  function MaxIndex(order: seq<nat>): (m: Option<nat>)
    ensures m.None? <==> order == []
    ensures m.Some? ==> m.value in order
    ensures forall i :: i in order ==> m.Some? && i <= m.value
  {
    if order == [] then None
    else
      assert order == order[..|order| - 1] + [order[|order| - 1]];
      Some(MaxWith(MaxIndex(order[..|order| - 1]), order[|order| - 1]))
  }

  /** The k-th arrival is placeable from the largest index that arrived before it. */
  predicate PlaceableAt(order: seq<nat>, k: nat)
    requires k < |order|
  {
    PlaceableFrom(MaxIndex(order[..k]), order[k])
  }

  predicate RecoveredAt(order: seq<nat>, k: nat)
    requires k < |order|
  {
    Recover(Follow(order[..k]), order[k] % U16) == order[k]
  }

  predicate AllPlaceable(order: seq<nat>)
  {
    forall k | 0 <= k < |order| :: PlaceableAt(order, k)
  }

  predicate AllRecovered(order: seq<nat>)
  {
    forall k | 0 <= k < |order| :: RecoveredAt(order, k)
  }

  lemma AllPlaceableSnoc(order: seq<nat>)
    requires order != []
    ensures AllPlaceable(order) <==> AllPlaceable(order[..|order| - 1]) && PlaceableAt(order, |order| - 1)
  {
    var front := order[..|order| - 1];
    forall k | 0 <= k < |front|
      ensures PlaceableAt(front, k) == PlaceableAt(order, k)
    {
      assert front[..k] == order[..k];
    }
  }

  lemma AllRecoveredSnoc(order: seq<nat>)
    requires order != []
    ensures AllRecovered(order) <==> AllRecovered(order[..|order| - 1]) && RecoveredAt(order, |order| - 1)
  {
    var front := order[..|order| - 1];
    forall k | 0 <= k < |front|
      ensures RecoveredAt(front, k) == RecoveredAt(order, k)
    {
      assert front[..k] == order[..k];
    }
  }

  /** Every arrival is recovered to its true position if and only if each is placeable in its turn. */
  lemma {:induction false} RecoveryFollowsStream(order: seq<nat>)
    ensures AllRecovered(order) <==> AllPlaceable(order)
    ensures AllPlaceable(order) ==> Follow(order) == MaxIndex(order)
  {
    if order != [] {
      RecoveryFollowsStream(order[..|order| - 1]);
      AllPlaceableSnoc(order);
      AllRecoveredSnoc(order);
      if AllPlaceable(order[..|order| - 1]) {
        LastArrival(order);
      }
    }
  }

  lemma LastArrival(order: seq<nat>)
    requires order != [] && Follow(order[..|order| - 1]) == MaxIndex(order[..|order| - 1])
    ensures RecoveredAt(order, |order| - 1) <==> PlaceableAt(order, |order| - 1)
    ensures PlaceableAt(order, |order| - 1) ==> Follow(order) == MaxIndex(order)
  {
    RecoverFrom(MaxIndex(order[..|order| - 1]), order[|order| - 1]);
  }
}
