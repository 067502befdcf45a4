/**
 The crafting grid as a sequence of slots, and the two lookups the listener
 asks of it: the first slot holding a material (-1 when there is none) and
 the map from slot index to stack of every slot holding a material.
 */
module Grid {
  import opened Items

  predicate Holds(slot: Slot, m: Material) {
    slot.Some? && slot.value.material == m
  }

  /** Some slot of `g` holds material `m`. */
  predicate Present(g: seq<Slot>, m: Material) {
    exists i :: 0 <= i < |g| && Holds(g[i], m)
  }

  /**
   The lowest index at or after `from` whose slot holds `m`, or -1 when no
   such slot exists.
   */
  function FirstFrom(g: seq<Slot>, m: Material, from: nat): (r: int)
    requires from <= |g|
    decreases |g| - from
    ensures r == -1 || from <= r < |g|
    ensures r == -1 <==> forall j :: from <= j < |g| ==> !Holds(g[j], m)
    ensures r != -1 ==> Holds(g[r], m) && forall j :: from <= j < r ==> !Holds(g[j], m)
  {
    if from == |g| then -1
    else if Holds(g[from], m) then from
    else FirstFrom(g, m, from + 1)
  }

  /** `first(m)` of the host inventory: the lowest slot index holding `m`, or -1. */
  function First(g: seq<Slot>, m: Material): (r: int)
    ensures -1 <= r < |g|
    ensures r == -1 <==> !Present(g, m)
    ensures r != -1 ==> Holds(g[r], m) && forall j :: 0 <= j < r ==> !Holds(g[j], m)
  {
    FirstFrom(g, m, 0)
  }

  /** `all(m)` of the host inventory: slot index to stack, for every slot holding `m`. */
  function All(g: seq<Slot>, m: Material): (r: map<int, Stack>)
    ensures forall i :: i in r <==> 0 <= i < |g| && Holds(g[i], m)
    ensures forall i :: i in r ==> 0 <= i < |g| && g[i] == Some(r[i])
  {
    map i | 0 <= i < |g| && Holds(g[i], m) :: g[i].value
  }

  /** `all(m)` is empty exactly when `first(m)` reports -1. */
  lemma AllEmptyIffNoFirst(g: seq<Slot>, m: Material)
    ensures |All(g, m)| == 0 <==> First(g, m) == -1
  {
  }

  /** `first(m)` is pinned down by its defining property: a slot holding `m` with none before it. */
  lemma FirstAt(g: seq<Slot>, m: Material, i: nat)
    requires i < |g| && Holds(g[i], m)
    requires forall j :: 0 <= j < i ==> !Holds(g[j], m)
    ensures First(g, m) == i
  {
  }
}
