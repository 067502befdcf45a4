/**
 The shift-click ("bulk") branch of the listener: the repetition count taken
 from the three ingredient amounts, the decrement-or-clear of each ingredient
 slot, and the loop that hands one copy per repetition to the player's
 inventory and drops a copy once the inventory has overflowed.
 */
module Bulk {
  import opened Items
  import opened Grid

  /**
   The repetition count as the listener computes it. The assignment made when
   the ink sack is the strict minimum is always overwritten by the
   feather-or-book choice that follows it, so only the feather (when it is
   strictly below both others) or the book amount can come out.
   */
  function LowestAmount(ink: int, feather: int, book: int): (r: int)
    ensures r == feather || r == book
    ensures feather < ink && feather < book ==> r == feather
    ensures !(feather < ink && feather < book) ==> r == book
    ensures ink < feather && ink < book ==> r == book
  {
    if feather < ink && feather < book then feather else book
  }

  /** The same computation statement by statement, with the dead ink assignment in place. */
  method LowestAmountAsWritten(ink: int, feather: int, book: int) returns (lowest: int)
    ensures lowest == LowestAmount(ink, feather, book)
  {
    lowest := 0;
    if ink < feather && ink < book {
      lowest := ink;
    }
    if feather < ink && feather < book {
      lowest := feather;
    } else {
      lowest := book;
    }
  }

  /** The true minimum of the three ingredient amounts. */
  function TrueLowest(ink: int, feather: int, book: int): (r: int)
    ensures r <= ink && r <= feather && r <= book
    ensures r == ink || r == feather || r == book
  {
    if ink <= feather && ink <= book then ink
    else if feather <= book then feather
    else book
  }

  /**
   The listener's count is never below the true minimum, and equals it
   exactly when the book is not above the ink sack or the feather is
   strictly the least.
   */
  lemma LowestAmountVersusMinimum(ink: int, feather: int, book: int)
    ensures LowestAmount(ink, feather, book) >= TrueLowest(ink, feather, book)
    ensures LowestAmount(ink, feather, book) == TrueLowest(ink, feather, book)
        <==> book <= ink || (feather < ink && feather < book)
  {
  }

  /**
   One ingredient slot after the bulk craft: the stack keeps `amount - lowest`
   items, or the slot is cleared, exactly when that difference is zero.
   */
  predicate Taken(before: Slot, after: Slot, lowest: int)
    requires before.Some?
  {
    var left := before.value.amount - lowest;
    if left == 0 then after == None else after == Some(before.value.(amount := left))
  }

  /** Decrement the stack at `idx` by `lowest`, clearing the slot when nothing is left. */
  function TakeFrom(g: seq<Slot>, idx: nat, lowest: int): (g': seq<Slot>)
    requires idx < |g| && g[idx].Some?
    ensures |g'| == |g|
    ensures Taken(g[idx], g'[idx], lowest)
    ensures forall j :: 0 <= j < |g| && j != idx ==> g'[j] == g[j]
  {
    var left := g[idx].value.amount - lowest;
    if left != 0 then g[idx := Some(g[idx].value.(amount := left))]
    else g[idx := None]
  }

  /** `ink`, `feather` and `book` are slots of `g` holding the three ingredients. */
  predicate Ingredients(g: seq<Slot>, ink: nat, feather: nat, book: nat) {
    && ink < |g| && feather < |g| && book < |g|
    && Holds(g[ink], InkSack) && Holds(g[feather], Feather) && Holds(g[book], Book)
  }

  /** The three ingredient slots are decremented in turn; no other slot changes. */
  function TakeIngredients(g: seq<Slot>, ink: nat, feather: nat, book: nat, lowest: int): (g': seq<Slot>)
    requires Ingredients(g, ink, feather, book)
    ensures |g'| == |g|
    ensures Taken(g[ink], g'[ink], lowest)
    ensures Taken(g[feather], g'[feather], lowest)
    ensures Taken(g[book], g'[book], lowest)
    ensures forall j :: 0 <= j < |g| && j != ink && j != feather && j != book ==> g'[j] == g[j]
  {
    TakeFrom(TakeFrom(TakeFrom(g, ink, lowest), feather, lowest), book, lowest)
  }

  /** No ingredient slot is left holding a stack with a negative amount. */
  predicate NoNegative(g: seq<Slot>, ink: nat, feather: nat, book: nat)
    requires ink < |g| && feather < |g| && book < |g|
  {
    && (g[ink].Some? ==> g[ink].value.amount >= 0)
    && (g[feather].Some? ==> g[feather].value.amount >= 0)
    && (g[book].Some? ==> g[book].value.amount >= 0)
  }

  /** The listener's count: from the amounts found in the three ingredient slots. */
  function GridLowest(g: seq<Slot>, ink: nat, feather: nat, book: nat): int
    requires Ingredients(g, ink, feather, book)
  {
    LowestAmount(g[ink].value.amount, g[feather].value.amount, g[book].value.amount)
  }

  /** Some new amount is negative exactly when the ink sack is short of the book and not above the feather. */
  lemma NegativeAmountIff(g: seq<Slot>, ink: nat, feather: nat, book: nat)
    requires Ingredients(g, ink, feather, book)
    ensures var g' := TakeIngredients(g, ink, feather, book, GridLowest(g, ink, feather, book));
            !NoNegative(g', ink, feather, book)
            <==> g[ink].value.amount < g[book].value.amount && g[ink].value.amount <= g[feather].value.amount
  {
  }

  /** When the book is the true minimum, the book slot is cleared and no amount goes negative. */
  lemma BookMinimumKeepsAmounts(g: seq<Slot>, ink: nat, feather: nat, book: nat)
    requires Ingredients(g, ink, feather, book)
    requires g[book].value.amount <= g[ink].value.amount
    requires g[book].value.amount <= g[feather].value.amount
    ensures var g' := TakeIngredients(g, ink, feather, book, GridLowest(g, ink, feather, book));
            g'[book] == None && NoNegative(g', ink, feather, book)
  {
  }

  /** A concrete grid on which the listener's count drives the ink sack amount to -2 and the feather amount to -1. */
  lemma InkShortageWitness()
    ensures var meta := EmptyMeta;
            var g := [Some(Stack(InkSack, 1, meta)), Some(Stack(Feather, 2, meta)), Some(Stack(Book, 3, meta))];
            && Ingredients(g, 0, 1, 2)
            && GridLowest(g, 0, 1, 2) == 3
            && TakeIngredients(g, 0, 1, 2, 3)[0] == Some(Stack(InkSack, -2, meta))
            && TakeIngredients(g, 0, 1, 2, 3)[1] == Some(Stack(Feather, -1, meta))
  {
    var meta := EmptyMeta;
    var g := [Some(Stack(InkSack, 1, meta)), Some(Stack(Feather, 2, meta)), Some(Stack(Book, 3, meta))];
    assert Ingredients(g, 0, 1, 2);
    assert Taken(g[0], TakeIngredients(g, 0, 1, 2, 3)[0], 3);
    assert Taken(g[1], TakeIngredients(g, 0, 1, 2, 3)[1], 3);
  }

  /** With the true minimum the decrement never goes negative and the scarcest ingredient's slot is cleared. */
  lemma TrueLowestKeepsAmounts(g: seq<Slot>, ink: nat, feather: nat, book: nat)
    requires Ingredients(g, ink, feather, book)
    ensures var l := TrueLowest(g[ink].value.amount, g[feather].value.amount, g[book].value.amount);
            var g' := TakeIngredients(g, ink, feather, book, l);
            && NoNegative(g', ink, feather, book)
            && (g'[ink] == None || g'[feather] == None || g'[book] == None)
  {
  }

  /**
   What the insert/drop loop hands out: every stack offered to the
   inventory's `addItem`, whether or not it fitted, and every stack dropped.
   */
  datatype Delivery = Delivery(offered: seq<Stack>, dropped: seq<Stack>)

  /**
   Iterations `i` up to `n` of the insert/drop loop. `fits(k)` says whether
   the copy offered in iteration `k` fits in the inventory; `overflowed` says
   whether the leftover map is already non-empty. That map is never cleared,
   so from the first overflow on every iteration also drops a copy.
   */
  function InsertOrDrop(copy: Stack, fits: nat -> bool, i: nat, n: int, overflowed: bool): (d: Delivery)
    decreases n - i
    ensures |d.offered| == (if i < n then n - i else 0)
    ensures forall k :: 0 <= k < |d.offered| ==> d.offered[k] == copy
    ensures forall k :: 0 <= k < |d.dropped| ==> d.dropped[k] == copy
    ensures |d.dropped| <= |d.offered|
    ensures overflowed ==> |d.dropped| == |d.offered|
    ensures !overflowed && (forall j: nat :: i <= j < n ==> fits(j)) ==> d.dropped == []
  {
    if n <= i then Delivery([], [])
    else
      var ov := overflowed || !fits(i);
      var rest := InsertOrDrop(copy, fits, i + 1, n, ov);
      Delivery([copy] + rest.offered, (if ov then [copy] else []) + rest.dropped)
  }

  /** The loop as written, with the leftover map reduced to its emptiness. */
  method InsertLoop(copy: Stack, fits: nat -> bool, lowestAmount: int) returns (d: Delivery)
    ensures d == InsertOrDrop(copy, fits, 0, lowestAmount, false)
  {
    var offered: seq<Stack> := [];
    var dropped: seq<Stack> := [];
    var leftOver := false;
    var i: nat := 0;
    while i < lowestAmount
      invariant i == 0 || i <= lowestAmount
      invariant var rest := InsertOrDrop(copy, fits, i, lowestAmount, leftOver);
                InsertOrDrop(copy, fits, 0, lowestAmount, false) == Delivery(offered + rest.offered, dropped + rest.dropped)
      decreases lowestAmount - i
    {
      InsertLoopStep(copy, fits, lowestAmount, i, leftOver, offered, dropped);
      leftOver := leftOver || !fits(i);
      offered := offered + [copy];
      if leftOver {
        dropped := dropped + [copy];
      }
      i := i + 1;
    }
    d := Delivery(offered, dropped);
  }

  /** One iteration of `InsertLoop` keeps its invariant. */
  lemma InsertLoopStep(copy: Stack, fits: nat -> bool, n: int, i: nat, leftOver: bool,
                       offered: seq<Stack>, dropped: seq<Stack>)
    requires i < n
    requires var rest := InsertOrDrop(copy, fits, i, n, leftOver);
             InsertOrDrop(copy, fits, 0, n, false) == Delivery(offered + rest.offered, dropped + rest.dropped)
    ensures var ov := leftOver || !fits(i);
            var next := InsertOrDrop(copy, fits, i + 1, n, ov);
            InsertOrDrop(copy, fits, 0, n, false)
            == Delivery((offered + [copy]) + next.offered, (dropped + (if ov then [copy] else [])) + next.dropped)
  {
    var ov := leftOver || !fits(i);
    var next := InsertOrDrop(copy, fits, i + 1, n, ov);
    var drop: seq<Stack> := if ov then [copy] else [];
    assert InsertOrDrop(copy, fits, i, n, leftOver) == Delivery([copy] + next.offered, drop + next.dropped);
    assert offered + ([copy] + next.offered) == (offered + [copy]) + next.offered;
    assert dropped + (drop + next.dropped) == (dropped + drop) + next.dropped;
  }

  /** If the first overflow happens in iteration `f`, exactly the iterations from `f` on drop a copy. */
  lemma {:induction false} DropsFromFirstOverflow(copy: Stack, fits: nat -> bool, i: nat, n: int, f: nat)
    requires i <= f < n
    requires forall j: nat :: i <= j < f ==> fits(j)
    requires !fits(f)
    decreases f - i
    ensures |InsertOrDrop(copy, fits, i, n, false).dropped| == n - f
  {
    if i < f {
      DropsFromFirstOverflow(copy, fits, i + 1, n, f);
    }
  }

  /** The number of iterations from `i` up to `n` whose copy does not fit. */
  function Misses(fits: nat -> bool, i: nat, n: int): nat
    decreases n - i
  {
    if n <= i then 0 else (if fits(i) then 0 else 1) + Misses(fits, i + 1, n)
  }

  /** Once every remaining copy overflows, every remaining iteration is a miss. */
  lemma {:induction false} AllMiss(fits: nat -> bool, i: nat, n: int)
    requires forall j: nat :: i <= j < n ==> !fits(j)
    decreases n - i
    ensures Misses(fits, i, n) == (if i < n then n - i else 0)
  {
    if i < n {
      AllMiss(fits, i + 1, n);
    }
  }

  /**
   An inventory that only fills up (once a copy overflows, every later one
   does too) gets exactly one drop per copy that did not fit.
   */
  lemma {:induction false} FillingInventoryDropsEachMiss(copy: Stack, fits: nat -> bool, i: nat, n: int)
    requires forall a: nat, b: nat :: i <= a <= b && !fits(a) ==> !fits(b)
    decreases n - i
    ensures |InsertOrDrop(copy, fits, i, n, false).dropped| == Misses(fits, i, n)
  {
    if i < n {
      if fits(i) {
        FillingInventoryDropsEachMiss(copy, fits, i + 1, n);
      } else {
        AllMiss(fits, i, n);
      }
    }
  }

  /**
   An inventory that refuses the first copy and accepts the second still gets
   two drops: the leftover map is never cleared.
   */
  lemma StickyOverflowWitness(copy: Stack)
    ensures var fits := (k: nat) => k != 0;
            && Misses(fits, 0, 2) == 1
            && |InsertOrDrop(copy, fits, 0, 2, false).dropped| == 2
  {
    var fits := (k: nat) => k != 0;
    assert Misses(fits, 0, 2) == 1;
  }
}
