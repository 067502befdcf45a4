/**
 The crafting-event handler of the book-duplication listener, as a pure
 function from the event, the acting player, the configuration and an
 inventory oracle to the outcome of the event.
 */
module Crafting {
  import opened Items
  import opened Grid
  import opened Books
  import opened Bulk

  /** The acting player: name and the two permissions the handler asks about. */
  datatype Player = Player(name: string, hasUse: bool, hasAny: bool)

  /** The two configuration flags the listener reads. */
  datatype Config = Config(allowIllegalEnchants: bool, allowIllegalEnchantTransfer: bool)

  /**
   A crafting event as the handler receives it: the crafting grid, the item
   currently in the result slot, whether the click was a shift click, and
   whether the event arrives already cancelled.
   */
  datatype CraftEvent = CraftEvent(grid: seq<Slot>, current: Option<Stack>, shiftClick: bool, cancelled: bool)

  /**
   The event after the handler: its cancelled flag, result slot and grid, the
   stacks offered to the player's inventory in order (each one passed to
   `addItem`, whether or not it fitted), and the stacks dropped at the
   player's location.
   */
  datatype Outcome = Outcome(
    cancelled: bool,
    current: Option<Stack>,
    grid: seq<Slot>,
    offered: seq<Stack>,
    dropped: seq<Stack>)

  /** The event as it came in, with nothing handed out. */
  function Untouched(ev: CraftEvent): Outcome {
    Outcome(ev.cancelled, ev.current, ev.grid, [], [])
  }

  /** The event cancelled, and nothing else changed. */
  function Cancelled(ev: CraftEvent): Outcome {
    Untouched(ev).(cancelled := true)
  }

  /** The book to be copied: the stack in the first slot holding a written book. */
  function SourceBook(g: seq<Slot>): Stack
    requires Present(g, WrittenBook)
  {
    g[First(g, WrittenBook)].value
  }

  /** The three gates together: use permission, authorship (unless any-book permission), enchantment policy. */
  predicate Authorised(g: seq<Slot>, who: Player, cfg: Config)
    requires Present(g, WrittenBook)
  {
    var b := SourceBook(g);
    && who.hasUse
    && (who.hasAny || b.meta.author == who.name)
    && (!HasEnchants(b) || cfg.allowIllegalEnchants)
  }

  /** The three recipe shapes the handler tells apart once authorised. */
  datatype Shape =
    | QuillCopy   // ink sack and feather, no plain book
    | TwoCopies   // ink sack or feather missing
    | Batch       // ink sack, feather and plain book

  /** The recipe shape, decided by which ingredients the grid holds anywhere. */
  function ShapeOf(g: seq<Slot>): Shape {
    if Present(g, InkSack) && Present(g, Feather) then
      if Present(g, Book) then Batch else QuillCopy
    else TwoCopies
  }

  /** A copy of `b` as `bookType`, under the configured enchantment-transfer policy. */
  function Copy(b: Stack, bookType: Material, cfg: Config): Stack
    requires IsBookType(bookType)
  {
    NewBook(b, bookType, cfg.allowIllegalEnchantTransfer).value
  }

  /** The shift-click branch, from the slot indices the handler looked up. */
  function BulkCraft(ev: CraftEvent, initialBook: Stack, ink: nat, feather: nat, book: nat,
                     cfg: Config, fits: nat -> bool): Outcome
    requires Ingredients(ev.grid, ink, feather, book)
  {
    var lowestAmount := GridLowest(ev.grid, ink, feather, book);
    var delivery := InsertOrDrop(Copy(initialBook, WrittenBook, cfg), fits, 0, lowestAmount, false);
    Outcome(ev.cancelled, Some(initialBook), TakeIngredients(ev.grid, ink, feather, book, lowestAmount),
            delivery.offered, delivery.dropped)
  }

  /**
   `onItemCraft`. `fits(k)` tells whether the copy offered in the k-th
   iteration of the shift-click loop fits in the player's inventory; the
   other inventory insertions ignore whether they fit.
   */
  function OnItemCraft(ev: CraftEvent, who: Player, cfg: Config, fits: nat -> bool): (o: Outcome)
    // no written book: the event passes through untouched
    ensures !Present(ev.grid, WrittenBook) ==> o == Untouched(ev)
    // a failed gate cancels the event before anything else changes
    ensures Present(ev.grid, WrittenBook) && !Authorised(ev.grid, who, cfg) ==> o == Cancelled(ev)
    // past the gates the handler never touches the cancelled flag
    ensures Present(ev.grid, WrittenBook) && Authorised(ev.grid, who, cfg) ==> o.cancelled == ev.cancelled
    ensures Present(ev.grid, WrittenBook) && Authorised(ev.grid, who, cfg) && ShapeOf(ev.grid) == QuillCopy
            ==> o == Untouched(ev).(current := Some(Copy(SourceBook(ev.grid), BookAndQuill, cfg)))
    ensures Present(ev.grid, WrittenBook) && Authorised(ev.grid, who, cfg) && ShapeOf(ev.grid) == TwoCopies
            && |All(ev.grid, BookAndQuill)| != 2
            ==> o == Untouched(ev)
    ensures Present(ev.grid, WrittenBook) && Authorised(ev.grid, who, cfg) && ShapeOf(ev.grid) == TwoCopies
            && |All(ev.grid, BookAndQuill)| == 2
            ==> o == Untouched(ev).(current := Some(Copy(SourceBook(ev.grid), WrittenBook, cfg)),
                                    offered := [SourceBook(ev.grid)])
    ensures Present(ev.grid, WrittenBook) && Authorised(ev.grid, who, cfg) && ShapeOf(ev.grid) == Batch
            && !ev.shiftClick
            ==> o == Untouched(ev).(current := Some(SourceBook(ev.grid)),
                                    offered := [Copy(SourceBook(ev.grid), WrittenBook, cfg)])
    ensures Present(ev.grid, WrittenBook) && Authorised(ev.grid, who, cfg) && ShapeOf(ev.grid) == Batch
            && ev.shiftClick
            ==> var ink, feather, book := First(ev.grid, InkSack), First(ev.grid, Feather), First(ev.grid, Book);
                var lowestAmount := GridLowest(ev.grid, ink, feather, book);
                && o.current == Some(SourceBook(ev.grid))
                && o.grid == TakeIngredients(ev.grid, ink, feather, book, lowestAmount)
                && Delivery(o.offered, o.dropped)
                   == InsertOrDrop(Copy(SourceBook(ev.grid), WrittenBook, cfg), fits, 0, lowestAmount, false)
  {
    var g := ev.grid;
    var writtenBookIndex := First(g, WrittenBook);
    if writtenBookIndex == -1 then Untouched(ev)
    else if !who.hasUse then Cancelled(ev)
    else
      var initialBook := g[writtenBookIndex].value;
      if !who.hasAny && initialBook.meta.author != who.name then Cancelled(ev)
      else if HasEnchants(initialBook) && !cfg.allowIllegalEnchants then Cancelled(ev)
      else
        var inkSackIndex := First(g, InkSack);
        var featherIndex := First(g, Feather);
        var bookIndex := First(g, Book);
        if inkSackIndex != -1 && featherIndex != -1 && bookIndex == -1 then
          Untouched(ev).(current := Some(Copy(initialBook, BookAndQuill, cfg)))
        else if inkSackIndex == -1 || featherIndex == -1 || bookIndex == -1 then
          if |All(g, BookAndQuill)| != 2 then Untouched(ev)
          else Untouched(ev).(current := Some(Copy(initialBook, WrittenBook, cfg)), offered := [initialBook])
        else if !ev.shiftClick then
          Untouched(ev).(current := Some(initialBook), offered := [Copy(initialBook, WrittenBook, cfg)])
        else
          BulkCraft(ev, initialBook, inkSackIndex, featherIndex, bookIndex, cfg, fits)
  }

  /** The shift-click branch is taken: a written book, the gates passed, all three ingredients. */
  predicate ShiftBatch(ev: CraftEvent, who: Player, cfg: Config) {
    && Present(ev.grid, WrittenBook) && Authorised(ev.grid, who, cfg)
    && ShapeOf(ev.grid) == Batch && ev.shiftClick
  }

  /** The listener's repetition count for a shift click. */
  function ShiftCount(ev: CraftEvent, who: Player, cfg: Config): int
    requires ShiftBatch(ev, who, cfg)
  {
    GridLowest(ev.grid, First(ev.grid, InkSack), First(ev.grid, Feather), First(ev.grid, Book))
  }

  /**
   Shift click with room for every copy: one written-book copy per repetition
   goes to the inventory and nothing is dropped.
   */
  lemma ShiftClickWithRoom(ev: CraftEvent, who: Player, cfg: Config, fits: nat -> bool)
    requires ShiftBatch(ev, who, cfg)
    requires forall k: nat :: fits(k)
    ensures var o := OnItemCraft(ev, who, cfg, fits);
            var n := ShiftCount(ev, who, cfg);
            && |o.offered| == (if n > 0 then n else 0)
            && (forall k :: 0 <= k < |o.offered| ==> o.offered[k] == Copy(SourceBook(ev.grid), WrittenBook, cfg))
            && o.dropped == []
  {
  }

  /**
   Shift click whose first overflowing insertion is repetition `f`: that
   repetition and every later one drop a copy, and none before it does.
   */
  lemma ShiftClickOverflow(ev: CraftEvent, who: Player, cfg: Config, fits: nat -> bool, f: nat)
    requires ShiftBatch(ev, who, cfg)
    requires f < ShiftCount(ev, who, cfg)
    requires forall j: nat :: j < f ==> fits(j)
    requires !fits(f)
    ensures var o := OnItemCraft(ev, who, cfg, fits);
            && |o.offered| == ShiftCount(ev, who, cfg)
            && |o.dropped| == ShiftCount(ev, who, cfg) - f
  {
    DropsFromFirstOverflow(Copy(SourceBook(ev.grid), WrittenBook, cfg), fits, 0, ShiftCount(ev, who, cfg), f);
  }

  /** An inventory with room for every copy. */
  function AlwaysFits(k: nat): bool { true }

  /** A full inventory. */
  function NeverFits(k: nat): bool { false }

  /** A plain written book with the given author and no enchantments. */
  function PlainBook(author: string): Stack {
    Stack(WrittenBook, 1, EmptyMeta.(author := author, title := "T", pages := ["p1"]))
  }

  /** Three ink sacks, five feathers and two plain books beside a written book, five empty slots. */
  function BatchGrid(author: string): seq<Slot> {
    [ Some(PlainBook(author)), Some(Stack(InkSack, 3, EmptyMeta)), Some(Stack(Feather, 5, EmptyMeta)),
      Some(Stack(Book, 2, EmptyMeta)), None, None, None, None, None ]
  }

  /**
   The bulk scenario with room in the inventory: ink sacks down to 1,
   feathers down to 3, the plain-book slot cleared, two copies handed out and
   the original book left as the result.
   */
  lemma BatchScenarioWithRoom(cfg: Config)
    ensures var ev := CraftEvent(BatchGrid("Alice"), None, true, false);
            var o := OnItemCraft(ev, Player("Alice", true, false), cfg, AlwaysFits);
            && !o.cancelled
            && o.current == Some(PlainBook("Alice"))
            && o.grid == BatchGrid("Alice")[1 := Some(Stack(InkSack, 1, EmptyMeta))]
                                           [2 := Some(Stack(Feather, 3, EmptyMeta))][3 := None]
            && o.offered == [Copy(PlainBook("Alice"), WrittenBook, cfg), Copy(PlainBook("Alice"), WrittenBook, cfg)]
            && o.dropped == []
  {
    var g := BatchGrid("Alice");
    var ev := CraftEvent(g, None, true, false);
    var who := Player("Alice", true, false);
    var fits := AlwaysFits;
    BatchScenarioShape(cfg);
    BatchScenarioGrid();
    var c := Copy(PlainBook("Alice"), WrittenBook, cfg);
    TwoRepetitionsWithRoom(c);
    var o := OnItemCraft(ev, who, cfg, fits);
    assert o.grid == TakeIngredients(g, 1, 2, 3, 2);
    assert Delivery(o.offered, o.dropped) == InsertOrDrop(c, fits, 0, 2, false);
  }

  /** Two repetitions with room for both copies. */
  lemma TwoRepetitionsWithRoom(c: Stack)
    ensures InsertOrDrop(c, AlwaysFits, 0, 2, false) == Delivery([c, c], [])
  {
  }

  /** Taking two of each ingredient from the bulk scenario grid. */
  lemma BatchScenarioGrid()
    ensures var g := BatchGrid("Alice");
            && Ingredients(g, 1, 2, 3)
            && TakeIngredients(g, 1, 2, 3, 2)
               == g[1 := Some(Stack(InkSack, 1, EmptyMeta))][2 := Some(Stack(Feather, 3, EmptyMeta))][3 := None]
  {
  }

  /** The bulk scenario grid takes the shift-click branch with ingredient slots 1, 2 and 3 and a count of 2. */
  lemma BatchScenarioShape(cfg: Config)
    ensures var ev := CraftEvent(BatchGrid("Alice"), None, true, false);
            && ShiftBatch(ev, Player("Alice", true, false), cfg)
            && SourceBook(ev.grid) == PlainBook("Alice")
            && First(ev.grid, InkSack) == 1 && First(ev.grid, Feather) == 2 && First(ev.grid, Book) == 3
            && ShiftCount(ev, Player("Alice", true, false), cfg) == 2
  {
    var g := BatchGrid("Alice");
    FirstAt(g, WrittenBook, 0);
    FirstAt(g, InkSack, 1);
    FirstAt(g, Feather, 2);
    FirstAt(g, Book, 3);
    assert Present(g, InkSack) && Present(g, Feather) && Present(g, Book);
  }

  /** The same scenario with a full inventory: both copies are offered, and both are dropped. */
  lemma BatchScenarioFull(cfg: Config)
    ensures var ev := CraftEvent(BatchGrid("Alice"), None, true, false);
            var o := OnItemCraft(ev, Player("Alice", true, false), cfg, NeverFits);
            && |o.offered| == 2
            && o.dropped == [Copy(PlainBook("Alice"), WrittenBook, cfg), Copy(PlainBook("Alice"), WrittenBook, cfg)]
  {
    var ev := CraftEvent(BatchGrid("Alice"), None, true, false);
    var fits := NeverFits;
    BatchScenarioShape(cfg);
    var c := Copy(PlainBook("Alice"), WrittenBook, cfg);
    assert InsertOrDrop(c, fits, 1, 2, true) == Delivery([c], [c]);
    assert InsertOrDrop(c, fits, 0, 2, false) == Delivery([c, c], [c, c]);
  }

  /**
   Ink sack and feather beside the written book, no plain book: the result
   slot becomes a book and quill carrying the written book's text, and
   nothing else changes.
   */
  lemma QuillScenario(cfg: Config)
    ensures var g := [Some(PlainBook("Alice")), Some(Stack(InkSack, 1, EmptyMeta)), Some(Stack(Feather, 1, EmptyMeta))];
            var o := OnItemCraft(CraftEvent(g, None, false, false), Player("Alice", true, false), cfg, NeverFits);
            && !o.cancelled && o.grid == g && o.offered == [] && o.dropped == []
            && o.current.Some? && o.current.value.material == BookAndQuill
            && o.current.value.meta.author == "Alice" && o.current.value.meta.title == "T"
            && o.current.value.meta.pages == ["p1"]
  {
    var g := [Some(PlainBook("Alice")), Some(Stack(InkSack, 1, EmptyMeta)), Some(Stack(Feather, 1, EmptyMeta))];
    FirstAt(g, WrittenBook, 0);
    FirstAt(g, InkSack, 1);
    FirstAt(g, Feather, 2);
    assert forall i | 0 <= i < |g| :: !Holds(g[i], Book);
  }

  /**
   Two written books and nothing else: the two-copies branch counts books
   and quills, not written books, so the event passes through untouched.
   */
  lemma TwoWrittenBooksPassThrough(cfg: Config, fits: nat -> bool)
    ensures var g := [Some(PlainBook("Alice")), Some(PlainBook("Alice"))];
            var ev := CraftEvent(g, None, false, false);
            OnItemCraft(ev, Player("Alice", true, false), cfg, fits) == Untouched(ev)
  {
    var g := [Some(PlainBook("Alice")), Some(PlainBook("Alice"))];
    FirstAt(g, WrittenBook, 0);
    assert !Present(g, BookAndQuill);
    AllEmptyIffNoFirst(g, BookAndQuill);
  }

  /**
   A written book beside two books and quills: the original book goes back to
   the inventory and the result slot becomes a written copy.
   */
  lemma TwoQuillsScenario(cfg: Config, fits: nat -> bool)
    ensures var quill := Stack(BookAndQuill, 1, EmptyMeta);
            var g := [Some(PlainBook("Alice")), Some(quill), Some(quill)];
            var o := OnItemCraft(CraftEvent(g, None, false, false), Player("Alice", true, false), cfg, fits);
            && !o.cancelled && o.grid == g
            && o.offered == [PlainBook("Alice")]
            && o.current == Some(Copy(PlainBook("Alice"), WrittenBook, cfg))
  {
    var quill := Stack(BookAndQuill, 1, EmptyMeta);
    var g := [Some(PlainBook("Alice")), Some(quill), Some(quill)];
    FirstAt(g, WrittenBook, 0);
    assert !Present(g, InkSack);
    var all := All(g, BookAndQuill);
    assert all.Keys == {1, 2};
  }
}
