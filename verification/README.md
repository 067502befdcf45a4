# Book duplication listener — a Dafny model

This project models the crafting-event listener of the BookDupe game-server
plugin. When a player crafts with a written book in the crafting grid, the
listener checks permissions and the enchantment policy, then recognises one
of three recipe shapes:

- a book-and-quill copy (ink sack and feather, no plain book);
- a written copy in exchange for two books and quills;
- the batch recipe (ink sack, feather and plain book). A plain click hands
  out one copy. A shift click repeats the craft a number of times taken
  from the ingredient amounts: the feather amount when it is strictly the
  least, and the book amount otherwise, which can exceed the ink sacks
  (see Findings). It decrements the ingredient stacks by that count and
  drops copies once the inventory has overflowed.

The host game's object model becomes plain data. The handler becomes the pure
function `Crafting.OnItemCraft`. It maps an event, the acting player, the two
configuration flags and an inventory oracle to an `Outcome` with five fields:

- the cancelled flag;
- the result-slot item;
- the new grid;
- the stacks offered to the player's inventory (passed to `addItem`, whether or not they fitted);
- the stacks dropped in the world.

Modules:

- `Items` (`items.dfy`): materials, book metadata, item stacks, grid slots.
- `Grid` (`grid.dfy`): the host inventory's `first(material)` and `all(material)` lookups.
- `Books` (`books.dfy`): the copy helper `getNewBook`.
- `Bulk` (`bulk.dfy`): the shift-click arithmetic, the per-slot decrement-or-clear, and the insert/drop loop.
- `Crafting` (`crafting.dfy`): the handler, its gates and recipe shapes, and end-to-end scenarios.

The model follows the code as written, including its quirks:

- the ink-sack minimum is always overwritten (`Bulk.LowestAmount`);
- ingredient amounts can go negative (`Bulk.NegativeAmountIff`);
- the two-copies recipe counts books and quills, not written books
  (`Crafting.TwoWrittenBooksPassThrough`). The comment above that check
  speaks of one book and quill, while the code asks for exactly two; the
  model follows the code;
- the leftover map of the insert/drop loop is never cleared
  (`Bulk.StickyOverflowWitness`).

The inventory is an oracle `fits: nat -> bool`. `fits(k)` says whether the
copy offered in iteration `k` of the shift-click loop fits. The other
inventory insertions ignore their result in the source, so the oracle is
not consulted for them.

## Model

| member | source | states |
|---|---|---|
| Grid.First | src/main/java/in/nikitapek/bookdupe/events/BookDupeListener.java:71-75 | the lookup gives -1 exactly when no slot holds the material; otherwise it gives a slot holding it with no earlier slot holding it |
| Grid.FirstAt | src/main/java/in/nikitapek/bookdupe/events/BookDupeListener.java:29-31 | a slot holding the material with none before it is the index `first` reports |
| Grid.All | src/main/java/in/nikitapek/bookdupe/events/BookDupeListener.java:81 | `all(material)` has as keys exactly the slot indices holding the material, and maps each to that slot's stack |
| Grid.AllEmptyIffNoFirst | src/main/java/in/nikitapek/bookdupe/events/BookDupeListener.java:79-83 | `all(material)` is empty exactly when `first(material)` is -1 |
| Books.NewBook | src/main/java/in/nikitapek/bookdupe/events/BookDupeListener.java:176-199 | a copy exists exactly for the written-book and book-and-quill types; any other type is the argument error. The copy has that type and one item, with the source's author, title, lore and pages. It carries the source's enchantments when transfer is allowed and none otherwise |
| Books.NewBookIdempotent | src/main/java/in/nikitapek/bookdupe/events/BookDupeListener.java:176-199 | copying a copy gives the same stack as copying the original |
| Books.GenerationsKeepText | src/main/java/in/nikitapek/bookdupe/events/BookDupeListener.java:187-191 | every later generation of copies equals the first copy, and keeps the original's author, title, lore and pages |
| Bulk.LowestAmount | src/main/java/in/nikitapek/bookdupe/events/BookDupeListener.java:104-120 | the repetition count is the feather amount when it is strictly below both others, and the book amount in every other case; the ink amount never survives |
| Bulk.LowestAmountAsWritten | src/main/java/in/nikitapek/bookdupe/events/BookDupeListener.java:104-120 | the statement-by-statement computation, with the dead ink assignment, agrees with `LowestAmount` on all inputs |
| Bulk.TrueLowest | src/main/java/in/nikitapek/bookdupe/events/BookDupeListener.java:106-107 | the corrected count is at most each ingredient amount and equals one of them |
| Bulk.LowestAmountVersusMinimum | src/main/java/in/nikitapek/bookdupe/events/BookDupeListener.java:104-120 | the listener's count is never below the true minimum, and equals it exactly when the book is not above the ink or the feather is strictly least |
| Bulk.TakeFrom | src/main/java/in/nikitapek/bookdupe/events/BookDupeListener.java:126-133 | one ingredient slot keeps `amount - lowestAmount` items, or is cleared exactly when that difference is zero; no other slot changes |
| Bulk.TakeIngredients | src/main/java/in/nikitapek/bookdupe/events/BookDupeListener.java:122-151 | each of the three ingredient slots is decremented or cleared as above, and every other grid slot is unchanged |
| Bulk.NegativeAmountIff | src/main/java/in/nikitapek/bookdupe/events/BookDupeListener.java:104-151 | some ingredient is left with a negative amount exactly when the ink amount is below the book amount and not above the feather amount |
| Bulk.BookMinimumKeepsAmounts | src/main/java/in/nikitapek/bookdupe/events/BookDupeListener.java:113-151 | when the book amount is the true minimum, the book slot is cleared and no ingredient amount goes negative |
| Bulk.InkShortageWitness | src/main/java/in/nikitapek/bookdupe/events/BookDupeListener.java:108-130 | with 1 ink sack, 2 feathers and 3 books the count is 3, the ink sack stack is left with amount -2 and the feather stack with -1 |
| Bulk.TrueLowestKeepsAmounts | src/main/java/in/nikitapek/bookdupe/events/BookDupeListener.java:122-151 | with the true minimum no ingredient amount goes negative and at least one ingredient slot is cleared |
| Bulk.InsertOrDrop | src/main/java/in/nikitapek/bookdupe/events/BookDupeListener.java:155-168 | the loop offers one copy per iteration, `lowestAmount` copies in all (none when the count is not positive), and drops at most one copy per iteration. Once the leftover map is non-empty, every iteration drops. With no overflow, nothing is dropped |
| Bulk.InsertLoop | src/main/java/in/nikitapek/bookdupe/events/BookDupeListener.java:155-168 | the imperative loop, with the leftover map reduced to a flag that is never reset, hands out exactly what `InsertOrDrop` describes |
| Bulk.DropsFromFirstOverflow | src/main/java/in/nikitapek/bookdupe/events/BookDupeListener.java:158-168 | if the first overflowing insertion is iteration `f`, exactly `lowestAmount - f` copies are dropped: one in each iteration from `f` on |
| Bulk.FillingInventoryDropsEachMiss | src/main/java/in/nikitapek/bookdupe/events/BookDupeListener.java:158-168 | for an inventory that only fills up, the number of drops equals the number of copies that did not fit |
| Bulk.StickyOverflowWitness | src/main/java/in/nikitapek/bookdupe/events/BookDupeListener.java:155-168 | an inventory that refuses the first copy but accepts the second still gets two drops for one miss |
| Crafting.OnItemCraft | src/main/java/in/nikitapek/bookdupe/events/BookDupeListener.java:24-174 | no written book: the event is untouched. A failed gate (no use permission; author differs without any-book permission; enchanted book while illegal enchantments are off) cancels it and changes nothing else; past the gates the cancelled flag is kept. Ink and feather without a plain book: only the result changes, to a book-and-quill copy. Ink or feather missing: untouched unless exactly two slots hold books and quills, then the original goes to the inventory and the result is a written copy. All three, plain click: one written copy to the inventory, the original as the result, grid unchanged. All three, shift click: the original as the result, the grid decremented by the listener's count, and the insert/drop loop run for that count |
| Crafting.ShiftClickWithRoom | src/main/java/in/nikitapek/bookdupe/events/BookDupeListener.java:155-172 | a shift click with room for every copy hands out one written copy per repetition and drops nothing |
| Crafting.ShiftClickOverflow | src/main/java/in/nikitapek/bookdupe/events/BookDupeListener.java:155-168 | a shift click whose first overflow is repetition `f` offers `lowestAmount` copies and drops `lowestAmount - f` |
| Crafting.BatchScenarioWithRoom | src/main/java/in/nikitapek/bookdupe/events/BookDupeListener.java:96-172 | 3 ink sacks, 5 feathers and 2 books with room in the inventory: ink down to 1, feathers down to 3, book slot cleared, two copies added, none dropped, the original book as the result |
| Crafting.BatchScenarioFull | src/main/java/in/nikitapek/bookdupe/events/BookDupeListener.java:155-168 | the same with a full inventory: both copies are offered and both are dropped |
| Crafting.QuillScenario | src/main/java/in/nikitapek/bookdupe/events/BookDupeListener.java:77-78 | ink sack and feather without a plain book: the result becomes a book and quill with the book's author, title and pages; grid and inventory are untouched |
| Crafting.TwoWrittenBooksPassThrough | src/main/java/in/nikitapek/bookdupe/events/BookDupeListener.java:79-83 | two written books and nothing else leave the event untouched, because the count is of books and quills |
| Crafting.TwoQuillsScenario | src/main/java/in/nikitapek/bookdupe/events/BookDupeListener.java:79-89 | a written book beside two books and quills: the original goes to the inventory and the result is a written copy; the grid is unchanged |

## Findings

| source | as written | input that shows it | evidently intended | confidence | as-written member | corrected member |
|---|---|---|---|---|---|---|
| src/main/java/in/nikitapek/bookdupe/events/BookDupeListener.java:108-130 | the count taken when the ink sack is the scarcest ingredient is overwritten by the book amount, and the ink stack is decremented below zero | 1 ink sack, 2 feathers, 3 plain books, shift click: count 3, ink amount set to -2, feather amount set to -1, three copies handed out | the count is the smallest of the three amounts (the comment at lines 106-107 says so), so no amount goes negative | high; not executed | Bulk.InkShortageWitness | Bulk.TrueLowest |

`Bulk.TrueLowestKeepsAmounts` proves the intended property of the
corrected count: no ingredient amount goes negative, and the scarcest
ingredient's slot is cleared. `Crafting.OnItemCraft` keeps the count as
written, because it models the listener as it is.

## Left out

- Event dispatch, handler registration and the listener plumbing: the event is an input record and the outcome an output record.
- Permission lookup: `hasUse` and `hasAny` are boolean inputs.
- Loading of the configuration context: the two flags are inputs; that class is not part of this model.
- Inventory internals of `addItem` (stacking, slot search): replaced by the `fits` oracle for the loop. Other insertions ignore their result in the source, so a copy that does not fit there is recorded as offered and nothing more.
- World, location and `dropItem`: dropped stacks are listed, not placed in a world.
- The contents of the leftover map: only whether it is empty matters, so it is a boolean.
- Enchantment levels: an abstract map from name to level. The item-stack enchantments (line 62) and the metadata enchantments (line 194) are one map.
- The host's own consumption of ingredients after a non-shift craft: that is the game engine's work, not the listener's.
- A null author (line 55) and a null target type (line 177): strings and materials are never null here.
- 32-bit integer overflow of stack amounts: amounts are unbounded `int`s; a realistic stack size cannot overflow `lowestAmount` subtraction.
- The size of the crafting grid: the model works for any number of slots (nine in a workbench).
- Books.NewBook: the merge at line 195 goes through the host's `getEnchants()`. If that returns a read-only view, the merge fails with an exception; if it returns a detached copy, the merge silently changes nothing and no copy carries enchantments. That host behaviour is not part of this model: the merge onto the new book's empty map is modelled as taking effect.
- Crafting.OnItemCraft: the order of the three gates is not stated separately. Every failing gate yields the same cancelled, otherwise untouched outcome, so the order cannot be observed in this model.
