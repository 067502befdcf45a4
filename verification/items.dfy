/**
 The plain-data view of the host game's item model that the book-duplication
 listener works on: materials, book metadata, item stacks and grid slots.
 */
module Items {

  /** A value that may be absent: an empty grid slot, or a rejected copy. */
  datatype Option<+T> = None | Some(value: T)

  /** The materials the listener tells apart; every other material is `Other`. */
  datatype Material =
    | WrittenBook
    | BookAndQuill
    | InkSack
    | Feather
    | Book
    | Other(id: nat)

  /** An enchantment is identified by its name; its level is kept as an `int`. */
  type Enchantment = string

  /**
   Book metadata. The enchantments of the item stack and those of its metadata
   are one map here.
   */
  datatype BookMeta = BookMeta(
    author: string,
    title: string,
    lore: seq<string>,
    pages: seq<string>,
    enchants: map<Enchantment, int>)

  /** The metadata of a freshly created item stack: no text, no enchantments. */
  const EmptyMeta := BookMeta("", "", [], [], map[])

  /**
   An item stack. The amount is an unbounded `int`: the listener can set it
   below zero, and the model keeps that visible.
   */
  datatype Stack = Stack(material: Material, amount: int, meta: BookMeta)

  /** One slot of a crafting grid: empty, or holding a stack. */
  type Slot = Option<Stack>

  predicate HasEnchants(s: Stack) {
    s.meta.enchants != map[]
  }

  /** The text-bearing part of two metadata values agrees. */
  predicate SameText(a: BookMeta, b: BookMeta) {
    && a.author == b.author
    && a.title == b.title
    && a.lore == b.lore
    && a.pages == b.pages
  }
}
