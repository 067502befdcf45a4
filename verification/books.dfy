/**
 The duplication helper: a new one-item stack of a book type whose text is
 copied from a source book, with enchantments carried over only when the
 transfer policy allows it.
 */
module Books {
  import opened Items

  /** The two book types a copy may be made as. */
  predicate IsBookType(m: Material) {
    m == WrittenBook || m == BookAndQuill
  }

  /**
   `getNewBook`. `None` stands for the argument error raised when the target
   type is neither a written book nor a book and quill. A new stack starts
   with no enchantments, so merging the source's enchantments into it yields
   exactly the source's map.
   */
  function NewBook(prev: Stack, bookType: Material, allowTransfer: bool): (r: Option<Stack>)
    ensures r.Some? <==> IsBookType(bookType)
    ensures r.Some? ==> r.value.material == bookType && r.value.amount == 1
    ensures r.Some? ==> SameText(r.value.meta, prev.meta)
    ensures r.Some? && allowTransfer ==> r.value.meta.enchants == prev.meta.enchants
    ensures r.Some? && !allowTransfer ==> !HasEnchants(r.value)
  {
    if !IsBookType(bookType) then None
    else
      var blank := EmptyMeta.(
        author := prev.meta.author,
        title := prev.meta.title,
        lore := prev.meta.lore,
        pages := prev.meta.pages);
      var meta :=
        if allowTransfer && HasEnchants(prev)
        then blank.(enchants := blank.enchants + prev.meta.enchants)
        else blank;
      Some(Stack(bookType, 1, meta))
  }

  /** The copy helper applied `n` times in a row, each time to the previous copy. */
  function Generation(b: Stack, bookType: Material, allowTransfer: bool, n: nat): Stack
    requires IsBookType(bookType)
  {
    if n == 0 then b
    else NewBook(Generation(b, bookType, allowTransfer, n - 1), bookType, allowTransfer).value
  }

  /** Copying a copy changes nothing: the helper is idempotent. */
  lemma NewBookIdempotent(b: Stack, bookType: Material, allowTransfer: bool)
    requires IsBookType(bookType)
    ensures NewBook(NewBook(b, bookType, allowTransfer).value, bookType, allowTransfer)
         == NewBook(b, bookType, allowTransfer)
  {
  }

  /** Every later generation of copies carries the first copy's text, and is that copy. */
  lemma {:induction false} GenerationsKeepText(b: Stack, bookType: Material, allowTransfer: bool, n: nat)
    requires IsBookType(bookType) && n >= 1
    ensures Generation(b, bookType, allowTransfer, n) == NewBook(b, bookType, allowTransfer).value
    ensures SameText(Generation(b, bookType, allowTransfer, n).meta, b.meta)
  {
    if n > 1 {
      GenerationsKeepText(b, bookType, allowTransfer, n - 1);
      NewBookIdempotent(b, bookType, allowTransfer);
    }
  }
}
