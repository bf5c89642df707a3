/** The kmalloc front end: the request's size is kept in a header in front of the object. */
module SlobKmalloc {
  import opened SlobBlocks
  import opened SlobList
  import opened SlobObjects
  import opened SlobFit
  import opened SlobPage
  import opened SlobHeap

  /** max(ARCH_KMALLOC_MINALIGN, ARCH_SLAB_MINALIGN) in bytes: the header's size and its alignment. */
  const HEADER_BYTES := 8
  const HEADER_UNITS := 4

  datatype Chunk =
    | NoMemory                    // NULL
    | ZeroSize                    // ZERO_SIZE_PTR
    | Slob(page: Page, at: int)   // `at` is the header's address; the caller gets `at + HEADER_UNITS`
    | Whole(bytes: int)           // whole pages from the page allocator

  lemma HeaderAlignOk()
    ensures AlignOk(HEADER_BYTES)
  {
    assert PowerOfTwo(2) && PowerOfTwo(4);
  }

  // ---------- the unsigned int in the header ----------

  /** A 16-bit half as the signed cell value with the same bits. */
  function Signed(half: int): (v: SlobIdx)
    requires 0 <= half < 0x1_0000
  {
    if half < 0x8000 then half else half - 0x1_0000
  }

  function Half(v: SlobIdx): (half: int)
    ensures 0 <= half < 0x1_0000
  {
    if v < 0 then v + 0x1_0000 else v
  }

  /** The unsigned int stored in two cells, low half first. */
  function Word(lo: SlobIdx, hi: SlobIdx): int
  {
    Half(lo) + 0x1_0000 * Half(hi)
  }

  lemma WordReadsBack(size: int)
    requires 0 <= size < 0x1_0000_0000
    ensures Word(Signed(size % 0x1_0000), Signed(size / 0x1_0000)) == size
  {
  }

  /** A live kmalloc object of `size` bytes, its header intact. */
  ghost predicate Holds(h: Heap, p: Page, at: int, size: int)
    reads h`owned, p`live, p.cells
  {
    && p in h.owned && size >= 1 && at in p.live && p.live[at] == SlobUnits(size + HEADER_BYTES)
    && 0 <= at && at + HEADER_UNITS < p.cells.Length
    && Word(p.cells[at], p.cells[at + 1]) == size
  }

  /** Every object that was live still is, and holds what it held, except the one at `at` in `gone`. */
  twostate predicate OthersKept(h: Heap, gone: Chunk)
    reads h`owned, h.owned, set p | p in h.owned :: p.cells
  {
    && (forall p, a :: p in old(h.owned) && a in old(p.live) && gone != Slob(p, a) ==>
         p in h.owned && a in p.live && p.live[a] == old(p.live[a]))
    && (forall p, a, x ::
         p in old(h.owned) && p in h.owned && a in old(p.live) && gone != Slob(p, a) && 0 <= x < p.cells.Length ==>
         a <= x < a + old(p.live[a]) ==> p.cells[x] == old(p.cells[x]))
  }

  /** `b` bytes are `page` doubled some number of times. */
  predicate Doubled(page: int, b: int)
    requires page >= 1
    decreases b
  {
    b == page || (b > page && b % 2 == 0 && Doubled(page, b / 2))
  }

  /** get_order: the smallest number of doublings of a page that holds `size` bytes. */
  function PagesBytes(page: int, size: int): (b: int)
    requires page >= 1
    ensures b >= size && b >= page && (b > page ==> b / 2 < size)
    decreases size - page
  {
    if page >= size then page else PagesBytes(2 * page, size)
  }

  lemma {:induction false} PagesDoubled(page: int, start: int, size: int)
    requires page >= 1 && Doubled(page, start)
    ensures Doubled(page, PagesBytes(start, size))
    decreases size - start
  {
    if start < size { PagesDoubled(page, 2 * start, size); }
  }

  // ---------- what a request asks of the heap ----------

  lemma PlacedOnBoundary(bs: seq<Block>, bs': seq<Block>, size: int, at: int)
    requires size >= 0 && Cut(bs, bs', size, at)
    ensures OnBoundary(at, HEADER_BYTES)
  {
    HeaderAlignOk();
    ChoicePlaces(bs, Request(SlobUnits(size + HEADER_BYTES), HEADER_BYTES));
  }

  lemma BehindHeader(at: int)
    requires OnBoundary(at, HEADER_BYTES)
    ensures OnBoundary(at + HEADER_UNITS, HEADER_BYTES)
  {
  }

  lemma ZeroOnBoundary()
    ensures OnBoundary(0, HEADER_BYTES)
  {
  }

  /** A listed page has room for the object and its header. */
  ghost predicate HasRoom(h: Heap, size: int)
    requires h.Valid() && size >= 0
    reads h`lists, h`memoryAlloc, h`owned, h`larges, h.owned, set p | p in h.owned :: p.cells
  {
    HeaderAlignOk();
    h.RoomOn(ClassOf(size + HEADER_BYTES), size + HEADER_BYTES, HEADER_BYTES)
  }

  /** The `i`-th page on the list for the size is the best for it. */
  ghost predicate Best(h: Heap, size: int, i: int)
    requires size >= 0
    reads h`lists, h.lists.Of(ClassOf(size + HEADER_BYTES))
    reads set p | p in h.lists.Of(ClassOf(size + HEADER_BYTES)) :: p.cells
  {
    HeaderAlignOk();
    var c := ClassOf(size + HEADER_BYTES);
    h.ListOk(c) && BestPage(h.lists.Of(c), size + HEADER_BYTES, HEADER_BYTES, i)
  }

  /** The object, header included, was cut out of the best block. */
  predicate Cut(bs: seq<Block>, bs': seq<Block>, size: int, at: int)
    requires size >= 0
  {
    HeaderAlignOk();
    InPage(bs) && CarvedFrom(bs, bs', size + HEADER_BYTES, HEADER_BYTES, at)
  }

  /** The object's header cells, and that no other object has them. */
  lemma HeaderCells(h: Heap, p: Page, at: int, size: int)
    requires h.Valid() && p in h.owned && size >= 1
    requires at in p.live && p.live[at] == SlobUnits(size + HEADER_BYTES)
    ensures 0 <= at && at + HEADER_UNITS < p.cells.Length == h.n
    ensures Held(p.live, at) && Held(p.live, at + 1)
    ensures forall a :: a in p.live && a != at && p.live[a] > HEADER_UNITS ==> a + 1 < at || at + 1 < a
  {
    h.OwnedPage(p);
    assert ObjectsOk(p.live, h.n);
  }

  /** The object was cut out of the best listed page. */
  twostate predicate FromListed(h: Heap, b: Ptr, i: int, size: int)
    requires size >= 0
    reads h`lists, h`owned, h.owned, set p | p in h.owned :: p.cells
  {
    && b.Ptr? && old(Best(h, size, i)) && b.page == old(h.lists).Of(ClassOf(size + HEADER_BYTES))[i]
    && b.page in old(h.owned) && b.page in h.owned
    && b.page.cells.Length == b.page.n
    && Cut(old(b.page.FreeList()), b.page.FreeList(), size, b.at)
    && b.at !in old(b.page.live) && b.page.live == old(b.page.live)[b.at := SlobUnits(size + HEADER_BYTES)]
    && if b.page.units == 0 then Leaves(old(h.lists), h.lists, b.page) else h.lists == old(h.lists)
  }

  /** The object is the first of a new page. */
  twostate predicate FromNew(h: Heap, new b: Ptr, size: int)
    requires size >= 0
    reads h`lists, h`owned, h.owned, set p | p in h.owned :: p.cells
  {
    && b.Ptr? && b.page !in old(h.owned) && h.owned == old(h.owned) + {b.page} && b.at == 0
    && b.page.cells.Length == b.page.n && b.page.n == h.n
    && b.page.FreeList() == Carve([Block(0, h.n)], 0, 0, SlobUnits(size + HEADER_BYTES))
    && b.page.live == map[0 := SlobUnits(size + HEADER_BYTES)]
    && if b.page.units == 0 then h.lists == old(h.lists)
       else Joins(old(h.lists), h.lists, size + HEADER_BYTES, b.page)
  }

  /** slob_alloc on behalf of kmalloc. */
  method Obtain(h: Heap, size: int, granted: bool) returns (b: Ptr, ghost i: int)
    requires h.Valid() && 1 <= size < 2 * h.n - HEADER_BYTES && AlignFits(HEADER_BYTES, h.n)
    modifies h`lists, h`memoryAlloc, h`memoryFree, h`owned, h.owned, set p | p in h.owned :: p.cells
    ensures h.Valid()
    ensures b.Ptr? <==> old(HasRoom(h, size)) || granted
    ensures b.Ptr? ==>
      b.page in h.owned && b.at in b.page.live && b.page.live[b.at] == SlobUnits(size + HEADER_BYTES)
      && OnBoundary(b.at, HEADER_BYTES)
    ensures old(HasRoom(h, size)) ==> h.owned == old(h.owned) && FromListed(h, b, i, size)
    ensures !old(HasRoom(h, size)) && granted ==> FromNew(h, b, size)
    ensures b.Null? ==> h.owned == old(h.owned) && h.lists == old(h.lists)
    ensures old(h.owned) <= h.owned && h.larges == old(h.larges)
    ensures b.Ptr? && b.page !in old(h.owned) ==> fresh(b.page) && fresh(b.page.cells)
    ensures b.Ptr? && b.page in old(h.owned) ==>
      b.at !in old(b.page.live) && b.page.live == old(b.page.live)[b.at := SlobUnits(size + HEADER_BYTES)]
    ensures forall p :: p in old(h.owned) && (b.Null? || p != b.page) ==> h.Untouched(p)
    ensures forall p, x :: p in old(h.owned) && 0 <= x < h.n && Held(old(p.live), x) ==> p.cells[x] == old(p.cells[x])
  {
    hide Page.Valid, Page.FreeList, Heap.RoomOn, Heap.ListOk, BestPage, CarvedFrom, Heap.Valid, Held, Joins, Leaves,
         OnBoundary, Carve, Heap.Untouched;
    HeaderAlignOk();
    forall p | p in h.owned ensures p.cells.Length == h.n { h.OwnedPage(p); }
    b, i := h.SlobAlloc(size + HEADER_BYTES, HEADER_BYTES, granted);
    if b.Ptr? { h.OwnedPage(b.page); }
    if old(HasRoom(h, size)) { PlacedOnBoundary(old(b.page.FreeList()), b.page.FreeList(), size, b.at); }
    ZeroOnBoundary();
  }

  /** The same, with what it means for the objects there already. */
  method AllocObject(h: Heap, size: int, granted: bool) returns (b: Ptr, ghost i: int)
    requires h.Valid() && 1 <= size < 2 * h.n - HEADER_BYTES && AlignFits(HEADER_BYTES, h.n)
    modifies h`lists, h`memoryAlloc, h`memoryFree, h`owned, h.owned, set p | p in h.owned :: p.cells
    ensures h.Valid()
    ensures b.Ptr? <==> old(HasRoom(h, size)) || granted
    ensures b.Ptr? ==>
      b.page in h.owned && b.at in b.page.live && b.page.live[b.at] == SlobUnits(size + HEADER_BYTES)
      && OnBoundary(b.at, HEADER_BYTES)
    ensures old(HasRoom(h, size)) ==> h.owned == old(h.owned) && FromListed(h, b, i, size)
    ensures !old(HasRoom(h, size)) && granted ==> FromNew(h, b, size)
    ensures b.Null? ==> h.owned == old(h.owned) && h.lists == old(h.lists)
    ensures old(h.owned) <= h.owned && h.larges == old(h.larges)
    ensures b.Ptr? && b.page !in old(h.owned) ==> fresh(b.page) && fresh(b.page.cells)
    ensures forall p, a, s :: p in old(h.owned) && old(Holds(h, p, a, s)) ==> Holds(h, p, a, s)
    ensures OthersKept(h, NoMemory)
  {
    hide Page.Valid, Page.FreeList, HasRoom, OnBoundary, Heap.Valid, FromListed, FromNew;
    ghost var before := h.owned;
    forall p | p in before ensures p.cells.Length == h.n { h.OwnedPage(p); }
    b, i := Obtain(h, size, granted);
    forall p, a, s | p in old(h.owned) && old(Holds(h, p, a, s)) ensures Holds(h, p, a, s) {
      assert p in before && p.cells.Length == h.n;
      assert old(Held(p.live, a) && Held(p.live, a + 1));
      assert p.cells[a] == old(p.cells[a]) && p.cells[a + 1] == old(p.cells[a + 1]);
      if b.Ptr? && p == b.page { assert p.live[a] == old(p.live[a]); }
      else { assert h.Untouched(p); }
    }
    forall p, a | p in before && a in old(p.live) ensures a in p.live && p.live[a] == old(p.live[a]) {
      if b.Null? || p != b.page { assert h.Untouched(p); }
    }
    forall p, a, x | p in before && a in old(p.live) && 0 <= x < p.cells.Length && a <= x < a + old(p.live[a])
      ensures p.cells[x] == old(p.cells[x])
    {
      assert old(Held(p.live, x));
    }
  }

  /** `*m = size`. */
  method StoreSize(h: Heap, p: Page, at: int, size: int)
    requires h.Valid() && p in h.owned && 1 <= size < 0x1_0000_0000
    requires at in p.live && p.live[at] == SlobUnits(size + HEADER_BYTES)
    modifies p.cells
    ensures h.Valid() && Holds(h, p, at, size)
    ensures p.cells.Length == p.n && p.FreeList() == old(p.FreeList())
    ensures forall q, a, s :: q in h.owned && (q != p || a != at) && old(Holds(h, q, a, s)) ==> Holds(h, q, a, s)
    ensures OthersKept(h, Slob(p, at))
  {
    hide Page.Valid, Page.FreeList, Heap.Valid, Held;
    HeaderCells(h, p, at, size);
    WordReadsBack(size);
    h.CellsApart();
    h.OwnedPage(p);
    h.StoreInto(p, at, Signed(size % 0x1_0000));
    h.StoreInto(p, at + 1, Signed(size / 0x1_0000));
    assert ObjectsOk(p.live, h.n) by { h.OwnedPage(p); }
    forall q, a, x | q in h.owned && a in q.live && Slob(q, a) != Slob(p, at)
                     && 0 <= x < q.cells.Length && a <= x < a + q.live[a]
      ensures q.cells[x] == old(q.cells[x])
    {
      if q == p { assert x != at && x != at + 1; }
    }
  }

  /** A request below the size of a page: the object, with its size in the header. */
  method SmallObject(h: Heap, size: int, granted: bool) returns (b: Ptr, ghost i: int)
    requires h.Valid() && 1 <= size < 2 * h.n - HEADER_BYTES && AlignFits(HEADER_BYTES, h.n)
    modifies h`lists, h`memoryAlloc, h`memoryFree, h`owned, h.owned, set p | p in h.owned :: p.cells
    ensures h.Valid()
    ensures b.Ptr? <==> old(HasRoom(h, size)) || granted
    ensures b.Ptr? ==> Holds(h, b.page, b.at, size) && OnBoundary(b.at, HEADER_BYTES)
    ensures old(HasRoom(h, size)) ==> h.owned == old(h.owned) && FromListed(h, b, i, size)
    ensures !old(HasRoom(h, size)) && granted ==> FromNew(h, b, size)
    ensures b.Null? ==> h.owned == old(h.owned) && h.lists == old(h.lists)
    ensures h.larges == old(h.larges)
    ensures OthersKept(h, NoMemory)
    ensures forall p, a, s :: p in old(h.owned) && old(Holds(h, p, a, s)) ==> Holds(h, p, a, s)
  {
    hide Page.Valid, Page.FreeList, Held, Word, HasRoom, Best, Cut, Carve, Joins, Leaves, OnBoundary, Heap.Valid;
    h.HeapParts();
    b, i := AllocObject(h, size, granted);
    if b.Ptr? {
      StoreSize(h, b.page, b.at, size);
    }
  }

  /** kmalloc.  `granted` is the page allocator's answer, should pages be needed.  The ghost result is the
      position of the serving page on its list. */
  method Kmalloc(h: Heap, size: int, granted: bool) returns (c: Chunk, ghost i: int)
    requires h.Valid() && size >= 0 && AlignFits(HEADER_BYTES, h.n)
    modifies h`lists, h`memoryAlloc, h`memoryFree, h`owned, h`larges, h.owned, set p | p in h.owned :: p.cells
    ensures h.Valid()
    ensures c.ZeroSize? <==> size == 0 && 2 * h.n > HEADER_BYTES
    ensures c.Slob? <==> 1 <= size < 2 * h.n - HEADER_BYTES && (old(HasRoom(h, size)) || granted)
    ensures c.Whole? <==> granted && size >= 2 * h.n - HEADER_BYTES
    // an object remembers its size and starts on a multiple of eight bytes, as what is behind its header does
    ensures c.Slob? ==>
      Holds(h, c.page, c.at, size) && OnBoundary(c.at, HEADER_BYTES) && OnBoundary(c.at + HEADER_UNITS, HEADER_BYTES)
    // it comes from the best listed page, and from a new one only if no listed page has room
    ensures c.Slob? && old(HasRoom(h, size)) ==>
      h.owned == old(h.owned) && FromListed(h, Ptr(c.page, c.at), i, size)
    ensures c.Slob? && !old(HasRoom(h, size)) ==> FromNew(h, Ptr(c.page, c.at), size)
    // the smallest number of doublings of a page that is enough
    ensures c.Whole? ==>
      c.bytes >= size && Doubled(2 * h.n, c.bytes) && (c.bytes > 2 * h.n ==> c.bytes / 2 < size)
    ensures !c.Slob? ==> h.owned == old(h.owned) && h.lists == old(h.lists)
    ensures c.Whole? || c.ZeroSize? ==> h.memoryFree == old(h.memoryFree)
    ensures h.larges == old(h.larges) + if c.Whole? then 1 else 0
    // all objects are still there and hold what they held, the ones kmalloc handed out among them
    ensures OthersKept(h, NoMemory)
    ensures forall p, a, s :: p in old(h.owned) && old(Holds(h, p, a, s)) ==> Holds(h, p, a, s)
  {
    hide Page.Valid, Page.FreeList, Held, Word, HasRoom, Best, Cut, Carve, Joins, Leaves, OnBoundary, FromListed,
         FromNew, Holds;
    i := 0;
    if size < 2 * h.n - HEADER_BYTES {
      if size == 0 {
        return ZeroSize, i;
      }
      var b;
      b, i := SmallObject(h, size, granted);
      if b.Null? {
        return NoMemory, i;
      }
      BehindHeader(b.at);
      c := Slob(b.page, b.at);
    } else {
      if !granted {
        return NoMemory, i;
      }
      h.memoryAlloc := h.memoryAlloc + POINTER_BYTES;
      h.larges := h.larges + 1;
      c := Whole(PagesBytes(2 * h.n, size));
      PagesDoubled(2 * h.n, 2 * h.n, size);
    }
  }

  /** slob_free on behalf of kfree. */
  method FreeObject(h: Heap, b: Ptr, size: int)
    requires h.Valid() && b.Ptr? && Holds(h, b.page, b.at, size)
    modifies h`lists, h`memoryAlloc, h`owned, h.owned, set p | p in h.owned :: p.cells
    ensures h.Valid() && h.larges == old(h.larges)
    ensures old(b.page.live.Keys) == {b.at} ==>
      h.owned == old(h.owned) - {b.page} && Leaves(old(h.lists), h.lists, b.page)
    ensures old(b.page.live.Keys) != {b.at} ==>
      && h.owned == old(h.owned) && b.page.cells.Length == b.page.n
      && b.page.FreeList() == Insert(old(b.page.FreeList()), b.at, SlobUnits(size + HEADER_BYTES))
      && b.page.live == old(b.page.live) - {b.at}
      && (if old(b.page.slobFree) then h.lists == old(h.lists)
          else Joins(old(h.lists), h.lists, size + HEADER_BYTES, b.page))
    ensures forall p, a, s :: p in old(h.owned) && (p != b.page || a != b.at) && old(Holds(h, p, a, s))
              ==> Holds(h, p, a, s)
    ensures OthersKept(h, Slob(b.page, b.at))
  {
    hide Page.Valid, Page.FreeList, Heap.Valid, Lists.Add, Lists.Remove, Insert, Joins, Leaves;
    ghost var before := h.owned;
    h.OwnedPage(b.page);
    forall p | p in before ensures p.cells.Length == h.n { h.OwnedPage(p); }
    h.SlobFree(b, size + HEADER_BYTES);
    forall p, a, s | p in before && (p != b.page || a != b.at) && old(Holds(h, p, a, s)) ensures Holds(h, p, a, s) {
      if p == b.page {
        assert a in old(b.page.live.Keys);
        assert p.live[a] == old(p.live[a]);
      } else {
        assert h.Untouched(p);
      }
      assert Held(p.live, a) && Held(p.live, a + 1);
    }
    forall p, a | p in before && a in old(p.live) && Slob(p, a) != Slob(b.page, b.at)
      ensures p in h.owned && a in p.live && p.live[a] == old(p.live[a])
    {
      if p == b.page { assert a in old(b.page.live.Keys); } else { assert h.Untouched(p); }
    }
    forall p, a, x | p in before && a in old(p.live) && Slob(p, a) != Slob(b.page, b.at)
                     && 0 <= x < p.cells.Length && a <= x < a + old(p.live[a])
      ensures p.cells[x] == old(p.cells[x])
    {
      assert Held(p.live, x);
    }
  }

  method ReadSize(h: Heap, c: Chunk, ghost size: int) returns (found: int)
    requires c.Slob? && Holds(h, c.page, c.at, size)
    ensures found == size
  {
    found := Word(c.page.cells[c.at], c.page.cells[c.at + 1]);
  }

  /** The size kfree finds in the header gives slob_free the object's own number of units. */
  method Kfree(h: Heap, c: Chunk, ghost size: int)
    requires h.Valid() && (c.Slob? ==> Holds(h, c.page, c.at, size))
    modifies h`lists, h`memoryAlloc, h`owned, h.owned, set p | p in h.owned :: p.cells
    ensures h.Valid() && h.larges == old(h.larges)
    ensures !c.Slob? ==>
      h.owned == old(h.owned) && h.memoryAlloc == old(h.memoryAlloc) && h.lists == old(h.lists)
    // the page goes back with its last object, otherwise exactly the object becomes free
    ensures c.Slob? && old(c.page.live.Keys) == {c.at} ==>
      h.owned == old(h.owned) - {c.page} && Leaves(old(h.lists), h.lists, c.page)
    ensures c.Slob? && old(c.page.live.Keys) != {c.at} ==>
      && h.owned == old(h.owned) && c.page.cells.Length == c.page.n
      && c.page.FreeList() == Insert(old(c.page.FreeList()), c.at, SlobUnits(size + HEADER_BYTES))
      && c.page.live == old(c.page.live) - {c.at}
      && (if old(c.page.slobFree) then h.lists == old(h.lists)
          else Joins(old(h.lists), h.lists, size + HEADER_BYTES, c.page))
    // every other object survives and holds what it held, every kmalloc object among them
    ensures OthersKept(h, c)
    ensures forall p, a, s :: p in old(h.owned) && c != Slob(p, a) && old(Holds(h, p, a, s)) ==> Holds(h, p, a, s)
  {
    hide Heap.Valid, Holds, Joins, Leaves, Insert, Page.FreeList, Page.Valid, Word;
    if !c.Slob? {
      return;
    }
    hide OthersKept;
    var found := ReadSize(h, c, size);
    FreeObject(h, Ptr(c.page, c.at), found);
  }

  /** ksize: at least the requested size, and exactly what is left of the object behind the header. */
  method Ksize(h: Heap, c: Chunk, ghost size: int) returns (r: int)
    requires !c.NoMemory? && (c.Slob? ==> Holds(h, c.page, c.at, size))
    ensures c.ZeroSize? ==> r == 0
    ensures c.Whole? ==> r == c.bytes
    ensures c.Slob? ==> r >= size && HEADER_BYTES + r == 2 * c.page.live[c.at]
  {
    match c {
      case NoMemory => assert false;
      case ZeroSize => r := 0;
      case Whole(bytes) => r := bytes;
      case Slob(page, at) =>
        var found := Word(page.cells[at], page.cells[at + 1]);
        hide Word, Half;
        r := SlobUnits(found) * 2;
    }
  }
}
