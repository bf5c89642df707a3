/** The SLOB heap: three lists of partially free pages, and slob_alloc and slob_free on them. */
module SlobHeap {
  import opened SlobBlocks
  import opened SlobFit
  import opened SlobList
  import opened SlobObjects
  import opened SlobPage

  const SLOB_BREAK1 := 256
  const SLOB_BREAK2 := 1024
  /** sizeof(pointer): what slob_new_pages adds to memory_alloc per call. */
  const POINTER_BYTES := 8

  // ---------- the three page lists ----------

  datatype SizeClass = Small | Medium | Large

  /** Which list serves requests of this many bytes. */
  function ClassOf(size: int): (c: SizeClass)
    ensures c.Small? <==> size < 256
    ensures c.Large? <==> size >= 1024
  {
    if size < SLOB_BREAK1 then Small else if size < SLOB_BREAK2 then Medium else Large
  }

  predicate NoDup(l: seq<Page>)
  {
    forall i, j :: 0 <= i < j < |l| ==> l[i] != l[j]
  }

  /** list_del: unlink a node. */
  function Unlink(l: seq<Page>, p: Page): seq<Page>
  {
    if l == [] then [] else if l[0] == p then l[1..] else [l[0]] + Unlink(l[1..], p)
  }

  ghost function Elems(l: seq<Page>): set<Page>
  {
    set x | x in l
  }

  lemma ElemsSplit(l: seq<Page>)
    requires l != []
    ensures Elems(l) == {l[0]} + Elems(l[1..])
  {
    assert l == [l[0]] + l[1..];
  }

  lemma {:induction false} UnlinkElems(l: seq<Page>, p: Page)
    requires NoDup(l)
    ensures NoDup(Unlink(l, p)) && Elems(Unlink(l, p)) == Elems(l) - {p}
    ensures p !in l ==> Unlink(l, p) == l
  {
    if l != [] {
      ElemsSplit(l);
      assert l[0] !in Elems(l[1..]);
      if l[0] != p {
        UnlinkElems(l[1..], p);
        var r := Unlink(l[1..], p);
        ElemsSplit([l[0]] + r);
        assert ([l[0]] + r)[1..] == r;
        assert l[0] !in Elems(r);
        forall j | 0 <= j < |r| ensures r[j] != l[0] { assert r[j] in Elems(r); }
      }
    }
  }

  datatype Lists = Lists(small: seq<Page>, medium: seq<Page>, large: seq<Page>) {
    function Of(c: SizeClass): seq<Page> {
      match c case Small => small case Medium => medium case Large => large
    }

    /** list_add: a page becomes the first of its list. */
    function Add(c: SizeClass, p: Page): Lists {
      match c
      case Small => this.(small := [p] + small)
      case Medium => this.(medium := [p] + medium)
      case Large => this.(large := [p] + large)
    }

    function Remove(p: Page): Lists {
      Lists(Unlink(small, p), Unlink(medium, p), Unlink(large, p))
    }

    ghost function Pages(): set<Page> {
      Elems(small) + Elems(medium) + Elems(large)
    }

    /** No page is listed twice. */
    ghost predicate Distinct() {
      && NoDup(small) && NoDup(medium) && NoDup(large)
      && Elems(small) !! Elems(medium) !! Elems(large)
    }
  }

  lemma RemoveFromLists(ls: Lists, p: Page)
    requires ls.Distinct()
    ensures ls.Remove(p).Distinct()
    ensures ls.Remove(p).Pages() == ls.Pages() - {p}
    ensures forall c :: ls.Remove(p).Of(c) == Unlink(ls.Of(c), p)
  {
    UnlinkElems(ls.small, p);
    UnlinkElems(ls.medium, p);
    UnlinkElems(ls.large, p);
  }

  lemma RemovedIsOff(ls: Lists, p: Page)
    requires ls.Distinct()
    ensures p !in ls.Remove(p).small && p !in ls.Remove(p).medium && p !in ls.Remove(p).large
  {
    RemoveFromLists(ls, p);
    assert p !in Elems(ls.Remove(p).small) && p !in Elems(ls.Remove(p).medium) && p !in Elems(ls.Remove(p).large);
  }

  lemma AddToLists(ls: Lists, c: SizeClass, p: Page)
    requires ls.Distinct() && p !in ls.Pages()
    ensures ls.Add(c, p).Distinct()
    ensures ls.Add(c, p).Pages() == ls.Pages() + {p}
    ensures ls.Add(c, p).Remove(p) == ls
  {
    UnlinkElems(ls.small, p);
    UnlinkElems(ls.medium, p);
    UnlinkElems(ls.large, p);
    var l := ls.Of(c);
    assert ([p] + l)[1..] == l;
    assert Elems([p] + l) == Elems(l) + {p};
  }

  // ---------- what joining and leaving means for each list ----------

  /** Freeing or allocating `size` bytes puts the page in front of the list for that size, and nowhere else. */
  predicate Joins(before: Lists, after: Lists, size: int, p: Page)
  {
    && after.small == (if size < 256 then [p] + before.small else before.small)
    && after.medium == (if 256 <= size < 1024 then [p] + before.medium else before.medium)
    && after.large == (if size >= 1024 then [p] + before.large else before.large)
  }

  lemma AddJoins(ls: Lists, size: int, p: Page)
    ensures Joins(ls, ls.Add(ClassOf(size), p), size, p)
    ensures ls.Add(ClassOf(size), p).Of(ClassOf(size)) == [p] + ls.Of(ClassOf(size))
  {
  }

  /** The list without the page, the others in the order they had. */
  ghost predicate Without(l: seq<Page>, r: seq<Page>, p: Page)
  {
    (p !in l && r == l) || exists i :: 0 <= i < |l| && l[i] == p && p !in l[..i] && r == l[..i] + l[i + 1..]
  }

  ghost predicate Leaves(before: Lists, after: Lists, p: Page)
  {
    && Without(before.small, after.small, p) && Without(before.medium, after.medium, p)
    && Without(before.large, after.large, p)
  }

  lemma {:induction false} UnlinkAt(l: seq<Page>, p: Page, i: nat)
    requires i < |l| && l[i] == p && p !in l[..i]
    ensures Unlink(l, p) == l[..i] + l[i + 1..]
  {
    if i > 0 {
      assert l[0] == l[..i][0] && l[1..][..i - 1] == l[..i][1..];
      UnlinkAt(l[1..], p, i - 1);
      assert [l[0]] + l[1..][..i - 1] == l[..i] && l[1..][i..] == l[i + 1..];
    }
  }

  lemma {:induction false} FirstOf(l: seq<Page>, p: Page) returns (i: nat)
    requires p in l
    ensures i < |l| && l[i] == p && p !in l[..i]
  {
    if l[0] == p {
      i := 0;
    } else {
      i := FirstOf(l[1..], p);
      assert l[..i + 1] == [l[0]] + l[1..][..i];
      i := i + 1;
    }
  }

  lemma {:induction false} UnlinkAbsent(l: seq<Page>, p: Page)
    requires p !in l
    ensures Unlink(l, p) == l
  {
    if l != [] {
      UnlinkAbsent(l[1..], p);
      assert l == [l[0]] + l[1..];
    }
  }

  lemma UnlinkOrder(l: seq<Page>, p: Page)
    ensures Without(l, Unlink(l, p), p)
  {
    hide Unlink;
    if p in l {
      var i := FirstOf(l, p);
      UnlinkAt(l, p, i);
    } else {
      UnlinkAbsent(l, p);
    }
  }

  lemma RemoveLeaves(ls: Lists, p: Page)
    ensures Leaves(ls, ls.Remove(p), p)
  {
    UnlinkOrder(ls.small, p);
    UnlinkOrder(ls.medium, p);
    UnlinkOrder(ls.large, p);
  }

  // ---------- free units ----------

  function Sum(xs: seq<int>): int
  {
    if xs == [] then 0 else xs[0] + Sum(xs[1..])
  }

  lemma {:induction false} SumConcat(xs: seq<int>, ys: seq<int>)
    ensures Sum(xs + ys) == Sum(xs) + Sum(ys)
  {
    if xs == [] {
      assert xs + ys == ys;
    } else {
      SumConcat(xs[1..], ys);
      assert (xs + ys)[1..] == xs[1..] + ys;
    }
  }

  lemma SumSplit(xs: seq<int>, i: int)
    requires 0 <= i < |xs|
    ensures Sum(xs) == Sum(xs[..i]) + xs[i] + Sum(xs[i + 1..])
    ensures Sum(xs[..i + 1]) == Sum(xs[..i]) + xs[i]
  {
    assert Sum([xs[i]]) == xs[i] by { assert [xs[i]][1..] == []; }
    SumConcat(xs[..i], [xs[i]]);
    assert xs[..i + 1] == xs[..i] + [xs[i]];
    SumConcat(xs[..i + 1], xs[i + 1..]);
    assert xs == xs[..i + 1] + xs[i + 1..];
  }

  /** The free-unit counts along a list. */
  function UnitsAlong(l: seq<Page>): (r: seq<int>)
    reads l
    ensures |r| == |l| && forall i :: 0 <= i < |l| ==> r[i] == l[i].units
  {
    if l == [] then [] else [l[0].units] + UnitsAlong(l[1..])
  }

  /** slob.c:541-543: the tally of one list. */
  method Tally(l: seq<Page>, start: int) returns (total: int)
    ensures total == start + 2 * Sum(UnitsAlong(l))
  {
    total := start;
    ghost var us := UnitsAlong(l);
    var i := 0;
    while i < |l|
      invariant 0 <= i <= |l| && total == start + 2 * Sum(us[..i])
    {
      SumSplit(us, i);
      total := total + l[i].units * 2;
      i := i + 1;
    }
    assert us[..|l|] == us;
  }

  function FreeUnits(ls: Lists): int
    reads ls.small, ls.medium, ls.large
  {
    Sum(UnitsAlong(ls.small)) + Sum(UnitsAlong(ls.medium)) + Sum(UnitsAlong(ls.large))
  }

  lemma {:induction false} SumUnlinked(l: seq<Page>, sp: Page)
    requires NoDup(l)
    ensures Sum(UnitsAlong(Unlink(l, sp))) == Sum(UnitsAlong(l)) - if sp in l then sp.units else 0
  {
    if l != [] {
      var r := UnitsAlong(l);
      assert r[1..] == UnitsAlong(l[1..]);
      if l[0] != sp {
        SumUnlinked(l[1..], sp);
        var m := [l[0]] + Unlink(l[1..], sp);
        assert UnitsAlong(m)[1..] == UnitsAlong(Unlink(l[1..], sp));
      }
    }
  }

  /** A page's own share of the total. */
  lemma FreeUnitsRemoved(ls: Lists, sp: Page)
    requires ls.Distinct() && sp in ls.Pages()
    ensures FreeUnits(ls.Remove(sp)) == FreeUnits(ls) - sp.units
  {
    SumUnlinked(ls.small, sp);
    SumUnlinked(ls.medium, sp);
    SumUnlinked(ls.large, sp);
  }

  lemma FreeUnitsAdded(ls: Lists, c: SizeClass, sp: Page)
    requires ls.Distinct() && sp !in ls.Pages()
    ensures FreeUnits(ls.Add(c, sp)) == FreeUnits(ls) + sp.units
  {
    hide FreeUnits;
    AddToLists(ls, c, sp);
    FreeUnitsRemoved(ls.Add(c, sp), sp);
  }

  // ---------- which page serves a request ----------

  ghost predicate Serves(p: Page, size: int, align: int)
    requires size >= 1 && AlignOk(align) && p.Valid()
    reads p, p.cells
  {
    SpacedOrdered(p.FreeList(), p.n);
    HasFit(p.FreeList(), Request(SlobUnits(size), align))
  }

  ghost predicate ServesExactly(p: Page, size: int, align: int)
    requires size >= 1 && AlignOk(align) && p.Valid()
    reads p, p.cells
  {
    SpacedOrdered(p.FreeList(), p.n);
    HasExactFit(p.FreeList(), Request(SlobUnits(size), align))
  }

  /** The page slob_alloc takes among those that serve the request: the first one with an unshifted
      exact fit; if there is none, the one with the fewest free units, the earliest of those. */
  ghost predicate BestPage(l: seq<Page>, size: int, align: int, i: int)
    requires size >= 1 && AlignOk(align) && forall p :: p in l ==> p.Valid()
    reads l, set p | p in l :: p.cells
  {
    && 0 <= i < |l| && Serves(l[i], size, align)
    && (forall j :: 0 <= j < i ==> !ServesExactly(l[j], size, align))
    && (ServesExactly(l[i], size, align) ||
        forall j :: 0 <= j < |l| ==>
          && !ServesExactly(l[j], size, align)
          && (Serves(l[j], size, align) ==>
              l[i].units <= l[j].units && (j < i ==> l[i].units < l[j].units)))
  }

  /** The test `sp->units < SLOB_UNITS(size)` never hides a page that serves the request. */
  lemma PrefilterHidesNothing(p: Page, size: int, align: int)
    requires size >= 1 && AlignOk(align) && p.Valid() && Serves(p, size, align)
    ensures p.units >= SlobUnits(size)
  {
    var bs, q := p.FreeList(), Request(SlobUnits(size), align);
    SpacedOrdered(bs, p.n);
    var j :| 0 <= j < |bs| && CanHold(bs[j], q.units, align);
    BlockWithinUnits(bs, j, p.n);
  }

  lemma SpaceOfPage(p: Page, size: int, align: int)
    requires size >= 1 && AlignOk(align) && p.Valid()
    ensures InPage(p.FreeList())
    ensures var space := ChoiceSpace(p.FreeList(), Request(SlobUnits(size), align));
            && (space == 0 <==> ServesExactly(p, size, align))
            && (space >= 0 <==> Serves(p, size, align))
            && (Choice(p.FreeList(), Request(SlobUnits(size), align)) >= 0 <==> Serves(p, size, align))
  {
    SpacedOrdered(p.FreeList(), p.n);
    SpaceMeaning(p.FreeList(), Request(SlobUnits(size), align));
  }

  lemma ListedHasBlocks(p: Page)
    requires p.Valid() && p.units > 0
    ensures p.FreeList() != []
  {
    NoUnitsNoBlocks(p.FreeList(), p.n);
  }

  /** slob.c:590-622: the walk over one list. */
  method PickPage(l: seq<Page>, size: int, align: int) returns (best: int)
    requires size >= 1 && AlignOk(align) && forall p :: p in l ==> p.Valid() && p.units > 0
    ensures -1 <= best < |l|
    ensures best == -1 ==> forall p :: p in l ==> !Serves(p, size, align)
    ensures best != -1 ==> BestPage(l, size, align, best)
  {
    hide Page.Valid, Serves, ServesExactly, ChoiceSpace, Choice;
    var minUnits := -1;
    best := -1;
    var i := 0;
    while i < |l|
      invariant 0 <= i <= |l| && -1 <= best < i
      invariant forall j :: 0 <= j < i ==> !ServesExactly(l[j], size, align)
      invariant best == -1 ==> minUnits == -1 && forall j :: 0 <= j < i ==> !Serves(l[j], size, align)
      invariant best != -1 ==>
        && minUnits == l[best].units && minUnits >= 0 && Serves(l[best], size, align)
        && forall j :: 0 <= j < i && Serves(l[j], size, align) ==>
             minUnits <= l[j].units && (j < best ==> minUnits < l[j].units)
    {
      var sp := l[i];
      assert sp in l;
      SpaceOfPage(sp, size, align);
      if Serves(sp, size, align) { PrefilterHidesNothing(sp, size, align); }
      if sp.units >= SlobUnits(size) {
        ListedHasBlocks(sp);
        var space := sp.FindMinBlock(size, align);
        if space > 0 {
          if sp.units < minUnits || minUnits == -1 {
            minUnits := sp.units;
            best := i;
          }
        } else if space == 0 {
          return i;
        }
      }
      i := i + 1;
    }
  }

  /** The best block of the page was carved up for the request. */
  predicate CarvedFrom(bs: seq<Block>, bs': seq<Block>, size: int, align: int, at: int)
    requires InPage(bs) && size >= 1 && AlignOk(align)
  {
    var k := Choice(bs, Request(SlobUnits(size), align));
    k >= 0 && Carved(bs, bs', k, size, align, at)
  }

  /** What carving units out of a block leaves behind. */
  lemma CarveLaws(bs: seq<Block>, k: int, delta: int, units: int, n: int)
    requires Spaced(bs, n) && Room(bs, k, delta, units)
    ensures var bs', at := Carve(bs, k, delta, units), bs[k].start + delta;
            && Spaced(bs', n) && Taken(bs', at, units, n) && Insert(bs', at, units) == bs
            && (forall x :: Covers(bs', x) <==> Covers(bs, x) && !(at <= x < at + units))
            && (forall x :: at <= x < at + units ==> Covers(bs, x))
  {
    var at := bs[k].start + delta;
    CarveSpaced(bs, k, delta, units, n);
    CarvedTaken(bs, k, delta, units, n);
    CarveThenInsert(bs, k, delta, units, n);
    hide Spaced, Taken, Insert, Carve;
    forall x ensures Covers(Carve(bs, k, delta, units), x) <==> Covers(bs, x) && !(at <= x < at + units) {
      CarveCovers(bs, k, delta, units, n, x);
    }
    forall x | at <= x < at + units ensures Covers(bs, x) {
      assert bs[k].start <= x < bs[k].End();
    }
  }

  /** What an allocation leaves behind: the object is aligned, freeing it gives back the exact free list,
      and the carved list has lost the object's units and no others. */
  lemma AllocationLaws(bs: seq<Block>, bs': seq<Block>, size: int, align: int, at: int, n: int)
    requires InPage(bs) && size >= 1 && AlignOk(align) && Spaced(bs, n)
    requires CarvedFrom(bs, bs', size, align, at)
    ensures align > 0 ==> (2 * at) % align == 0
    ensures Spaced(bs', n) && Taken(bs', at, SlobUnits(size), n)
    ensures Insert(bs', at, SlobUnits(size)) == bs
    ensures forall x :: Covers(bs', x) <==> Covers(bs, x) && !(at <= x < at + SlobUnits(size))
    ensures forall x :: at <= x < at + SlobUnits(size) ==> Covers(bs, x)
  {
    hide Taken, Insert, Carve, Choice, Covers, Delta, InPage;
    var k := Choice(bs, Request(SlobUnits(size), align));
    CarveLaws(bs, k, Delta(bs[k].start, align), SlobUnits(size), n);
  }

  /** Units of the chosen block behind the object. */
  function TailBehind(bs: seq<Block>, size: int, align: int, at: int): int
    requires InPage(bs) && size >= 1 && AlignOk(align)
  {
    var k := Choice(bs, Request(SlobUnits(size), align));
    if k < 0 then 0 else bs[k].End() - (at + SlobUnits(size))
  }

  // ---------- the heap ----------

  datatype Ptr = Null | Ptr(page: Page, at: int)

  class Heap {
    /** SLOB_UNITS(PAGE_SIZE). */
    const n: int
    var lists: Lists
    var memoryAlloc: int
    var memoryFree: int
    /** The pages that belong to the slob allocator (PageSlab). */
    ghost var owned: set<Page>
    /** How often kmalloc took whole pages. */
    ghost var larges: int

    /** An owned page holds an object, and is flagged exactly if it has a free unit. */
    ghost predicate PageOk(p: Page)
      reads p, p.cells
    {
      p.n == n && p.Valid() && p.live != map[] && (p.slobFree <==> p.units > 0)
    }

    ghost predicate PagesOk()
      reads this`owned, owned, set p | p in owned :: p.cells
    {
      && 1 <= n <= MAX_UNITS
      && (forall p :: p in owned ==> PageOk(p))
      && (forall p, q :: p in owned && q in owned && p != q ==> p.cells != q.cells)
    }

    /** A page is flagged exactly if it is on one of the lists. */
    ghost predicate ListsOk()
      reads this`lists, this`owned, owned
    {
      && lists.Distinct()
      && lists.Pages() <= owned
      && forall p :: p in owned ==> (p in lists.Pages() <==> p.slobFree)
    }

    /** What holds whenever slob_lock is free. */
    ghost predicate Valid()
      reads this`lists, this`memoryAlloc, this`owned, this`larges, owned, set p | p in owned :: p.cells
    {
      PagesOk() && ListsOk() && memoryAlloc == POINTER_BYTES * (|owned| + larges) && larges >= 0
    }

    constructor (n: int)
      requires 1 <= n <= MAX_UNITS
      ensures Valid() && this.n == n && owned == {} && memoryAlloc == 0 && lists == Lists([], [], [])
    {
      this.n := n;
      lists := Lists([], [], []);
      memoryAlloc, memoryFree := 0, 0;
      owned := {};
      larges := 0;
    }

    method SetSlobPageFree(sp: Page, c: SizeClass)
      modifies this`lists, sp`slobFree
      ensures lists == old(lists).Add(c, sp) && sp.slobFree
    {
      lists := lists.Add(c, sp);
      sp.slobFree := true;
    }

    method ClearSlobPageFree(sp: Page)
      modifies this`lists, sp`slobFree
      ensures lists == old(lists).Remove(sp) && !sp.slobFree
    {
      lists := lists.Remove(sp);
      sp.slobFree := false;
    }

    /** slob_page_alloc with its list bookkeeping (slob.c:347-349). */
    method PageAlloc(sp: Page, size: int, align: int) returns (b: int)
      requires sp.Valid() && sp.FreeList() != [] && size >= 1 && AlignOk(align)
      requires lists.Distinct() && sp in lists.Pages() && sp.slobFree
      requires Serves(sp, size, align)
      modifies this`lists, sp, sp.cells
      ensures sp.Valid() && sp.cells.Length == sp.n && InPage(old(sp.FreeList()))
      ensures var k := Choice(old(sp.FreeList()), Request(SlobUnits(size), align));
              && k >= 0 && Carved(old(sp.FreeList()), sp.FreeList(), k, size, align, b)
              && sp.live == old(sp.live)[b := SlobUnits(size)] && b !in old(sp.live)
              && 0 <= b < sp.n && sp.UnitsOf(b) == old(sp.FreeList())[k].End() - b
      ensures sp.units == old(sp.units) - SlobUnits(size)
      ensures forall x :: 0 <= x < sp.n && Held(old(sp.live), x) ==> sp.cells[x] == old(sp.cells[x])
      ensures lists == if sp.units == 0 then old(lists).Remove(sp) else old(lists)
      ensures sp.slobFree <==> sp.units != 0
      ensures sp.units >= 0
    {
      hide Carved, Held, Choice, Serves, Lists.Distinct, Lists.Remove, Lists.Pages;
      SpaceOfPage(sp, size, align);
      b := sp.SlobPageAlloc(size, align);
      NoUnitsNoBlocks(sp.FreeList(), sp.n);
      if sp.units == 0 {
        ClearSlobPageFree(sp);
      }
    }

    /** Nothing about a page changed. */
    twostate predicate Untouched(p: Page)
      reads p, p.cells
    {
      && p.freelist == old(p.freelist) && p.units == old(p.units) && p.slobFree == old(p.slobFree)
      && p.live == old(p.live) && p.cells[..] == old(p.cells[..])
    }

    /** Serve the request from a listed page. */
    method AllocFrom(sp: Page, size: int, align: int) returns (b: int)
      requires Valid() && sp in lists.Pages() && size >= 1 && AlignOk(align)
      requires sp.Valid() && Serves(sp, size, align)
      modifies this`lists, sp, sp.cells
      ensures Valid() && InPage(old(sp.FreeList()))
      ensures CarvedFrom(old(sp.FreeList()), sp.FreeList(), size, align, b)
      ensures sp.live == old(sp.live)[b := SlobUnits(size)] && b !in old(sp.live)
      ensures sp.cells.Length == n && 0 <= b < n
      ensures sp.UnitsOf(b) == SlobUnits(size) + TailBehind(old(sp.FreeList()), size, align, b)
      ensures FreeUnits(lists) == old(FreeUnits(lists)) - SlobUnits(size)
      ensures forall x :: 0 <= x < n && Held(old(sp.live), x) ==> sp.cells[x] == old(sp.cells[x])
      ensures lists == if sp.units == 0 then old(lists).Remove(sp) else old(lists)
    {
      hide Carved, Held, Choice, Serves, Lists.Distinct, Lists.Remove, Lists.Pages, Page.Valid, FreeUnits;
      ghost var ls := lists;
      ListedHasBlocks(sp);
      RemoveFromLists(ls, sp);
      FreeUnitsRemoved(ls, sp);
      RemovedIsOff(ls, sp);
      ghost var off := ls.Remove(sp);
      ghost var rest := FreeUnits(off);
      b := PageAlloc(sp, size, align);
      assert forall p :: p in off.small || p in off.medium || p in off.large ==> p.units == old(p.units);
      assert FreeUnits(off) == rest;
      FreeUnitsRemoved(ls, sp);
      assert b in sp.live;
    }

    /** slob.c:540-551. */
    method TallyFree()
      modifies this`memoryFree
      ensures memoryFree == 2 * FreeUnits(lists)
    {
      hide UnitsAlong, Sum;
      var total := Tally(lists.small, 0);
      total := Tally(lists.medium, total);
      total := Tally(lists.large, total);
      memoryFree := total;
    }

    /** slob_new_pages and the setup of the new page (slob.c:215, 641-653), before its first object is
        carved out: the page is listed but holds no object yet. */
    method NewPage(c: SizeClass) returns (sp: Page)
      requires Valid()
      modifies this`lists, this`memoryAlloc
      ensures fresh(sp) && fresh(sp.cells) && sp.n == n && sp.Valid() && sp.slobFree
      ensures sp.FreeList() == [Block(0, n)] && sp.live == map[]
      ensures lists == old(lists).Add(c, sp) && memoryAlloc == old(memoryAlloc) + POINTER_BYTES
    {
      memoryAlloc := memoryAlloc + POINTER_BYTES;
      sp := new Page(n);
      sp.MakeFree();
      SetSlobPageFree(sp, c);
    }

    /** A whole free page serves every request of at most a page, at its first unit. */
    lemma FreshPageServes(sp: Page, size: int, align: int)
      requires sp.Valid() && sp.FreeList() == [Block(0, sp.n)]
      requires 1 <= size <= 2 * sp.n && AlignOk(align) && AlignFits(align, sp.n)
      ensures Serves(sp, size, align) && InPage(sp.FreeList())
      ensures Choice(sp.FreeList(), Request(SlobUnits(size), align)) == 0
      ensures Delta(0, align) == 0
    {
      var bs, q := sp.FreeList(), Request(SlobUnits(size), align);
      assert q.Fits(bs[0]);
      ChoiceFindsAFit(bs, q);
    }

    /** What the walk over a list may rely on. */
    ghost predicate ListOk(c: SizeClass)
      reads this`lists, lists.Of(c), set p | p in lists.Of(c) :: p.cells
    {
      forall p :: p in lists.Of(c) ==> p.Valid() && p.units > 0
    }

    lemma ListPages(c: SizeClass)
      requires Valid()
      ensures ListOk(c)
      ensures forall p :: p in lists.Of(c) ==> p in lists.Pages() && p in owned
    {
      forall p | p in lists.Of(c) ensures p in lists.Pages() {
        assert p in Elems(lists.Of(c));
      }
    }

    /** Some page on the request's list serves it. */
    ghost predicate RoomOn(c: SizeClass, size: int, align: int)
      requires Valid() && size >= 1 && AlignOk(align)
      reads this`lists, this`memoryAlloc, this`owned, this`larges, owned, set p | p in owned :: p.cells
    {
      exists p :: p in lists.Of(c) && p in owned && Serves(p, size, align)
    }

    /** slob.c:654: the page just listed serves the request, whatever it is. */
    method AllocFresh(sp: Page, size: int, align: int) returns (b: int)
      requires sp.Valid() && sp.FreeList() == [Block(0, sp.n)] && sp.live == map[] && sp.slobFree
      requires lists.Distinct() && sp in lists.Pages() && 1 <= size <= 2 * sp.n && AlignOk(align)
      requires AlignFits(align, sp.n)
      modifies this`lists, sp, sp.cells
      ensures sp.Valid() && b == 0 && sp.live == map[0 := SlobUnits(size)]
      ensures sp.FreeList() == Carve([Block(0, sp.n)], 0, 0, SlobUnits(size)) && sp.units == sp.n - SlobUnits(size)
      ensures lists == if sp.units == 0 then old(lists).Remove(sp) else old(lists)
      ensures sp.slobFree <==> sp.units != 0
      ensures sp.units >= 0
    {
      hide Held, Choice, Serves, Lists.Distinct, Lists.Remove, Lists.Pages, Carve, Delta, Page.Valid, Carved;
      FreshPageServes(sp, size, align);
      b := PageAlloc(sp, size, align);
      FreshPageCarved(sp, size, align, b);
    }

    /** slob.c:640-657: take a new page and serve the request from it. */
    method AllocNew(size: int, align: int) returns (sp: Page, b: int)
      requires Valid() && 1 <= size <= 2 * n && AlignOk(align) && AlignFits(align, n)
      modifies this`lists, this`memoryAlloc, this`owned
      ensures Valid() && fresh(sp) && fresh(sp.cells) && owned == old(owned) + {sp}
      ensures b == 0 && sp.live == map[0 := SlobUnits(size)]
      ensures sp.FreeList() == Carve([Block(0, n)], 0, 0, SlobUnits(size))
      ensures memoryAlloc == old(memoryAlloc) + POINTER_BYTES && larges == old(larges)
      ensures lists == if sp.units == 0 then old(lists) else old(lists).Add(ClassOf(size), sp)
      ensures sp.units == n - SlobUnits(size)
    {
      hide Lists.Distinct, Lists.Remove, Lists.Pages, Lists.Add, Carve, Page.Valid, Page.FreeList, PageOk,
           Valid;
      ghost var ls := lists;
      HeapParts();
      sp := NewPage(ClassOf(size));
      assert sp !in ls.Pages();
      AddToLists(ls, ClassOf(size), sp);
      b := AllocFresh(sp, size, align);
      assert 0 in sp.live;
      PageOkIs(sp);
      owned := owned + {sp};
      forall p | p in old(owned) ensures PageOk(p) && p.slobFree == old(p.slobFree) {
        assert old(PageOk(p));
      }
      Grown(sp, ls, old(owned), ClassOf(size));
    }

    /** Adding a page that is in order keeps the heap in order. */
    lemma Grown(sp: Page, ls: Lists, before: set<Page>, c: SizeClass)
      requires 1 <= n <= MAX_UNITS && sp !in before && owned == before + {sp}
      requires PageOk(sp) && forall p :: p in before ==> PageOk(p) && p.cells != sp.cells
      requires forall p, q :: p in before && q in before && p != q ==> p.cells != q.cells
      requires ls.Distinct() && ls.Pages() <= before && forall p :: p in before ==> (p in ls.Pages() <==> p.slobFree)
      requires lists == if sp.units == 0 then ls else ls.Add(c, sp)
      requires larges >= 0 && memoryAlloc == POINTER_BYTES * (|before| + 1 + larges)
      ensures Valid()
    {
      hide Lists.Distinct, Lists.Remove, Lists.Pages, Lists.Add, Page.Valid, PageOk;
      FlagIsUnits(sp);
      AddToLists(ls, c, sp);
    }

    lemma HeapParts()
      requires Valid()
      ensures 1 <= n <= MAX_UNITS && (forall p :: p in owned ==> PageOk(p))
      ensures forall p, q :: p in owned && q in owned && p != q ==> p.cells != q.cells
      ensures lists.Distinct() && lists.Pages() <= owned
      ensures forall p :: p in owned ==> (p in lists.Pages() <==> p.slobFree)
      ensures memoryAlloc == POINTER_BYTES * (|owned| + larges) && larges >= 0
    {
    }

    lemma FlagIsUnits(p: Page)
      requires PageOk(p)
      ensures p.n == n && p.units >= 0 && (p.slobFree <==> p.units != 0)
    {
      NoUnitsNoBlocks(p.FreeList(), p.n);
    }

    lemma PageOkIs(p: Page)
      ensures PageOk(p) <==> p.n == n && p.Valid() && p.live != map[] && (p.slobFree <==> p.units > 0)
    {
    }

    lemma FreshPageCarved(sp: Page, size: int, align: int, b: int)
      requires sp.Valid() && 1 <= size <= 2 * sp.n && AlignOk(align)
      requires Carved([Block(0, sp.n)], sp.FreeList(), 0, size, align, b)
      ensures b == 0 && sp.FreeList() == Carve([Block(0, sp.n)], 0, 0, SlobUnits(size))
      ensures sp.units == sp.n - SlobUnits(size)
    {
      CarveSum([Block(0, sp.n)], 0, 0, SlobUnits(size));
      assert [Block(0, sp.n)][1..] == [];
    }

    lemma BestServes(l: seq<Page>, size: int, align: int, i: int)
      requires size >= 1 && AlignOk(align) && forall p :: p in l ==> p.Valid()
      requires BestPage(l, size, align, i)
      ensures 0 <= i < |l| && l[i].Valid() && Serves(l[i], size, align)
    {
    }

    /** slob.c:540-622: tally the free memory and walk the request's list. */
    method FindPage(size: int, align: int) returns (best: int)
      requires Valid() && size >= 1 && AlignOk(align) && AlignFits(align, n)
      modifies this`memoryFree
      ensures Valid() && memoryFree == 2 * FreeUnits(lists)
      ensures best == -1 <==> !RoomOn(ClassOf(size), size, align)
      ensures best != -1 ==>
        && 0 <= best < |lists.Of(ClassOf(size))| && ListOk(ClassOf(size))
        && BestPage(lists.Of(ClassOf(size)), size, align, best)
        && var sp := lists.Of(ClassOf(size))[best];
           sp in lists.Pages() && sp in owned && sp.Valid() && Serves(sp, size, align)
    {
      hide Lists.Distinct, Lists.Pages, Page.Valid, Serves, BestPage, PageOk, FreeUnits, Valid;
      TallyFree();
      ListPages(ClassOf(size));
      best := PickPage(lists.Of(ClassOf(size)), size, align);
      if best != -1 {
        BestServes(lists.Of(ClassOf(size)), size, align, best);
      }
    }

    /** slob.c:538-635, under the lock: tally the free memory, walk the request's list, and serve the
        request from the best page on it. */
    method AllocListed(size: int, align: int) returns (b: Ptr, ghost i: int)
      requires Valid() && 1 <= size <= 2 * n && AlignOk(align) && AlignFits(align, n)
      modifies this`lists, this`memoryFree, owned, set p | p in owned :: p.cells
      ensures Valid()
      ensures b.Ptr? <==> old(RoomOn(ClassOf(size), size, align))
      ensures b.Ptr? ==> 0 <= i < |old(lists).Of(ClassOf(size))| && b.page == old(lists).Of(ClassOf(size))[i]
      ensures b.Ptr? ==> old(ListOk(ClassOf(size)) && BestPage(lists.Of(ClassOf(size)), size, align, i))
      ensures b.Ptr? ==> b.page in owned && old(b.page.Valid() && InPage(b.page.FreeList()))
      ensures b.Ptr? ==> b.page.Valid() && CarvedFrom(old(b.page.FreeList()), b.page.FreeList(), size, align, b.at)
      ensures b.Ptr? ==> b.at !in old(b.page.live) && b.page.live == old(b.page.live)[b.at := SlobUnits(size)]
      ensures b.Ptr? ==> lists == if b.page.units == 0 then old(lists).Remove(b.page) else old(lists)
      ensures b.Null? ==> lists == old(lists)
      // memory_free misses exactly the units of the chosen block behind the object
      ensures 2 * FreeUnits(lists) - memoryFree
              == if b.Ptr? then 2 * TailBehind(old(b.page.FreeList()), size, align, b.at) else 0
      ensures forall p :: p in owned && (b.Null? || p != b.page) ==> Untouched(p)
      ensures forall p, x :: p in owned && 0 <= x < n && Held(old(p.live), x) ==> p.cells[x] == old(p.cells[x])
    {
      hide Lists.Distinct, Lists.Remove, Lists.Pages, Lists.Add, Page.Valid, Carved, Held, Choice, Serves, Carve,
           InPage, Page.FreeList, BestPage, PageOk, CarvedFrom, FreeUnits, TailBehind, Valid, RoomOn;
      i := -1;
      CellsApart();
      var best := FindPage(size, align);
      if best == -1 {
        return Null, i;
      }
      var sp := lists.Of(ClassOf(size))[best];
      i := best;
      var at := AllocFrom(sp, size, align);
      memoryFree := memoryFree - sp.UnitsOf(at) * 2;
      OwnedPage(sp);
      b := Ptr(sp, at);
    }

    lemma PageParts(sp: Page)
      requires sp.Valid()
      ensures sp.cells.Length == sp.n && InPage(sp.FreeList())
    {
      SpacedOrdered(sp.FreeList(), sp.n);
    }

    lemma NewPageServes(ls: Lists, sp: Page, size: int, align: int)
      requires Valid() && sp in owned && size >= 1 && AlignOk(align) && sp.Valid() && InPage(sp.FreeList())
      requires HasFit(sp.FreeList(), Request(SlobUnits(size), align))
      requires lists == if sp.units == 0 then ls else ls.Add(ClassOf(size), sp)
      ensures RoomOn(ClassOf(size), size, align)
    {
      PrefilterHidesNothing(sp, size, align);
      AddJoins(ls, size, sp);
      assert sp in lists.Of(ClassOf(size));
    }

    /** slob_alloc.  `granted` is the page allocator's answer, should a new page be needed.  The ghost
        result is the position of the serving page on its list. */
    method SlobAlloc(size: int, align: int, granted: bool) returns (b: Ptr, ghost i: int)
      requires Valid() && 1 <= size <= 2 * n && AlignOk(align) && AlignFits(align, n)
      modifies this`lists, this`memoryAlloc, this`memoryFree, this`owned, owned, set p | p in owned :: p.cells
      ensures Valid()
      // from a listed page, whenever one can serve the request: its best page, its best block
      ensures old(RoomOn(ClassOf(size), size, align)) ==>
        b.Ptr? && 0 <= i < |old(lists).Of(ClassOf(size))| && b.page == old(lists).Of(ClassOf(size))[i]
        && b.page in old(owned) && owned == old(owned) && memoryAlloc == old(memoryAlloc)
      ensures old(RoomOn(ClassOf(size), size, align)) ==>
        old(ListOk(ClassOf(size)) && BestPage(lists.Of(ClassOf(size)), size, align, i))
      ensures old(RoomOn(ClassOf(size), size, align)) ==>
        old(b.page.Valid() && InPage(b.page.FreeList())) && b.page.Valid()
        && CarvedFrom(old(b.page.FreeList()), b.page.FreeList(), size, align, b.at)
      ensures old(RoomOn(ClassOf(size), size, align)) ==>
        b.at !in old(b.page.live) && b.page.live == old(b.page.live)[b.at := SlobUnits(size)]
        && (if b.page.units == 0 then Leaves(old(lists), lists, b.page) else lists == old(lists))
      // otherwise from the start of a new page
      ensures !old(RoomOn(ClassOf(size), size, align)) && granted ==>
        b.Ptr? && fresh(b.page) && fresh(b.page.cells) && owned == old(owned) + {b.page}
        && memoryAlloc == old(memoryAlloc) + POINTER_BYTES
        && b.page.Valid() && b.page.FreeList() == Carve([Block(0, n)], 0, 0, SlobUnits(size))
        && b.at == 0 && b.page.live == map[0 := SlobUnits(size)]
        && (if b.page.units == 0 then lists == old(lists) else Joins(old(lists), lists, size, b.page))
      // which then serves the next such request as long as it can
      ensures !old(RoomOn(ClassOf(size), size, align)) && granted ==>
        HasFit(b.page.FreeList(), Request(SlobUnits(size), align)) ==> RoomOn(ClassOf(size), size, align)
      // or not at all
      ensures !old(RoomOn(ClassOf(size), size, align)) && !granted ==>
        b.Null? && owned == old(owned) && lists == old(lists) && memoryAlloc == old(memoryAlloc)
      // memory_free misses the units of the chosen block behind the object, or all of a new page's
      ensures old(RoomOn(ClassOf(size), size, align)) ==>
        2 * FreeUnits(lists) - memoryFree == 2 * TailBehind(old(b.page.FreeList()), size, align, b.at)
      ensures !old(RoomOn(ClassOf(size), size, align)) ==>
        2 * FreeUnits(lists) - memoryFree == if granted then 2 * (n - SlobUnits(size)) else 0
      // no other page changes, and no live object anywhere loses its contents
      ensures forall p :: p in old(owned) && (b.Null? || p != b.page) ==> Untouched(p)
      ensures forall p, x :: p in old(owned) && 0 <= x < n && Held(old(p.live), x) ==> p.cells[x] == old(p.cells[x])
    {
      hide Lists.Distinct, Lists.Remove, Lists.Pages, Lists.Add, Page.Valid, Carved, Held, Choice, Serves, Carve,
           InPage, Page.FreeList, BestPage, PageOk, CarvedFrom, FreeUnits, TailBehind, RoomOn, ListOk, Joins, Leaves,
           HasFit;
      b, i := AllocListed(size, align);
      if b.Ptr? {
        PageOkIs(b.page);
        RemoveLeaves(old(lists), b.page);
        return;
      }
      if !granted {
        return;
      }
      ghost var ls, free := lists, FreeUnits(lists);
      HeapParts();
      var sp, at := AllocNew(size, align);
      PageOkIs(sp);
      assert FreeUnits(ls) == free;
      FreeUnitsAdded(ls, ClassOf(size), sp);
      AddJoins(ls, size, sp);
      PageParts(sp);
      if HasFit(sp.FreeList(), Request(SlobUnits(size), align)) { NewPageServes(ls, sp, size, align); }
      b := Ptr(sp, at);
    }

    /** slob_free.  The object must be live, and freed with the number of units it was allocated with. */
    method SlobFree(b: Ptr, size: int)
      requires Valid() && size >= 1
      requires b.Ptr? ==> b.page in owned && b.at in b.page.live && b.page.live[b.at] == SlobUnits(size)
      modifies this`lists, this`memoryAlloc, this`owned, owned, set p | p in owned :: p.cells
      ensures Valid()
      ensures b.Null? ==> owned == old(owned) && lists == old(lists)
      // the page goes back to the page allocator exactly when this was its last object
      ensures b.Ptr? ==> owned == if old(b.page.live.Keys) == {b.at} then old(owned) - {b.page} else old(owned)
      ensures b.Ptr? && old(b.page.live.Keys) == {b.at} ==> Leaves(old(lists), lists, b.page)
      ensures b.Ptr? && old(b.page.live.Keys) != {b.at} ==>
        && old(b.page.Valid()) && b.page.Valid()
        && b.page.FreeList() == Insert(old(b.page.FreeList()), b.at, SlobUnits(size))
        && b.page.live == old(b.page.live) - {b.at}
        && (if old(b.page.slobFree) then lists == old(lists) else Joins(old(lists), lists, size, b.page))
      ensures forall p :: p in old(owned) && (b.Null? || p != b.page) ==> Untouched(p)
      ensures forall p, x :: p in owned && 0 <= x < n && Held(p.live, x) ==> p.cells[x] == old(p.cells[x])
    {
      hide Page.Valid, Held, Page.FreeList, Insert, PageOk, Valid, Lists.Add, Lists.Remove, Lists.Pages, Joins, Leaves;
      if b.Null? {
        return;
      }
      CellsApart();
      var sp, units := b.page, SlobUnits(size);
      OwnedPage(sp);
      LastObject(sp, b.at);
      RemoveLeaves(lists, sp);
      AddJoins(lists, size, sp);
      if sp.units + units == n {
        ReleasePage(sp);
      } else {
        Reclaim(sp, b.at, size);
      }
    }

    lemma CellsApart()
      requires Valid()
      ensures forall p, q :: p in owned && q in owned && p != q ==> p.cells != q.cells
      ensures lists.Pages() <= owned
      ensures forall p :: p in owned ==> p.cells.Length == n
    {
    }

    lemma OwnedPage(sp: Page)
      requires Valid() && sp in owned
      ensures sp.Valid() && sp.n == n && sp.cells.Length == n && sp.units >= 0 && (sp.slobFree <==> sp.units > 0)
    {
      FlagIsUnits(sp);
    }

    /** slob.c:684-692: the whole page goes back to the page allocator. */
    method ReleasePage(sp: Page)
      requires Valid() && sp in owned
      modifies this`lists, this`memoryAlloc, this`owned, sp`slobFree
      ensures Valid() && owned == old(owned) - {sp} && lists == old(lists).Remove(sp)
    {
      hide Lists.Distinct, Lists.Remove, Lists.Pages, Page.Valid, PageOk;
      ghost var ls := lists;
      RemoveFromLists(ls, sp);
      NotListed(ls, sp);
      if sp.slobFree {
        ClearSlobPageFree(sp);
      }
      owned := owned - {sp};
      memoryAlloc := memoryAlloc - POINTER_BYTES;
    }

    /** slob.c:695-746: the page keeps other objects. */
    method Reclaim(sp: Page, at: int, size: int)
      requires Valid() && size >= 1
      requires sp in owned && at in sp.live && sp.live[at] == SlobUnits(size) && sp.live.Keys != {at}
      modifies this`lists, sp, sp.cells
      ensures Valid() && old(sp.Valid()) && sp.Valid()
      ensures sp.FreeList() == Insert(old(sp.FreeList()), at, SlobUnits(size))
      ensures sp.live == old(sp.live) - {at}
      ensures lists == if old(sp.slobFree) then old(lists) else old(lists).Add(ClassOf(size), sp)
      ensures forall x :: 0 <= x < n && Held(sp.live, x) ==> sp.cells[x] == old(sp.cells[x])
    {
      hide Lists.Distinct, Lists.Add, Lists.Pages, Page.Valid, Held, Page.FreeList, Insert, PageOk;
      ghost var ls, before := lists, sp.live;
      OwnedPage(sp);
      LastObject(sp, at);
      if !sp.slobFree {
        sp.MakePartial(at, SlobUnits(size));
        SetSlobPageFree(sp, ClassOf(size));
        AddToLists(ls, ClassOf(size), sp);
      } else {
        ListedHasBlocks(sp);
        sp.Reinsert(at, SlobUnits(size));
      }
      assert sp.live != map[] && sp.units > 0;
      PageOkIs(sp);
      forall p | p in owned ensures PageOk(p) {
        assert old(PageOk(p));
      }
    }

    lemma LastObject(sp: Page, at: int)
      requires sp.Valid() && at in sp.live
      ensures sp.units + sp.live[at] == sp.n <==> sp.live.Keys == {at}
      ensures sp.live - {at} != map[] <==> sp.live.Keys != {at}
    {
      LastObjectIff(sp.FreeList(), sp.live, at, sp.n);
      var rest := sp.live - {at};
      assert rest.Keys == sp.live.Keys - {at};
      assert rest == map[] <==> rest.Keys == {};
    }

    lemma NotListed(ls: Lists, sp: Page)
      requires ls.Distinct()
      ensures sp !in ls.Pages() ==> ls.Remove(sp) == ls
    {
      UnlinkElems(ls.small, sp);
      UnlinkElems(ls.medium, sp);
      UnlinkElems(ls.large, sp);
    }

    /** The owner of a live object writes one of its cells: the allocator does not notice. */
    method StoreInto(sp: Page, x: int, v: SlobIdx)
      requires Valid() && sp in owned && 0 <= x < n && Held(sp.live, x)
      modifies sp.cells
      ensures Valid() && old(sp.Valid()) && sp.Valid() && sp.FreeList() == old(sp.FreeList())
      ensures sp.cells.Length == n && sp.cells[x] == v
      ensures forall y :: 0 <= y < n && y != x ==> sp.cells[y] == old(sp.cells[y])
    {
      hide Page.Valid, Page.FreeList, Held, PageOk, ListsOk;
      OwnedPage(sp);
      PageOkIs(sp);
      sp.Store(x, v);
      PageOkIs(sp);
      forall p | p in owned ensures PageOk(p) {
        assert old(PageOk(p));
      }
    }
  }

  // ---------- memory_free drifts ----------

  /** What a request of one unit finds and leaves in a page that is free behind its first unit. */
  lemma SecondUnit(bs: seq<Block>, n: int)
    requires 3 <= n && bs == Carve([Block(0, n)], 0, 0, SlobUnits(2))
    ensures bs == [Block(1, n - 1)] && InPage(bs) && AlignOk(0) && HasFit(bs, Request(SlobUnits(2), 0))
    ensures Choice(bs, Request(SlobUnits(2), 0)) == 0
    ensures TailBehind(bs, 2, 0, 1) == n - 2 && SumLen(bs) == n - 1
    ensures forall bs', at :: CarvedFrom(bs, bs', 2, 0, at) ==> at == 1 && SumLen(bs') == n - 2
  {
    var q := Request(SlobUnits(2), 0);
    assert bs == [Block(1, n - 1)] && bs[1..] == [];
    assert q.Fits(bs[0]);
    ChoiceFindsAFit(bs, q);
    assert Carve(bs, 0, 0, 1) == [Block(2, n - 2)] && [Block(2, n - 2)][1..] == [];
  }

  lemma OneListed(ls: Lists, sp: Page)
    requires ls == Lists([sp], [], [])
    ensures FreeUnits(ls) == sp.units
  {
    assert UnitsAlong([sp])[1..] == [];
  }

  lemma PageSums(sp: Page)
    requires sp.Valid()
    ensures sp.cells.Length == sp.n && sp.units == SumLen(sp.FreeList())
  {
  }

  lemma Lonely(h: Heap, sp: Page)
    requires h.Valid() && h.lists == Lists([sp], [], []) && sp in h.owned && sp.Valid() && Serves(sp, 2, 0)
    ensures h.RoomOn(Small, 2, 0)
  {
    assert sp in h.lists.Of(Small);
  }

  /** Two objects of one unit, from an empty heap: memory_free says 0, and all but two units are free. */
  method MemoryFreeDrifts(n: int) returns (h: Heap)
    requires 3 <= n <= MAX_UNITS
    ensures fresh(h) && h.Valid() && h.n == n && FreeUnits(h.lists) == n - 2 && h.memoryFree == 0
  {
    hide Page.Valid, Choice, Carve, BestPage, TailBehind, FreeUnits, Heap.Valid, CarvedFrom, HasFit, Page.FreeList;
    h := new Heap(n);
    var a, i := h.SlobAlloc(2, 0, true);
    ghost var sp := a.page;
    PageSums(sp);
    SecondUnit(sp.FreeList(), n);
    Lonely(h, sp);
    var b, j := h.SlobAlloc(2, 0, true);
    PageSums(sp);
    OneListed(h.lists, sp);
  }
}
