/** One SLOB page: its cells, and slob_page_alloc, find_min_block and the list surgery of slob_free on
    them. */
module SlobPage {
  import opened SlobBlocks
  import opened SlobFit
  import opened SlobList
  import opened SlobObjects

  /** slobidx_t for PAGE_SIZE <= 65534: 16 bits, so that a slob unit is 2 bytes. */
  type SlobIdx = x: int | -0x8000 <= x <= 0x7fff

  /** A power of two not above 65534 is at most 32768, so a page has at most this many units. */
  const MAX_UNITS := 16384

  /** SLOB_UNITS(size): bytes to units, rounded up. */
  function SlobUnits(size: int): (u: int)
    requires size >= 0
    ensures 2 * u - 1 <= size <= 2 * u
  {
    (size + 1) / 2
  }

  // ---------- cells ----------

  predicate SameHeader(c: seq<int>, d: seq<int>, b: Block)
  {
    && 0 <= b.start < |c| == |d|
    && c[b.start] == d[b.start]
    && (b.len > 1 ==> b.start + 1 < |c| && c[b.start + 1] == d[b.start + 1])
  }

  /** Replacing a stretch of the list needs new headers for the new blocks and for the block in front of
      them, and leaves every other header alone. */
  lemma Relink(c: seq<int>, d: seq<int>, bs: seq<Block>, i: int, j: int, ps: seq<Block>, n: int)
    requires Linked(c, bs, n) && 0 <= i <= j <= |bs| && |d| == n
    requires forall u :: 0 <= u < i - 1 || j <= u < |bs| ==> SameHeader(c, d, bs[u])
    requires i > 0 ==> Header(d, bs[i - 1], StartAt(ps + bs[j..], 0, n))
    requires forall u :: 0 <= u < |ps| ==> Header(d, ps[u], StartAt(ps + bs[j..], u + 1, n))
    ensures Linked(d, Splice(bs, i, j, ps), n)
  {
    forall u | 0 <= u < |Splice(bs, i, j, ps)|
      ensures Header(d, Splice(bs, i, j, ps)[u], StartAt(Splice(bs, i, j, ps), u + 1, n))
    {
      RelinkAt(c, d, bs, i, j, ps, n, u);
    }
  }

  lemma RelinkAt(c: seq<int>, d: seq<int>, bs: seq<Block>, i: int, j: int, ps: seq<Block>, n: int, u: int)
    requires Linked(c, bs, n) && 0 <= i <= j <= |bs| && 0 <= u < |Splice(bs, i, j, ps)|
    requires u < i - 1 ==> SameHeader(c, d, bs[u])
    requires u >= i + |ps| ==> SameHeader(c, d, bs[u - i - |ps| + j])
    requires u == i - 1 ==> Header(d, bs[i - 1], StartAt(ps + bs[j..], 0, n))
    requires i <= u < i + |ps| ==> Header(d, ps[u - i], StartAt(ps + bs[j..], u - i + 1, n))
    ensures Header(d, Splice(bs, i, j, ps)[u], StartAt(Splice(bs, i, j, ps), u + 1, n))
  {
    var s := Splice(bs, i, j, ps);
    if u < i - 1 {
      assert s[u] == bs[u] && StartAt(s, u + 1, n) == StartAt(bs, u + 1, n);
    } else if u < i + |ps| {
      assert StartAt(s, u + 1, n) == StartAt(ps + bs[j..], u - i + 1, n);
    } else {
      var v := u - i - |ps| + j;
      assert s[u] == bs[v] && StartAt(s, u + 1, n) == StartAt(bs, v + 1, n);
      assert Header(c, bs[v], StartAt(bs, v + 1, n));
    }
  }

  /** A block with its neighbours. */
  lemma BlockBounds(bs: seq<Block>, k: int, n: int)
    requires Ordered(bs, n) && 0 <= k < |bs|
    ensures 0 <= bs[k].start && 1 <= bs[k].len && bs[k].End() <= n
    ensures bs[k].End() <= StartAt(bs, k + 1, n) <= n
    ensures k > 0 ==> 0 <= bs[k - 1].start && 1 <= bs[k - 1].len && bs[k - 1].End() <= bs[k].start
  {
  }

  /** What the accessors return on a block of the list. */
  lemma ReadBlock(c: seq<int>, bs: seq<Block>, i: int, n: int)
    requires Ordered(bs, n) && Linked(c, bs, n) && 0 <= i < |bs|
    ensures 0 <= bs[i].start < n && bs[i].End() <= n && 1 <= bs[i].len
    ensures c[bs[i].start] >= 0 ==> bs[i].start + 1 < n
    ensures Units(c, bs[i].start) == bs[i].len
    ensures Next(c, bs[i].start) == StartAt(bs, i + 1, n)
    ensures bs[i].End() <= StartAt(bs, i + 1, n) <= n
    ensures Next(c, bs[i].start) % n == 0 <==> i == |bs| - 1
  {
    var next := StartAt(bs, i + 1, n);
    assert Header(c, bs[i], next);
    BlockBounds(bs, i, n);
    HeaderReadsBack(c, bs[i], next);
    PageEndOffset(next, n);
  }

  lemma PageEndOffset(x: int, n: int)
    requires 0 < x <= n
    ensures x % n == 0 <==> x == n
  {
  }

  /** In block `k` or the block in front of it. */
  predicate Near(bs: seq<Block>, k: int, x: int)
    requires 0 <= k < |bs|
  {
    bs[k].start <= x < bs[k].End() || (k > 0 && bs[k - 1].start <= x < bs[k - 1].End())
  }

  // ---------- splitting a block for alignment ----------

  function Split(b: Block, delta: int): seq<Block>
  {
    [Block(b.start, delta), Block(b.start + delta, b.len - delta)]
  }

  /** The two header writes: first the aligned part, which keeps the old successor, then the head. */
  function SplitCells(c: seq<int>, b: Block, delta: int, next: int): (d: seq<int>)
    requires 0 <= b.start && 0 < delta < b.len && b.End() <= |c|
    ensures |d| == |c|
    ensures forall x :: 0 <= x < |c| && (x < b.start || b.End() <= x) ==> d[x] == c[x]
  {
    Put(Put(c, b.start + delta, b.len - delta, next), b.start, delta, b.start + delta)
  }

  lemma SplitOrdered(bs: seq<Block>, k: int, delta: int, n: int)
    requires Ordered(bs, n) && 0 <= k < |bs| && 0 < delta < bs[k].len
    ensures Ordered(Splice(bs, k, k + 1, Split(bs[k], delta)), n)
  {
  }

  lemma SplitHeaders(c: seq<int>, bs: seq<Block>, k: int, delta: int, n: int)
    requires Ordered(bs, n) && Linked(c, bs, n) && 0 <= k < |bs| && 0 < delta < bs[k].len
    ensures bs[k].End() <= n
    ensures var d := SplitCells(c, bs[k], delta, StartAt(bs, k + 1, n));
            && (k > 0 ==> Header(d, bs[k - 1], bs[k].start))
            && Header(d, Split(bs[k], delta)[0], bs[k].start + delta)
            && Header(d, Split(bs[k], delta)[1], StartAt(bs, k + 1, n))
  {
    BlockBounds(bs, k, n);
    if k > 0 { assert Header(c, bs[k - 1], StartAt(bs, k, n)); }
  }

  lemma SplitLinked(c: seq<int>, bs: seq<Block>, k: int, delta: int, n: int)
    requires Ordered(bs, n) && Linked(c, bs, n) && 0 <= k < |bs| && 0 < delta < bs[k].len
    ensures bs[k].End() <= n
    ensures var d := SplitCells(c, bs[k], delta, StartAt(bs, k + 1, n));
            Linked(d, Splice(bs, k, k + 1, Split(bs[k], delta)), n)
  {
    SplitHeaders(c, bs, k, delta, n);
    var d := SplitCells(c, bs[k], delta, StartAt(bs, k + 1, n));
    FrameHeaders(c, d, bs, k, n);
    SplitStarts(bs, k, delta, n);
    hide Ordered, Linked, Header, SplitCells, StartAt, SameHeader;
    Relink(c, d, bs, k, k + 1, Split(bs[k], delta), n);
  }

  lemma SplitStarts(bs: seq<Block>, k: int, delta: int, n: int)
    requires 0 <= k < |bs|
    ensures var ps, rest := Split(bs[k], delta), bs[k + 1..];
            && StartAt(ps + rest, 0, n) == bs[k].start && StartAt(ps + rest, 1, n) == bs[k].start + delta
            && StartAt(ps + rest, 2, n) == StartAt(bs, k + 1, n)
  {
  }

  /** Writes inside block `k` and the block in front of it leave all other headers alone. */
  lemma FrameHeaders(c: seq<int>, d: seq<int>, bs: seq<Block>, k: int, n: int)
    requires Ordered(bs, n) && Linked(c, bs, n) && 0 <= k < |bs| && |d| == n
    requires forall x :: 0 <= x < n && !Near(bs, k, x) ==> d[x] == c[x]
    ensures forall u :: 0 <= u < k - 1 || k < u < |bs| ==> SameHeader(c, d, bs[u])
  {
    hide Ordered, Linked, SameHeader, Near;
    forall u | 0 <= u < k - 1 || k < u < |bs| ensures SameHeader(c, d, bs[u]) {
      FrameHeader(c, d, bs, k, n, u);
    }
  }

  lemma FrameHeader(c: seq<int>, d: seq<int>, bs: seq<Block>, k: int, n: int, u: int)
    requires Ordered(bs, n) && Linked(c, bs, n) && 0 <= k < |bs| && |d| == n && (0 <= u < k - 1 || k < u < |bs|)
    requires forall x :: 0 <= x < n && !Near(bs, k, x) ==> d[x] == c[x]
    ensures SameHeader(c, d, bs[u])
  {
    assert |c| == n;
    Apart(bs, u, k, n);
    hide Ordered, Linked;
    assert !Near(bs, k, bs[u].start);
    if bs[u].len > 1 { assert !Near(bs, k, bs[u].start + 1); }
  }

  /** A block that is neither `k` nor the one in front of it keeps clear of both. */
  lemma Apart(bs: seq<Block>, u: int, k: int, n: int)
    requires Ordered(bs, n) && 0 <= k < |bs| && (0 <= u < k - 1 || k < u < |bs|)
    ensures 0 <= bs[u].start && 1 <= bs[u].len && bs[u].End() <= n
    ensures bs[u].End() <= bs[k].start || bs[k].End() <= bs[u].start
    ensures k > 0 ==> bs[u].End() <= bs[k - 1].start || bs[k - 1].End() <= bs[u].start
  {
  }

  // ---------- taking units from the front of a block ----------

  function Rest(b: Block, units: int): seq<Block>
  {
    if b.len == units then [] else [Block(b.start + units, b.len - units)]
  }

  /** The successor of the block in front, once the units were taken. */
  function Behind(bs: seq<Block>, k: int, units: int, n: int): int
    requires 0 <= k < |bs|
  {
    if bs[k].len == units then StartAt(bs, k + 1, n) else bs[k].start + units
  }

  function DetachCells(c: seq<int>, bs: seq<Block>, k: int, units: int, n: int): (d: seq<int>)
    requires |c| == n && Ordered(bs, n) && 0 <= k < |bs| && 1 <= units <= bs[k].len
    ensures |d| == n
    ensures forall x :: 0 <= x < n && !Near(bs, k, x) ==> d[x] == c[x]
  {
    BlockBounds(bs, k, n);
    var relinked := if k == 0 then c else Put(c, bs[k - 1].start, bs[k - 1].len, Behind(bs, k, units, n));
    if bs[k].len == units then relinked
    else Put(relinked, bs[k].start + units, bs[k].len - units, StartAt(bs, k + 1, n))
  }

  lemma DetachHeaders(c: seq<int>, bs: seq<Block>, k: int, units: int, n: int)
    requires Ordered(bs, n) && Linked(c, bs, n) && 0 <= k < |bs| && 1 <= units <= bs[k].len
    ensures var d := DetachCells(c, bs, k, units, n);
            && (k > 0 ==> Header(d, bs[k - 1], Behind(bs, k, units, n)))
            && (bs[k].len > units ==> Header(d, Rest(bs[k], units)[0], StartAt(bs, k + 1, n)))
  {
    if k > 0 { DetachFrontHeader(c, bs, k, units, n); }
    if bs[k].len > units { DetachRestHeader(c, bs, k, units, n); }
  }

  /** The header of the block in front. */
  lemma DetachFrontHeader(c: seq<int>, bs: seq<Block>, k: int, units: int, n: int)
    requires Ordered(bs, n) && |c| == n && 0 < k < |bs| && 1 <= units <= bs[k].len
    ensures Header(DetachCells(c, bs, k, units, n), bs[k - 1], Behind(bs, k, units, n))
  {
    hide Ordered, StartAt, Behind, Near, Header, Put;
    BlockBounds(bs, k, n);
    var to := Behind(bs, k, units, n);
    PutHeader(c, bs[k - 1], to);
    if bs[k].len > units {
      var d := Put(c, bs[k - 1].start, bs[k - 1].len, to);
      PutKeepsHeader(d, bs[k].start + units, bs[k].len - units, StartAt(bs, k + 1, n), bs[k - 1], to);
    }
  }

  /** The header of what is left of the block. */
  lemma DetachRestHeader(c: seq<int>, bs: seq<Block>, k: int, units: int, n: int)
    requires Ordered(bs, n) && |c| == n && 0 <= k < |bs| && 1 <= units < bs[k].len
    ensures Header(DetachCells(c, bs, k, units, n), Rest(bs[k], units)[0], StartAt(bs, k + 1, n))
  {
    hide Ordered, StartAt, Behind, Near, Header, Put;
    BlockBounds(bs, k, n);
    var d := if k == 0 then c else Put(c, bs[k - 1].start, bs[k - 1].len, Behind(bs, k, units, n));
    PutHeader(d, Rest(bs[k], units)[0], StartAt(bs, k + 1, n));
  }

  lemma PutHeader(c: seq<int>, b: Block, to: int)
    requires 0 <= b.start && 1 <= b.len && b.End() <= |c|
    ensures Header(Put(c, b.start, b.len, to), b, to)
  {
  }

  /** A header survives a write behind its block, and one in front of it. */
  lemma PutKeepsHeader(c: seq<int>, s: int, size: int, next: int, b: Block, to: int)
    requires 0 <= s && 1 <= size && s + size <= |c| && Header(c, b, to) && 1 <= b.len
    requires b.End() <= s || s + size <= b.start
    ensures Header(Put(c, s, size, next), b, to)
  {
  }

  /** The object's first unit still holds the length of the block it came from. */
  lemma DetachedFirstUnit(c: seq<int>, bs: seq<Block>, k: int, units: int, n: int)
    requires Ordered(bs, n) && Linked(c, bs, n) && 0 <= k < |bs| && 1 <= units <= bs[k].len
    ensures 0 <= bs[k].start < n && Units(DetachCells(c, bs, k, units, n), bs[k].start) == bs[k].len
  {
    BlockBounds(bs, k, n);
    ReadBlock(c, bs, k, n);
    hide Ordered, Linked, Put, Units, StartAt, Behind;
    var d, at := c, bs[k].start;
    if k > 0 {
      PutElsewhere(c, bs[k - 1].start, bs[k - 1].len, Behind(bs, k, units, n), at);
      d := Put(c, bs[k - 1].start, bs[k - 1].len, Behind(bs, k, units, n));
    }
    if bs[k].len > units {
      PutElsewhere(d, at + units, bs[k].len - units, StartAt(bs, k + 1, n), at);
    }
  }

  lemma PutElsewhere(c: seq<int>, s: int, size: int, next: int, x: int)
    requires 0 <= s && 1 <= size && s + size <= |c| && 0 <= x < |c| && (x < s || s + size <= x)
    ensures Units(Put(c, s, size, next), x) == Units(c, x)
  {
  }

  lemma RestNext(bs: seq<Block>, k: int, units: int, n: int)
    requires 0 <= k < |bs|
    ensures var ps, rest := Rest(bs[k], units), bs[k + 1..];
            && StartAt(ps + rest, 0, n) == Behind(bs, k, units, n)
            && StartAt(ps + rest, |ps|, n) == StartAt(bs, k + 1, n)
    ensures StartAt(Splice(bs, k, k + 1, Rest(bs[k], units)), 0, n)
            == if k == 0 then Behind(bs, k, units, n) else StartAt(bs, 0, n)
  {
  }

  lemma DetachLinked(c: seq<int>, bs: seq<Block>, k: int, units: int, n: int)
    requires Ordered(bs, n) && Linked(c, bs, n) && 0 <= k < |bs| && 1 <= units <= bs[k].len
    ensures Linked(DetachCells(c, bs, k, units, n), Splice(bs, k, k + 1, Rest(bs[k], units)), n)
  {
    assert |c| == n;
    hide Ordered, Linked, Header, DetachCells, StartAt, Behind, SameHeader, Splice, Rest;
    DetachHeaders(c, bs, k, units, n);
    FrameHeaders(c, DetachCells(c, bs, k, units, n), bs, k, n);
    hide Near;
    RelinkRest(c, DetachCells(c, bs, k, units, n), bs, k, units, n);
  }

  lemma RelinkRest(c: seq<int>, d: seq<int>, bs: seq<Block>, k: int, units: int, n: int)
    requires Linked(c, bs, n) && |d| == n && 0 <= k < |bs| && 1 <= units <= bs[k].len
    requires forall u :: 0 <= u < k - 1 || k < u < |bs| ==> SameHeader(c, d, bs[u])
    requires k > 0 ==> Header(d, bs[k - 1], Behind(bs, k, units, n))
    requires bs[k].len > units ==> Header(d, Rest(bs[k], units)[0], StartAt(bs, k + 1, n))
    ensures Linked(d, Splice(bs, k, k + 1, Rest(bs[k], units)), n)
  {
    hide Linked, Header, StartAt, Behind, SameHeader, Splice;
    RestNext(bs, k, units, n);
    Relink(c, d, bs, k, k + 1, Rest(bs[k], units), n);
  }

  /** Splitting and then detaching the aligned part carves the object out. */
  lemma SplitThenDetach(bs: seq<Block>, k: int, delta: int, units: int)
    requires Room(bs, k, delta, units) && delta > 0
    ensures var s := Splice(bs, k, k + 1, Split(bs[k], delta));
            Splice(s, k + 1, k + 2, Rest(s[k + 1], units)) == Carve(bs, k, delta, units)
  {
  }

  // ---------- putting an object back ----------

  /** The cells after slob_free put the object back in front of block `k`: first the object's own
      header, merged with block `k` when they touch, then the header of the block in front of it, merged
      with the object when they touch. */
  function InsertCells(c: seq<int>, bs: seq<Block>, k: nat, at: int, units: int, n: int): (d: seq<int>)
    requires |c| == n && Ordered(bs, n) && k <= |bs| && Gap(bs, k, at, units, n)
    ensures |d| == n
  {
    var hi := if JoinsRight(bs, k, at + units) then bs[k].End() else at + units;
    var next := StartAt(bs, if JoinsRight(bs, k, at + units) then k + 1 else k, n);
    var own := Put(c, at, hi - at, next);
    if k == 0 then own
    else if JoinsLeft(bs, k, at) then Put(own, bs[k - 1].start, hi - bs[k - 1].start, next)
    else Put(own, bs[k - 1].start, bs[k - 1].len, at)
  }

  /** The object lies between the blocks `k - 1` and `k`. */
  predicate Gap(bs: seq<Block>, k: nat, at: int, units: int, n: int)
    requires k <= |bs|
  {
    && 0 <= at && 1 <= units && at + units <= StartAt(bs, k, n) && at + units <= n
    && (k > 0 ==> bs[k - 1].End() <= at)
  }

  /** What the accessors return once the object's own header was written. */
  lemma OwnHeaderReads(c: seq<int>, bs: seq<Block>, k: nat, at: int, size: int, next: int, n: int)
    requires Ordered(bs, n) && Linked(c, bs, n) && 0 < k <= |bs| && bs[k - 1].End() <= at
    requires 1 <= size && at + size <= n && 1 <= next
    ensures 0 <= bs[k - 1].start < at && 0 <= at < n && bs[k - 1].End() <= n
    ensures var d := Put(c, at, size, next);
            && Units(d, bs[k - 1].start) == bs[k - 1].len
            && Units(d, at) == size && (d[at] >= 0 ==> at + 1 < n) && Next(d, at) == next
  {
    ReadBlock(c, bs, k - 1, n);
  }

  lemma InsertHeaders(c: seq<int>, bs: seq<Block>, k: nat, at: int, units: int, n: int)
    requires Ordered(bs, n) && Linked(c, bs, n) && k <= |bs| && Gap(bs, k, at, units, n)
    ensures var d := InsertCells(c, bs, k, at, units, n);
            var next := StartAt(bs, if JoinsRight(bs, k, at + units) then k + 1 else k, n);
            && Header(d, Joined(bs, k, at, units), next)
            && (k > 0 && !JoinsLeft(bs, k, at) ==> Header(d, bs[k - 1], at))
  {
    assert |c| == n;
    GapBounds(bs, k, at, units, n);
    hide Ordered, Linked, Gap, Header, Put, StartAt;
    var hi := if JoinsRight(bs, k, at + units) then bs[k].End() else at + units;
    var next := StartAt(bs, if JoinsRight(bs, k, at + units) then k + 1 else k, n);
    if k == 0 {
      PutHeader(c, Block(at, hi - at), next);
    } else {
      FrontAndOwn(c, bs[k - 1], at, hi, next, n);
    }
  }

  /** The two header writes of a free behind a block: merged with it, or next to it. */
  lemma FrontAndOwn(c: seq<int>, p: Block, at: int, hi: int, next: int, n: int)
    requires |c| == n && 0 <= p.start && 1 <= p.len && p.End() <= at < hi <= n
    ensures var own := Put(c, at, hi - at, next);
            && Header(Put(own, p.start, hi - p.start, next), Block(p.start, hi - p.start), next)
            && Header(Put(own, p.start, p.len, at), p, at)
            && Header(Put(own, p.start, p.len, at), Block(at, hi - at), next)
  {
    hide Header, Put;
    var own := Put(c, at, hi - at, next);
    PutHeader(c, Block(at, hi - at), next);
    PutHeader(own, Block(p.start, hi - p.start), next);
    PutHeader(own, p, at);
    PutKeepsHeader(own, p.start, p.len, at, Block(at, hi - at), next);
  }

  lemma GapBounds(bs: seq<Block>, k: nat, at: int, units: int, n: int)
    requires Ordered(bs, n) && k <= |bs| && Gap(bs, k, at, units, n)
    ensures 0 <= at && 1 <= units && at + units <= n
    ensures k > 0 ==> 0 <= bs[k - 1].start && 1 <= bs[k - 1].len && bs[k - 1].End() <= at
    ensures k < |bs| ==> at + units <= bs[k].start && 1 <= bs[k].len && bs[k].End() <= n
  {
  }

  /** The writes touch only the joined block and the header in front of it. */
  lemma InsertFrame(c: seq<int>, bs: seq<Block>, k: nat, at: int, units: int, n: int, x: int)
    requires Ordered(bs, n) && |c| == n && k <= |bs| && Gap(bs, k, at, units, n) && 0 <= x < n
    requires !(at <= x < at + units) && !(k > 0 && bs[k - 1].start <= x < bs[k - 1].End())
    requires JoinsRight(bs, k, at + units) ==> !(bs[k].start <= x < bs[k].End())
    ensures InsertCells(c, bs, k, at, units, n)[x] == c[x]
  {
  }

  /** Blocks the insertion does not join keep clear of the written cells. */
  lemma InsertClear(bs: seq<Block>, k: nat, at: int, units: int, n: int, u: int)
    requires Ordered(bs, n) && k <= |bs| && Gap(bs, k, at, units, n)
    requires 0 <= u < k - 1 || (if JoinsRight(bs, k, at + units) then k + 1 else k) <= u < |bs|
    ensures 0 <= bs[u].start && 1 <= bs[u].len && bs[u].End() <= n
    ensures bs[u].End() <= at || at + units <= bs[u].start
    ensures k > 0 ==> bs[u].End() <= bs[k - 1].start || bs[k - 1].End() <= bs[u].start
    ensures JoinsRight(bs, k, at + units) ==> bs[u].End() <= bs[k].start || bs[k].End() <= bs[u].start
  {
  }

  lemma InsertFrameHeaders(c: seq<int>, bs: seq<Block>, k: nat, at: int, units: int, n: int, u: int)
    requires Ordered(bs, n) && |c| == n && k <= |bs| && Gap(bs, k, at, units, n)
    requires 0 <= u < k - 1 || (if JoinsRight(bs, k, at + units) then k + 1 else k) <= u < |bs|
    ensures SameHeader(c, InsertCells(c, bs, k, at, units, n), bs[u])
  {
    hide InsertCells, Ordered, Gap;
    InsertClear(bs, k, at, units, n, u);
    InsertFrame(c, bs, k, at, units, n, bs[u].start);
    if bs[u].len > 1 { InsertFrame(c, bs, k, at, units, n, bs[u].start + 1); }
  }

  /** After the writes the cells hold the list with the object inserted. */
  lemma InsertLinked(c: seq<int>, bs: seq<Block>, k: nat, at: int, units: int, n: int)
    requires |c| == n && Ordered(bs, n) && Linked(c, bs, n) && k <= |bs| && Gap(bs, k, at, units, n)
    ensures Linked(InsertCells(c, bs, k, at, units, n), InsertAt(bs, k, at, units), n)
    ensures StartAt(InsertAt(bs, k, at, units), 0, n) == if k == 0 then at else StartAt(bs, 0, n)
  {
    hide Ordered, Linked, Header, InsertCells, Gap, SameHeader;
    var d := InsertCells(c, bs, k, at, units, n);
    InsertHeaders(c, bs, k, at, units, n);
    var i := if JoinsLeft(bs, k, at) then k - 1 else k;
    var j := if JoinsRight(bs, k, at + units) then k + 1 else k;
    forall u | 0 <= u < k - 1 || j <= u < |bs| ensures SameHeader(c, d, bs[u]) {
      InsertFrameHeaders(c, bs, k, at, units, n, u);
    }
    var ps, rest := [Joined(bs, k, at, units)], bs[j..];
    assert StartAt(ps + rest, 1, n) == StartAt(bs, j, n);
    assert i > 0 && i == k - 1 ==> Header(c, bs[i - 1], StartAt(bs, i, n)) by {
      if i > 0 && i == k - 1 { LinkedAt(c, bs, i - 1, n); }
    }
    if i > 0 && i == k - 1 { FrontHeader(c, d, bs, i - 1, StartAt(bs, i, n)); }
    Relink(c, d, bs, i, j, ps, n);
  }

  lemma LinkedAt(c: seq<int>, bs: seq<Block>, i: int, n: int)
    requires Linked(c, bs, n) && 0 <= i < |bs|
    ensures Header(c, bs[i], StartAt(bs, i + 1, n))
  {
  }

  lemma FrontHeader(c: seq<int>, d: seq<int>, bs: seq<Block>, i: int, next: int)
    requires 0 <= i < |bs| && Header(c, bs[i], next) && SameHeader(c, d, bs[i])
    ensures Header(d, bs[i], next)
  {
  }

  /** A taken stretch falls into the gap the walk looks for. */
  lemma TakenGap(bs: seq<Block>, at: int, units: int, n: int)
    requires Spaced(bs, n) && Taken(bs, at, units, n)
    ensures Gap(bs, Below(bs, at), at, units, n)
    ensures at < n && StartAt(bs, 0, n) != at
    ensures at < StartAt(bs, 0, n) <==> Below(bs, at) == 0
  {
    TakenBetween(bs, at, units, n);
    if bs != [] { assert Covers(bs, bs[0].start); }
  }

  /** Cells that are not free afterwards keep their contents. */
  lemma InsertKeepsHeld(c: seq<int>, bs: seq<Block>, at: int, units: int, n: int, x: int)
    requires Spaced(bs, n) && |c| == n && Taken(bs, at, units, n) && 0 <= x < n
    requires !Covers(bs, x) && !(at <= x < at + units)
    ensures Ordered(bs, n) && Gap(bs, Below(bs, at), at, units, n)
    ensures InsertCells(c, bs, Below(bs, at), at, units, n)[x] == c[x]
  {
    SpacedOrdered(bs, n);
    TakenGap(bs, at, units, n);
    InsertFrame(c, bs, Below(bs, at), at, units, n, x);
  }

  // ---------- both steps together ----------

  /** The list a request is carved from once the block was split for alignment, and the index of the
      aligned part in it. */
  function Aligned(bs: seq<Block>, k: int, delta: int): seq<Block>
    requires 0 <= k < |bs|
  {
    if delta > 0 then Splice(bs, k, k + 1, Split(bs[k], delta)) else bs
  }

  function AlignedIndex(k: int, delta: int): int
  {
    if delta > 0 then k + 1 else k
  }

  lemma AlignedThenDetached(bs: seq<Block>, k: int, delta: int, units: int, n: int)
    requires Ordered(bs, n) && Room(bs, k, delta, units)
    ensures var s, j := Aligned(bs, k, delta), AlignedIndex(k, delta);
            && Ordered(s, n) && 0 <= j < |s| && 1 <= units <= s[j].len
            && s[j] == Block(bs[k].start + delta, bs[k].len - delta)
            && StartOf(s, j - 1) == (if delta > 0 then bs[k].start else StartOf(bs, k - 1))
            && StartAt(s, 0, n) == StartAt(bs, 0, n)
            && Splice(s, j, j + 1, Rest(s[j], units)) == Carve(bs, k, delta, units)
  {
    if delta > 0 {
      SplitOrdered(bs, k, delta, n);
      SplitThenDetach(bs, k, delta, units);
    }
  }

  lemma AlignedNear(bs: seq<Block>, k: int, delta: int, units: int, n: int, x: int)
    requires Ordered(bs, n) && Room(bs, k, delta, units) && !Covers(bs, x)
    ensures AlignedIndex(k, delta) < |Aligned(bs, k, delta)|
    ensures !Near(Aligned(bs, k, delta), AlignedIndex(k, delta), x)
    ensures !(bs[k].start <= x < bs[k].End())
  {
  }

  lemma SpacedOrdered(bs: seq<Block>, n: int)
    requires Spaced(bs, n)
    ensures Ordered(bs, n) && InPage(bs)
  {
  }

  /** The address of a block, -1 (NULL) for no block. */
  function StartOf(bs: seq<Block>, k: int): int
    requires k < |bs|
  {
    if k < 0 then -1 else bs[k].start
  }

  /** The new free list and the object's address after block `k` was taken for the request. */
  predicate Carved(bs: seq<Block>, bs': seq<Block>, k: int, size: int, align: int, r: int)
    requires InPage(bs) && 0 <= k < |bs| && size >= 1 && AlignOk(align)
  {
    && r == bs[k].start + Delta(bs[k].start, align)
    && bs' == Carve(bs, k, Delta(bs[k].start, align), SlobUnits(size))
  }

  class Page {
    const n: int
    const cells: array<SlobIdx>
    var freelist: int
    var units: int
    var slobFree: bool
    ghost var live: map<int, int>

    /** The free list as a walk from `freelist` decodes it. */
    ghost function FreeList(): seq<Block>
      requires cells.Length == n
      reads this`freelist, cells
    {
      Decode(cells[..], freelist, n)
    }

    ghost predicate Valid()
      reads this`freelist, this`units, this`live, cells
    {
      && 1 <= n <= MAX_UNITS && cells.Length == n
      && freelist == StartAt(FreeList(), 0, n)
      && Spaced(FreeList(), n) && Linked(cells[..], FreeList(), n)
      && units == SumLen(FreeList())
      && ObjectsOk(live, n) && Partition(FreeList(), live, n)
    }

    /** A page as slob_new_pages returns it: nothing known about its contents. */
    constructor (n: int)
      requires 1 <= n <= MAX_UNITS
      ensures this.n == n && cells.Length == n && fresh(cells)
      ensures !slobFree && live == map[]
    {
      this.n := n;
      cells := new SlobIdx[n];
      freelist, units, slobFree := 0, 0, false;
      live := map[];
    }

    // ---------- set_slob, slob_units, slob_next, slob_last ----------

    method SetSlob(s: int, size: int, next: int)
      requires cells.Length == n <= MAX_UNITS
      requires 0 <= s < n && 1 <= size <= n && s + size <= n && 0 <= next <= n
      modifies cells
      ensures cells[..] == Put(old(cells[..]), s, size, next)
    {
      if size > 1 {
        cells[s] := size;
        cells[s + 1] := next;
      } else {
        cells[s] := -next;
      }
    }

    function UnitsOf(s: int): (u: int)
      requires 0 <= s < cells.Length
      reads cells
      ensures u == Units(cells[..], s)
    {
      if cells[s] > 0 then cells[s] else 1
    }

    function NextOf(s: int): (r: int)
      requires 0 <= s < cells.Length
      requires cells[s] >= 0 ==> s + 1 < cells.Length
      reads cells
      ensures r == Next(cells[..], s)
    {
      var v: int := cells[s];
      if v < 0 then -v else cells[s + 1]
    }

    /** The successor has page offset 0: it is the page end. */
    predicate Last(s: int)
      requires 0 <= s < cells.Length && n != 0
      requires cells[s] >= 0 ==> s + 1 < cells.Length
      reads cells
    {
      NextOf(s) % n == 0
    }

    // ---------- find_min_block ----------

    /** The slack recorded for the block slob_page_alloc would take, or -1 when it would take none. */
    method FindMinBlock(size: int, align: int) returns (space: int)
      requires Valid() && FreeList() != [] && size >= 1 && AlignOk(align)
      ensures InPage(FreeList()) && space == ChoiceSpace(FreeList(), Request(SlobUnits(size), align))
      ensures space >= -1 && (space == -1 <==> !HasFit(FreeList(), Request(SlobUnits(size), align)))
      ensures space == 0 <==> HasExactFit(FreeList(), Request(SlobUnits(size), align))
    {
      hide HasFit, HasExactFit, AlignUp, Delta, Decode, Linked, Scan, MinSpace, Stopped, Choice, ChoiceSpace, Spaced,
           Ordered, Partition, ObjectsOk, SumLen;
      var units := SlobUnits(size);
      ghost var q := Request(units, align);
      ghost var bs := FreeList();
      SpacedOrdered(bs, n);
      SpaceMeaning(bs, q);
      ghost var i := 0;
      ScanStart(bs, q);
      var cur := freelist;
      var minSpace: SlobIdx := 0;
      var minBlock := -1;
      while true
        invariant 0 <= i < |bs| && cur == bs[i].start
        invariant minBlock == StartOf(bs, Scan(bs, i, q)) && minSpace == MinSpace(bs, i, q)
        invariant !Stopped(bs, i, q)
        decreases |bs| - i
      {
        ReadBlock(cells[..], bs, i, n);
        var avail := UnitsOf(cur);
        var delta := Delta(cur, align);
        ScanStep(bs, i, q, avail, delta);
        if avail >= units + delta && (avail - (units + delta) < minSpace || minBlock == -1) {
          minSpace := avail - units + delta;
          minBlock := cur;
          if minSpace == 0 {
            ScanStopped(bs, i + 1, q);
            break;
          }
        }
        if Last(cur) {
          assert i + 1 == |bs|;
          ScanEnd(bs, q);
          if minBlock == -1 {
            return -1;
          }
          break;
        }
        cur := NextOf(cur);
        i := i + 1;
      }
      return minSpace;
    }

    // ---------- slob_page_alloc ----------

    /** The search loop: the chosen block and the block in front of it, both -1 for NULL. */
    method SearchBest(size: int, align: int) returns (minBlock: int, minPrev: int)
      requires Valid() && FreeList() != [] && size >= 1 && AlignOk(align)
      ensures var bs := FreeList();
              var k := Choice(bs, Request(SlobUnits(size), align));
              minBlock == StartOf(bs, k) && minPrev == StartOf(bs, k - 1)
    {
      hide AlignUp, Delta, Decode, Linked, Scan, MinSpace, Stopped, Choice, ChoiceSpace, Spaced, Ordered, Partition,
           ObjectsOk, SumLen;
      var units := SlobUnits(size);
      ghost var q := Request(units, align);
      ghost var bs := FreeList();
      SpacedOrdered(bs, n);
      ghost var i := 0;
      ghost var k := -1;
      ScanStart(bs, q);
      var prev, cur := -1, freelist;
      var minSpace: SlobIdx := 0;
      minBlock, minPrev := -1, -1;
      while true
        invariant 0 <= i < |bs| && cur == bs[i].start && prev == StartOf(bs, i - 1)
        invariant k == Scan(bs, i, q) && minSpace == MinSpace(bs, i, q) && !Stopped(bs, i, q)
        invariant minBlock == StartOf(bs, k) && minPrev == StartOf(bs, k - 1)
        decreases |bs| - i
      {
        ReadBlock(cells[..], bs, i, n);
        var avail := UnitsOf(cur);
        var delta := Delta(cur, align);
        ScanStep(bs, i, q, avail, delta);
        k := Scan(bs, i + 1, q);
        if avail >= units + delta && (avail - (units + delta) < minSpace || minBlock == -1) {
          minSpace := avail - units + delta;
          minBlock := cur;
          minPrev := prev;
          if minSpace == 0 {
            ScanStopped(bs, i + 1, q);
            break;
          }
        }
        if Last(cur) {
          ScanEnd(bs, q);
          break;
        }
        prev, cur := cur, NextOf(cur);
        i := i + 1;
      }
    }

    /** Make `to` the successor of the block at `prev`, or the first block when there is none. */
    method SetNext(prev: int, to: int)
      requires cells.Length == n <= MAX_UNITS && 0 <= to <= n
      requires prev != -1 ==> 0 <= prev < n && prev + UnitsOf(prev) <= n
      modifies cells, `freelist
      ensures cells[..] == if prev == -1 then old(cells[..]) else Put(old(cells[..]), prev, old(UnitsOf(prev)), to)
      ensures freelist == if prev == -1 then to else old(freelist)
    {
      if prev != -1 {
        SetSlob(prev, UnitsOf(prev), to);
      } else {
        freelist := to;
      }
    }

    /** Split block `k` after its first `delta` units. */
    method SplitBlock(min: int, delta: int, ghost bs: seq<Block>, ghost k: int)
      requires cells.Length == n <= MAX_UNITS && Ordered(bs, n) && Linked(cells[..], bs, n)
      requires 0 <= k < |bs| && min == bs[k].start && 0 < delta < bs[k].len
      modifies cells
      ensures bs[k].End() <= n
      ensures cells[..] == SplitCells(old(cells[..]), bs[k], delta, StartAt(bs, k + 1, n))
    {
      hide Linked, Ordered, StartAt;
      ReadBlock(cells[..], bs, k, n);
      var avail := UnitsOf(min);
      var next := NextOf(min);
      SetSlob(min + delta, avail - delta, next);
      SetSlob(min, delta, min + delta);
    }

    /** Take the first `units` units of block `k` off the list. */
    method DetachFront(min: int, prev: int, units: int, ghost bs: seq<Block>, ghost k: int)
      requires cells.Length == n <= MAX_UNITS && Ordered(bs, n) && Linked(cells[..], bs, n)
      requires 0 <= k < |bs| && min == bs[k].start && prev == StartOf(bs, k - 1) && 1 <= units <= bs[k].len
      modifies cells, `freelist
      ensures cells[..] == DetachCells(old(cells[..]), bs, k, units, n)
      ensures freelist == if k == 0 then Behind(bs, k, units, n) else old(freelist)
    {
      hide Linked, Ordered, StartAt, Put, Units, Next;
      ReadBlock(cells[..], bs, k, n);
      if k > 0 { ReadBlock(cells[..], bs, k - 1, n); }
      var avail := UnitsOf(min);
      var next := NextOf(min);
      ghost var c := cells[..];
      SetNext(prev, if avail == units then next else min + units);
      ghost var f := cells[..];
      if avail != units {
        SetSlob(min + units, avail - units, next);
      }
      assert f == if k == 0 then c else Put(c, bs[k - 1].start, bs[k - 1].len, Behind(bs, k, units, n));
      assert cells[..] == if avail == units then f else Put(f, min + units, avail - units, next);
    }

    /** The page decodes to `bs` once its cells and its freelist field encode it. */
    lemma Decodes(bs: seq<Block>)
      requires cells.Length == n && Spaced(bs, n) && Linked(cells[..], bs, n) && freelist == StartAt(bs, 0, n)
      ensures FreeList() == bs
    {
      DecodeLinked(cells[..], bs, n);
    }

    /** The header writes that carve `units` units out of block `k`, aligned. */
    method CarveBlock(minBlock: int, minPrev: int, align: int, units: int, ghost k: int) returns (r: int)
      requires Valid() && AlignOk(align)
      requires 0 <= k < |FreeList()| && InPage(FreeList())
      requires Room(FreeList(), k, Delta(FreeList()[k].start, align), units)
      requires minBlock == FreeList()[k].start && minPrev == StartOf(FreeList(), k - 1)
      modifies cells, `freelist
      ensures var bs := old(FreeList());
              var delta := Delta(bs[k].start, align);
              && r == bs[k].start + delta
              && Linked(cells[..], Carve(bs, k, delta, units), n)
              && freelist == StartAt(Carve(bs, k, delta, units), 0, n)
              && 0 <= r < n && UnitsOf(r) == bs[k].len - delta
      ensures forall x :: 0 <= x < n && !Covers(old(FreeList()), x) ==> cells[x] == old(cells[x])
    {
      hide Linked, Ordered, Spaced, StartAt, Units, Next, Decode, Delta, SplitCells, DetachCells, Covers, Near,
           Carve, Splice, Behind;
      ghost var bs, c := FreeList(), cells[..];
      SpacedOrdered(bs, n);
      var min, prev := minBlock, minPrev;
      var delta := Delta(min, align);
      ghost var s, j := Aligned(bs, k, delta), AlignedIndex(k, delta);
      AlignedThenDetached(bs, k, delta, units, n);
      if delta > 0 { /* need to fragment head to align */
        SplitLinked(c, bs, k, delta, n);
        SplitBlock(min, delta, bs, k);
        prev := min;
        min := min + delta;
      }
      ghost var d := cells[..];
      DetachFront(min, prev, units, s, j);
      r := min;
      DetachLinked(d, s, j, units, n);
      RestNext(s, j, units, n);
      DetachedFirstUnit(d, s, j, units, n);
      forall x | 0 <= x < n && !Covers(bs, x) ensures cells[x] == c[x] {
        AlignedNear(bs, k, delta, units, n, x);
        assert d[x] == c[x];
      }
    }

    /** Take the best block for the request out of the page; -1 (NULL) when nothing fits. */
    method SlobPageAlloc(size: int, align: int) returns (r: int)
      requires Valid() && FreeList() != [] && size >= 1 && AlignOk(align)
      modifies this, cells
      ensures Valid() && slobFree == old(slobFree) && InPage(old(FreeList()))
      ensures var k := Choice(old(FreeList()), Request(SlobUnits(size), align));
              if k < 0 then
                r == -1 && FreeList() == old(FreeList()) && live == old(live) && cells[..] == old(cells[..])
              else
                && Carved(old(FreeList()), FreeList(), k, size, align, r)
                && live == old(live)[r := SlobUnits(size)] && r !in old(live)
                && units == old(units) - SlobUnits(size)
                && 0 <= r < n && UnitsOf(r) == old(FreeList())[k].End() - r
      // the lowest aligned unit of its block; NULL only if no block has room behind an aligned unit
      ensures r == -1 <==> forall j :: 0 <= j < |old(FreeList())| ==>
                             !CanHold(old(FreeList())[j], SlobUnits(size), align)
      ensures r != -1 ==>
        var b := old(FreeList())[Choice(old(FreeList()), Request(SlobUnits(size), align))];
        && b.start <= r && r + SlobUnits(size) <= b.End() && OnBoundary(r, align)
        && forall u :: b.start <= u < r ==> !OnBoundary(u, align)
      ensures forall x :: 0 <= x < n && Held(old(live), x) ==> cells[x] == old(cells[x])
    {
      hide OnBoundary, CanHold, Ordered, Linked, Units, Next, Spaced, Decode, Delta, Covers, Carve, Choice, Held,
           Partition, ObjectsOk, SumLen, StartAt;
      ghost var bs, c := FreeList(), cells[..];
      ghost var q := Request(SlobUnits(size), align);
      SpacedOrdered(bs, n);
      ChoicePlaces(bs, q);
      var minBlock, minPrev := SearchBest(size, align);
      if minBlock == -1 {
        return -1;
      }
      ghost var k := Choice(bs, q);
      ghost var delta := Delta(bs[k].start, align);
      r := CarveBlock(minBlock, minPrev, align, SlobUnits(size), k);
      units := units - SlobUnits(size);
      CarveSpaced(bs, k, delta, q.units, n);
      Decodes(Carve(bs, k, delta, q.units));
      CarveSum(bs, k, delta, q.units);
      PartitionAfterCarve(bs, live, k, delta, q.units, n);
      forall x | 0 <= x < n && Held(live, x) ensures cells[x] == c[x] {
        HeldNotFree(bs, live, n, x);
      }
      live := live[r := q.units];
    }

    // ---------- slob_free: reinsertion into a partially free page ----------

    /** The walk to the reinsertion point: the last block below `b`, and its successor. */
    method Locate(b: int, ghost bs: seq<Block>) returns (prev: int, next: int, ghost k: nat)
      requires cells.Length == n && Ordered(bs, n) && Linked(cells[..], bs, n) && freelist == StartAt(bs, 0, n)
      requires bs != [] && freelist < b < n
      ensures 0 < k <= |bs| && prev == bs[k - 1].start < b <= next == StartAt(bs, k, n)
    {
      hide Ordered, Linked, Units, Next;
      k := 1;
      ReadBlock(cells[..], bs, 0, n);
      prev := freelist;
      next := NextOf(prev);
      while b > next
        invariant 0 < k <= |bs| && prev == bs[k - 1].start < b && next == StartAt(bs, k, n) <= n
        decreases |bs| - k
      {
        prev := next;
        ReadBlock(cells[..], bs, k, n);
        next := NextOf(prev);
        k := k + 1;
      }
    }

    /** In front of the first block. */
    method ReinsertFirst(b: int, size: int, ghost bs: seq<Block>)
      requires cells.Length == n <= MAX_UNITS && Ordered(bs, n) && Linked(cells[..], bs, n)
      requires bs != [] && freelist == StartAt(bs, 0, n) && Gap(bs, 0, b, size, n)
      modifies cells, `freelist
      ensures cells[..] == InsertCells(old(cells[..]), bs, 0, b, size, n)
      ensures freelist == b
    {
      hide Ordered, Linked, Units, Next, Put;
      ReadBlock(cells[..], bs, 0, n);
      var units := size;
      if b + units == freelist {
        units := units + UnitsOf(freelist);
        freelist := NextOf(freelist);
      }
      SetSlob(b, units, freelist);
      freelist := b;
    }

    /** The object's own header, merged with the block behind it. */
    method WriteOwn(prev: int, next: int, b: int, size: int, ghost bs: seq<Block>, ghost k: nat)
        returns (ghost units: int, ghost after: int)
      requires cells.Length == n <= MAX_UNITS && Ordered(bs, n) && Linked(cells[..], bs, n)
      requires 0 < k <= |bs| && Gap(bs, k, b, size, n)
      requires prev == bs[k - 1].start && next == StartAt(bs, k, n)
      modifies cells
      ensures b + units == if JoinsRight(bs, k, b + size) then bs[k].End() else b + size
      ensures after == StartAt(bs, if JoinsRight(bs, k, b + size) then k + 1 else k, n)
      ensures 1 <= units && b + units <= n && 1 <= after <= n
      ensures cells[..] == Put(old(cells[..]), b, units, after)
    {
      hide Ordered, Linked, Units, Next, Put;
      ReadBlock(cells[..], bs, k - 1, n);
      if k < |bs| { ReadBlock(cells[..], bs, k, n); }
      units, after := size, next;
      if !Last(prev) && b + size == next {
        units, after := size + UnitsOf(next), NextOf(next);
        SetSlob(b, size + UnitsOf(next), NextOf(next));
      } else {
        SetSlob(b, size, next);
      }
    }

    /** Between `prev` and `next`. */
    method ReinsertAfter(prev: int, next: int, b: int, size: int, ghost bs: seq<Block>, ghost k: nat)
      requires cells.Length == n <= MAX_UNITS && Ordered(bs, n) && Linked(cells[..], bs, n)
      requires 0 < k <= |bs| && Gap(bs, k, b, size, n)
      requires prev == bs[k - 1].start && next == StartAt(bs, k, n)
      modifies cells
      ensures cells[..] == InsertCells(old(cells[..]), bs, k, b, size, n)
    {
      hide Ordered, Linked, Units, Next, Put, StartAt;
      ghost var c := cells[..];
      ReadBlock(c, bs, k - 1, n);
      ghost var units, after := WriteOwn(prev, next, b, size, bs, k);
      OwnHeaderReads(c, bs, k, b, units, after, n);
      if prev + UnitsOf(prev) == b {
        SetSlob(prev, UnitsOf(b) + UnitsOf(prev), NextOf(b));
      } else {
        SetSlob(prev, UnitsOf(prev), b);
      }
    }

    /** slob.c:718-746. */
    method Reinsert(b: int, size: int)
      requires Valid() && FreeList() != [] && b in live && live[b] == size
      modifies this, cells
      ensures Valid() && slobFree == old(slobFree)
      ensures FreeList() == Insert(old(FreeList()), b, size)
      ensures live == old(live) - {b} && units == old(units) + size
      ensures forall x :: 0 <= x < n && Held(live, x) ==> cells[x] == old(cells[x])
    {
      hide Ordered, Linked, Units, Next, Put, Spaced, Decode, Covers, Gap, InsertCells, Held, Taken, Below,
           Partition, ObjectsOk, SumLen, StartAt, InsertAt;
      ghost var bs, c := FreeList(), cells[..];
      ObjectTaken(bs, live, b, n);
      SpacedOrdered(bs, n);
      TakenGap(bs, b, size, n);
      units := units + size;
      ghost var k := 0;
      if b < freelist {
        ReinsertFirst(b, size, bs);
      } else {
        var prev, next;
        prev, next, k := Locate(b, bs);
        BelowIs(bs, b, k, n);
        ReinsertAfter(prev, next, b, size, bs, k);
      }
      assert k == Below(bs, b);
      InsertLinked(c, bs, k, b, size, n);
      InsertSpaced(bs, b, size, n);
      Decodes(Insert(bs, b, size));
      InsertSum(bs, b, size, n);
      PartitionAfterInsert(bs, live, b, n);
      forall x | 0 <= x < n && Held(live - {b}, x) ensures cells[x] == c[x] {
        HeldByOthers(bs, live, b, n, x);
        InsertKeepsHeld(c, bs, b, size, n, x);
      }
      live := live - {b};
    }

    // ---------- a page as slob_alloc takes it over, and a full page that gets its first free block ----------

    /** slob.c:649-652. */
    method MakeFree()
      requires cells.Length == n && 1 <= n <= MAX_UNITS && live == map[]
      modifies this, cells
      ensures Valid() && slobFree == old(slobFree) && live == map[]
      ensures FreeList() == [Block(0, n)]
    {
      units := n;
      freelist := 0;
      SetSlob(0, n, n);
      Decodes([Block(0, n)]);
      assert [Block(0, n)][1..] == [];
      forall x | 0 <= x < n ensures Covers([Block(0, n)], x) {
        assert [Block(0, n)][0].start <= x < [Block(0, n)][0].End();
      }
    }

    /** slob.c:695-702. */
    method MakePartial(b: int, size: int)
      requires Valid() && units == 0 && b in live && live[b] == size
      modifies this, cells
      ensures Valid() && slobFree == old(slobFree)
      ensures FreeList() == Insert(old(FreeList()), b, size)
      ensures live == old(live) - {b} && units == size
      ensures forall x :: 0 <= x < n && Held(live, x) ==> cells[x] == old(cells[x])
    {
      hide Held, Partition, Covers, ObjectsOk;
      ghost var bs := FreeList();
      NoUnitsNoBlocks(bs, n);
      ObjectTaken(bs, live, b, n);
      assert Insert(bs, b, size) == [Block(b, size)];
      units := size;
      freelist := b;
      SetSlob(b, size, n);
      InsertSum(bs, b, size, n);
      Decodes([Block(b, size)]);
      PartitionAfterInsert(bs, live, b, n);
      forall x | 0 <= x < n && Held(live - {b}, x) ensures cells[x] == old(cells[x]) {
        HeldByOthers(bs, live, b, n, x);
      }
      live := live - {b};
    }

    // ---------- the owner of an object writes to it ----------

    lemma HeldIsOutside(bs: seq<Block>, i: int, x: int)
      requires Spaced(bs, n) && 0 <= i < |bs| && 0 <= x < n && !Covers(bs, x)
      ensures x != bs[i].start && (bs[i].len > 1 ==> x != bs[i].start + 1)
    {
      assert bs[i].start <= x < bs[i].End() ==> Covers(bs, x);
    }

    /** A write into a live object leaves the free list alone. */
    method Store(x: int, v: SlobIdx)
      requires Valid() && 0 <= x < n && Held(live, x)
      modifies cells
      ensures Valid() && FreeList() == old(FreeList())
      ensures cells[x] == v && forall y :: 0 <= y < n && y != x ==> cells[y] == old(cells[y])
    {
      hide Decode, Spaced, Covers, Held, SumLen;
      ghost var bs, c := FreeList(), cells[..];
      HeldNotFree(bs, live, n, x);
      cells[x] := v;
      forall i | 0 <= i < |bs| ensures Header(cells[..], bs[i], StartAt(bs, i + 1, n)) {
        assert Header(c, bs[i], StartAt(bs, i + 1, n));
        HeldIsOutside(bs, i, x);
      }
      Decodes(bs);
    }
  }
}
