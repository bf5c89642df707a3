/** The in-band free list of one SLOB page, on values.

    A page is a sequence of `n` cells of one slob unit each.  A free block keeps its own header in
    its first cells: a block of more than one unit stores its length and the offset of the next free
    block, a block of exactly one unit stores the negated offset of the next free block.  The offset
    `n` (the first cell after the page) ends the list. */
module SlobBlocks {

  datatype Block = Block(start: int, len: int) {
    function End(): int { start + len }
  }

  // ---------- the encoding: set_slob, slob_units, slob_next, slob_last ----------

  /** The cells after `set_slob(s, size, next)`. */
  function Put(c: seq<int>, s: int, size: int, next: int): (r: seq<int>)
    requires 0 <= s < |c|
    requires size > 1 ==> s + 1 < |c|
    ensures |r| == |c|
    ensures forall x :: 0 <= x < |c| && x != s && x != s + 1 ==> r[x] == c[x]
    ensures size <= 1 && s + 1 < |c| ==> r[s + 1] == c[s + 1]
  {
    if size > 1 then c[s := size][s + 1 := next] else c[s := -next]
  }

  function Units(c: seq<int>, s: int): int
    requires 0 <= s < |c|
  {
    if c[s] > 0 then c[s] else 1
  }

  function Next(c: seq<int>, s: int): int
    requires 0 <= s < |c|
    requires c[s] >= 0 ==> s + 1 < |c|
  {
    if c[s] < 0 then -c[s] else c[s + 1]
  }

  /** `b` can be read back from the cells: its length by `Units`, its successor by `Next`. */
  predicate Header(c: seq<int>, b: Block, next: int)
  {
    && 0 <= b.start < |c|
    && (b.len > 1 ==> b.start + 1 < |c| && c[b.start] == b.len && c[b.start + 1] == next)
    && (b.len == 1 ==> c[b.start] == -next)
  }

  /** What set_slob writes, slob_units and slob_next read back. */
  lemma HeaderReadsBack(c: seq<int>, b: Block, next: int)
    requires Header(c, b, next) && 1 <= b.len && 1 <= next
    ensures Units(c, b.start) == b.len
    ensures (c[b.start] >= 0 ==> b.start + 1 < |c|) && Next(c, b.start) == next
  {
  }

  // ---------- well-formed free lists ----------

  /** In the page, ascending, disjoint and never adjacent. */
  predicate Spaced(bs: seq<Block>, n: int)
  {
    && (forall i :: 0 <= i < |bs| ==> 0 <= bs[i].start && 1 <= bs[i].len && bs[i].End() <= n)
    && (forall i, j :: 0 <= i < j < |bs| ==> bs[i].End() < bs[j].start)
  }

  /** In the page, ascending and disjoint; neighbours may touch. */
  predicate Ordered(bs: seq<Block>, n: int)
  {
    && (forall i :: 0 <= i < |bs| ==> 0 <= bs[i].start && 1 <= bs[i].len && bs[i].End() <= n)
    && (forall i, j :: 0 <= i < j < |bs| ==> bs[i].End() <= bs[j].start)
  }

  /** Where the list continues after its first `i` blocks; `n` at the end. */
  function StartAt(bs: seq<Block>, i: int, n: int): int
    requires 0 <= i
  {
    if i < |bs| then bs[i].start else n
  }

  predicate Linked(c: seq<int>, bs: seq<Block>, n: int)
  {
    && |c| == n
    && forall i :: 0 <= i < |bs| ==> Header(c, bs[i], StartAt(bs, i + 1, n))
  }

  /** The list a walk from `at` finds in the cells.  A walk stops at the page end, and also where the
      cells do not hold a header with a later successor. */
  function Decode(c: seq<int>, at: int, n: int): seq<Block>
    requires |c| == n
    decreases n - at
  {
    if at < 0 || at >= n then []
    else if c[at] >= 0 && at + 1 >= n then []
    else
      var next := Next(c, at);
      if next <= at then [] else [Block(at, Units(c, at))] + Decode(c, next, n)
  }

  lemma {:induction false} DecodeLinkedFrom(c: seq<int>, bs: seq<Block>, i: nat, n: int)
    requires Spaced(bs, n) && Linked(c, bs, n) && i <= |bs|
    ensures Decode(c, StartAt(bs, i, n), n) == bs[i..]
    decreases |bs| - i
  {
    if i < |bs| {
      assert Header(c, bs[i], StartAt(bs, i + 1, n));
      assert StartAt(bs, i + 1, n) > bs[i].start by {
        if i + 1 < |bs| { assert bs[i].End() < bs[i + 1].start; }
      }
      HeaderReadsBack(c, bs[i], StartAt(bs, i + 1, n));
      DecodeLinkedFrom(c, bs, i + 1, n);
      assert [bs[i]] + bs[i + 1..] == bs[i..];
    }
  }

  /** A linked, spaced list is exactly what decoding the cells finds. */
  lemma DecodeLinked(c: seq<int>, bs: seq<Block>, n: int)
    requires Spaced(bs, n) && Linked(c, bs, n)
    ensures Decode(c, StartAt(bs, 0, n), n) == bs
  {
    DecodeLinkedFrom(c, bs, 0, n);
    assert bs[0..] == bs;
  }

  // ---------- the free-unit bitmap ----------

  /** The bit of unit `x` in the page's free-unit bitmap. */
  predicate Covers(bs: seq<Block>, x: int)
  {
    exists i :: 0 <= i < |bs| && bs[i].start <= x < bs[i].End()
  }

  function SumLen(bs: seq<Block>): int
  {
    if bs == [] then 0 else bs[0].len + SumLen(bs[1..])
  }

  lemma {:induction false} SumLenConcat(a: seq<Block>, b: seq<Block>)
    ensures SumLen(a + b) == SumLen(a) + SumLen(b)
  {
    if a == [] {
      assert a + b == b;
    } else {
      SumLenConcat(a[1..], b);
      assert (a + b)[1..] == a[1..] + b;
    }
  }

  ghost function FreeSet(bs: seq<Block>, n: int): set<int>
  {
    set x | 0 <= x < n && Covers(bs, x)
  }

  predicate Between(lo: int, x: int, hi: int)
  {
    lo <= x < hi
  }

  ghost function Interval(lo: int, hi: int): set<int>
  {
    set x | lo <= x < hi && Between(lo, x, hi)
  }

  lemma {:induction false} IntervalSize(lo: int, hi: int)
    requires lo <= hi
    ensures |Interval(lo, hi)| == hi - lo
    decreases hi - lo
  {
    if lo == hi {
      assert Interval(lo, hi) == {};
    } else {
      IntervalSize(lo, hi - 1);
      assert Interval(lo, hi) == Interval(lo, hi - 1) + {hi - 1};
    }
  }

  lemma FreeSetSplit(bs: seq<Block>, n: int)
    requires Spaced(bs, n) && bs != []
    ensures FreeSet(bs, n) == Interval(bs[0].start, bs[0].End()) + FreeSet(bs[1..], n)
    ensures Interval(bs[0].start, bs[0].End()) !! FreeSet(bs[1..], n)
  {
    var head, rest := Interval(bs[0].start, bs[0].End()), FreeSet(bs[1..], n);
    SpacedTail(bs, n);
    assert 0 <= bs[0].start && bs[0].End() <= n;
    forall x ensures x in FreeSet(bs, n) <==> x in head || x in rest {
      CoversTail(bs, x);
      assert x in head <==> bs[0].start <= x < bs[0].End();
    }
  }

  /** The block lengths add up to the number of free units. */
  lemma {:induction false} SumLenIsFreeCount(bs: seq<Block>, n: int)
    requires Spaced(bs, n)
    ensures |FreeSet(bs, n)| == SumLen(bs)
  {
    if bs == [] {
      assert FreeSet(bs, n) == {};
    } else {
      SpacedTail(bs, n);
      SumLenIsFreeCount(bs[1..], n);
      FreeSetSplit(bs, n);
      IntervalSize(bs[0].start, bs[0].End());
    }
  }

  lemma CoversTail(bs: seq<Block>, x: int)
    requires bs != []
    ensures Covers(bs, x) <==> (bs[0].start <= x < bs[0].End() || Covers(bs[1..], x))
  {
    if Covers(bs, x) {
      var i :| 0 <= i < |bs| && bs[i].start <= x < bs[i].End();
      if i > 0 { assert bs[1..][i - 1] == bs[i]; }
    }
    if Covers(bs[1..], x) {
      var i :| 0 <= i < |bs[1..]| && bs[1..][i].start <= x < bs[1..][i].End();
      assert bs[i + 1] == bs[1..][i];
    }
  }

  lemma SpacedTail(bs: seq<Block>, n: int)
    requires Spaced(bs, n) && bs != []
    ensures Spaced(bs[1..], n)
    ensures forall x :: Covers(bs[1..], x) <==> Covers(bs, x) && x >= bs[0].End()
  {
    forall x ensures Covers(bs[1..], x) <==> Covers(bs, x) && x >= bs[0].End() {
      CoversTail(bs, x);
      if Covers(bs[1..], x) {
        var i :| 0 <= i < |bs[1..]| && bs[1..][i].start <= x < bs[1..][i].End();
        assert bs[0].End() < bs[i + 1].start;
      }
    }
  }

  /** The first block of a spaced list is the lowest run of its bitmap. */
  lemma FirstRun(bs: seq<Block>, n: int)
    requires Spaced(bs, n) && bs != []
    ensures Covers(bs, bs[0].start)
    ensures forall x :: Covers(bs, x) ==> x >= bs[0].start
    ensures forall x :: bs[0].start <= x < bs[0].End() ==> Covers(bs, x)
    ensures !Covers(bs, bs[0].End())
  {
  }

  /** Lists with one bitmap start with the same block. */
  lemma SameFirstBlock(a: seq<Block>, b: seq<Block>, n: int)
    requires Spaced(a, n) && Spaced(b, n) && a != [] && b != []
    requires forall x :: Covers(a, x) <==> Covers(b, x)
    ensures a[0] == b[0]
  {
    hide Covers;
    FirstRun(a, n);
    FirstRun(b, n);
    assert a[0].start == b[0].start by { assert Covers(b, a[0].start) && Covers(a, b[0].start); }
    assert !Covers(b, a[0].End()) && !Covers(a, b[0].End());
  }

  lemma NoneCovered(bs: seq<Block>, n: int)
    requires Spaced(bs, n) && forall x :: !Covers(bs, x)
    ensures bs == []
  {
    if bs != [] { FirstRun(bs, n); }
  }

  /** A free list is determined by its bitmap: it is the bitmap's decomposition into maximal runs. */
  lemma {:induction false} SameBitmapSameList(a: seq<Block>, b: seq<Block>, n: int)
    requires Spaced(a, n) && Spaced(b, n)
    requires forall x :: Covers(a, x) <==> Covers(b, x)
    ensures a == b
  {
    hide Covers, Spaced;
    if a == [] {
      NoneCoveredBy(a);
      NoneCovered(b, n);
    } else if b == [] {
      NoneCoveredBy(b);
      NoneCovered(a, n);
    } else {
      SameFirstBlock(a, b, n);
      SpacedTail(a, n);
      SpacedTail(b, n);
      SameBitmapSameList(a[1..], b[1..], n);
      assert a == [a[0]] + a[1..] && b == [b[0]] + b[1..];
    }
  }

  lemma NoneCoveredBy(bs: seq<Block>)
    requires bs == []
    ensures forall x :: !Covers(bs, x)
  {
  }
}
