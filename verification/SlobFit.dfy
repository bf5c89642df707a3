/** Which free block of a page the best-fit scan picks for a request. */
module SlobFit {
  import opened SlobBlocks

  // ---------- alignment ----------

  predicate PowerOfTwo(a: int)
  {
    a == 1 || (a > 1 && a % 2 == 0 && PowerOfTwo(a / 2))
  }

  /** What slob_alloc's callers pass: no alignment, or a power of two (in bytes). */
  predicate AlignOk(align: int)
  {
    align == 0 || PowerOfTwo(align)
  }

  /** The page size is a multiple of the alignment.  A page starts on a page boundary, so the offset in the
      page then says what is aligned. */
  predicate AlignFits(align: int, n: int)
  {
    align == 0 || (2 * n) % align == 0
  }

  lemma MulMonotone(t: int, a: int)
    requires a > 0
    ensures t >= 1 ==> t * a >= a
    ensures t <= -1 ==> t * a <= -a
  {
  }

  lemma MultipleOf(q: int, a: int)
    requires a > 0
    ensures (q * a) % a == 0
  {
    var d, m := (q * a) / a, (q * a) % a;
    assert (q - d) * a == q * a - d * a == m;
    MulMonotone(q - d, a);
  }

  /** ALIGN(x, a): the first multiple of `a` at or above `x`. */
  function AlignUp(x: int, a: int): (r: int)
    requires x >= 0 && a > 0
    ensures x <= r < x + a && r % a == 0
  {
    MultipleOf((x + a - 1) / a, a);
    (x + a - 1) / a * a
  }

  lemma EvenMultiple(r: int, a: int)
    requires a > 0 && a % 2 == 0 && r % a == 0
    ensures r % 2 == 0
  {
    var h, k := a / 2, r / a;
    assert r == a * k == 2 * (h * k);
  }

  lemma ZeroAligned(a: int)
    requires a > 0
    ensures AlignUp(0, a) == 0
  {
  }

  /** Unit `u` of a page starts on a multiple of `align` bytes. */
  predicate OnBoundary(u: int, align: int)
  {
    align == 0 || (2 * u) % align == 0
  }

  lemma ModIs(p: int, e: int, a: int)
    requires 0 <= e < a
    ensures (p * a + e) % a == e
  {
    var x := p * a + e;
    var d, m := x / a, x % a;
    assert (p - d) * a == m - e;
    MulMonotone(p - d, a);
  }

  /** Between a multiple of `a` and the one before it there is none. */
  lemma NoneBetween(x: int, r: int, a: int)
    requires a > 0 && r % a == 0 && r - a < x < r
    ensures x % a != 0
  {
    var p := r / a - 1;
    assert r == a * (r / a) == p * a + a;
    ModIs(p, x - p * a, a);
  }

  /** `aligned - cur` in slob units (of 2 bytes): how far a block's first aligned unit is from its
      start, in a page whose size the alignment divides (AlignFits). */
  function Delta(start: int, align: int): (d: int)
    requires start >= 0 && AlignOk(align)
    ensures d >= 0
    ensures OnBoundary(start + d, align) && forall u :: start <= u < start + d ==> !OnBoundary(u, align)
    ensures align == 0 || start == 0 ==> d == 0
  {
    if align == 0 then 0
    else
      var r := AlignUp(2 * start, align);
      if align == 1 then 0
      else
        EvenMultiple(r, align);
        ZeroAligned(align);
        assert forall u :: start <= u < start + (r - 2 * start) / 2 ==> !OnBoundary(u, align) by {
          forall u | start <= u < start + (r - 2 * start) / 2 ensures !OnBoundary(u, align) {
            NoneBetween(2 * u, r, align);
          }
        }
        (r - 2 * start) / 2
  }

  // ---------- the request, block by block ----------

  datatype Request = Request(units: int, align: int) {
    predicate Valid() { units >= 1 && AlignOk(align) }

    /** The block can hold the object at its first aligned unit. */
    predicate Fits(b: Block)
      requires Valid() && b.start >= 0
    {
      b.len >= units + Delta(b.start, align)
    }

    /** Units the block has too many: the quantity compared with the minimum so far. */
    function Slack(b: Block): int
      requires Valid() && b.start >= 0
    {
      b.len - (units + Delta(b.start, align))
    }

    /** The quantity recorded as the new minimum; it adds the alignment shift instead of
        subtracting it. */
    function Recorded(b: Block): int
      requires Valid() && b.start >= 0
    {
      b.len - units + Delta(b.start, align)
    }

    predicate ExactUnshifted(b: Block)
      requires Valid() && b.start >= 0
    {
      b.len == units && Delta(b.start, align) == 0
    }
  }

  /** A block has room for so many units from some aligned unit of it on. */
  ghost predicate CanHold(b: Block, units: int, align: int)
  {
    exists a :: b.start <= a && a + units <= b.End() && OnBoundary(a, align)
  }

  lemma FitsIff(b: Block, q: Request)
    requires q.Valid() && b.start >= 0
    ensures q.Fits(b) <==> CanHold(b, q.units, q.align)
    ensures q.ExactUnshifted(b) <==> b.len == q.units && OnBoundary(b.start, q.align)
  {
    var d := Delta(b.start, q.align);
    if q.Fits(b) { assert OnBoundary(b.start + d, q.align) && b.start + d + q.units <= b.End(); }
    if a :| b.start <= a && a + q.units <= b.End() && OnBoundary(a, q.align) { assert a >= b.start + d; }
  }

  predicate InPage(bs: seq<Block>)
  {
    forall i :: 0 <= i < |bs| ==> bs[i].start >= 0
  }

  /** Index of the block the scan holds after looking at the first `i` blocks; -1 for none.  Once the
      recorded minimum is 0 the scan has stopped. */
  function Scan(bs: seq<Block>, i: int, q: Request): (k: int)
    requires InPage(bs) && q.Valid() && 0 <= i <= |bs|
    ensures -1 <= k < i
    ensures k >= 0 ==> q.Fits(bs[k])
    decreases i
  {
    if i == 0 then -1
    else
      var k := Scan(bs, i - 1, q);
      if k >= 0 && q.Recorded(bs[k]) == 0 then k
      else if q.Fits(bs[i - 1]) && (q.Slack(bs[i - 1]) < (if k >= 0 then q.Recorded(bs[k]) else 0) || k < 0) then i - 1
      else k
  }

  /** The recorded minimum after the first `i` blocks; 0 while there is none. */
  function MinSpace(bs: seq<Block>, i: int, q: Request): (m: int)
    requires InPage(bs) && q.Valid() && 0 <= i <= |bs|
  {
    var k := Scan(bs, i, q);
    if k < 0 then 0 else q.Recorded(bs[k])
  }

  /** An unshifted exact fit was found and the search loop was left. */
  predicate Stopped(bs: seq<Block>, i: int, q: Request)
    requires InPage(bs) && q.Valid() && 0 <= i <= |bs|
  {
    Scan(bs, i, q) >= 0 && MinSpace(bs, i, q) == 0
  }

  /** Index of the block the page offers for the request; -1 for none. */
  function Choice(bs: seq<Block>, q: Request): (k: int)
    requires InPage(bs) && q.Valid()
    ensures -1 <= k < |bs|
    ensures k >= 0 ==> q.Fits(bs[k])
  {
    Scan(bs, |bs|, q)
  }

  /** The minimum recorded for the chosen block, or -1. */
  function ChoiceSpace(bs: seq<Block>, q: Request): int
    requires InPage(bs) && q.Valid()
  {
    var k := Choice(bs, q);
    if k < 0 then -1 else q.Recorded(bs[k])
  }

  lemma ScanEnd(bs: seq<Block>, q: Request)
    requires InPage(bs) && q.Valid()
    ensures Choice(bs, q) == Scan(bs, |bs|, q)
    ensures ChoiceSpace(bs, q) == if Choice(bs, q) < 0 then -1 else MinSpace(bs, |bs|, q)
  {
  }

  lemma ScanStart(bs: seq<Block>, q: Request)
    requires InPage(bs) && q.Valid()
    ensures Scan(bs, 0, q) == -1 && MinSpace(bs, 0, q) == 0 && !Stopped(bs, 0, q)
  {
  }

  /** One turn of the search loop, in the loop's own arithmetic. */
  lemma ScanStep(bs: seq<Block>, i: int, q: Request, avail: int, delta: int)
    requires InPage(bs) && q.Valid() && 0 <= i < |bs| && !Stopped(bs, i, q)
    requires avail == bs[i].len && delta == Delta(bs[i].start, q.align)
    ensures var k := Scan(bs, i, q);
            var accepts := avail >= q.units + delta && (avail - (q.units + delta) < MinSpace(bs, i, q) || k < 0);
            && Scan(bs, i + 1, q) == (if accepts then i else k)
            && MinSpace(bs, i + 1, q) == (if accepts then avail - q.units + delta else MinSpace(bs, i, q))
            && (accepts ==> 0 <= avail - q.units + delta <= 2 * avail - 2)
            && (Stopped(bs, i + 1, q) <==> accepts && avail - q.units + delta == 0)
  {
    assert q.Fits(bs[i]) <==> avail >= q.units + delta;
    assert q.Slack(bs[i]) == avail - (q.units + delta) && q.Recorded(bs[i]) == avail - q.units + delta;
  }

  lemma {:induction false} ScanStopped(bs: seq<Block>, i: int, q: Request)
    requires InPage(bs) && q.Valid() && 0 <= i <= |bs| && Stopped(bs, i, q)
    ensures Choice(bs, q) == Scan(bs, i, q) >= 0 && ChoiceSpace(bs, q) == MinSpace(bs, i, q)
    decreases |bs| - i
  {
    if i < |bs| { ScanStopped(bs, i + 1, q); }
  }

  // ---------- what the scan guarantees ----------

  lemma {:induction false} ScanFindsAFit(bs: seq<Block>, i: int, q: Request)
    requires InPage(bs) && q.Valid() && 0 <= i <= |bs|
    ensures Scan(bs, i, q) >= 0 <==> exists j :: 0 <= j < i && q.Fits(bs[j])
    decreases i
  {
    if i > 0 {
      ScanFindsAFit(bs, i - 1, q);
      if q.Fits(bs[i - 1]) { assert Scan(bs, i, q) >= 0; }
    }
  }

  /** The scan fails only when no block of the page can hold the object. */
  lemma ChoiceFindsAFit(bs: seq<Block>, q: Request)
    requires InPage(bs) && q.Valid()
    ensures Choice(bs, q) >= 0 <==> exists j :: 0 <= j < |bs| && q.Fits(bs[j])
  {
    ScanFindsAFit(bs, |bs|, q);
  }

  /** No block after the chosen one has less slack than the minimum recorded for it. */
  lemma {:induction false} ScanLaterBlocks(bs: seq<Block>, i: int, q: Request)
    requires InPage(bs) && q.Valid() && 0 <= i <= |bs|
    ensures var k := Scan(bs, i, q);
            k >= 0 ==> forall j :: k < j < i && q.Fits(bs[j]) ==> q.Slack(bs[j]) >= q.Recorded(bs[k])
    decreases i
  {
    if i > 0 { ScanLaterBlocks(bs, i - 1, q); }
  }

  lemma NoBetterLater(bs: seq<Block>, q: Request)
    requires InPage(bs) && q.Valid() && Choice(bs, q) >= 0
    ensures var k := Choice(bs, q);
            forall j :: k < j < |bs| && q.Fits(bs[j]) ==> q.Slack(bs[j]) >= q.Recorded(bs[k]) >= q.Slack(bs[k])
  {
    ScanLaterBlocks(bs, |bs|, q);
  }

  /** An unshifted exact fit is never passed over, whatever the alignment: the first one is chosen. */
  lemma {:induction false} ScanExactFit(bs: seq<Block>, i: int, q: Request, e: int)
    requires InPage(bs) && q.Valid() && 0 <= e < i <= |bs|
    requires q.ExactUnshifted(bs[e]) && forall j :: 0 <= j < e ==> !q.ExactUnshifted(bs[j])
    ensures Scan(bs, i, q) == e
    decreases i
  {
    if i - 1 == e {
      var k := Scan(bs, e, q);
      if k >= 0 {
        assert !q.ExactUnshifted(bs[k]);
        assert q.Recorded(bs[k]) > 0;
      }
    } else {
      ScanExactFit(bs, i - 1, q, e);
    }
  }

  lemma FirstExactFitChosen(bs: seq<Block>, q: Request, e: int)
    requires InPage(bs) && q.Valid() && 0 <= e < |bs|
    requires q.ExactUnshifted(bs[e]) && forall j :: 0 <= j < e ==> !q.ExactUnshifted(bs[j])
    ensures Choice(bs, q) == e
  {
    ScanExactFit(bs, |bs|, q, e);
  }

  /** Some block is exactly as long as the object and starts on a boundary. */
  ghost predicate HasExactFit(bs: seq<Block>, q: Request)
    requires InPage(bs) && q.Valid()
  {
    exists e :: 0 <= e < |bs| && bs[e].len == q.units && OnBoundary(bs[e].start, q.align)
  }

  /** Some block can hold the object. */
  ghost predicate HasFit(bs: seq<Block>, q: Request)
    requires InPage(bs) && q.Valid()
  {
    exists j :: 0 <= j < |bs| && CanHold(bs[j], q.units, q.align)
  }

  lemma HasFitIff(bs: seq<Block>, q: Request)
    requires InPage(bs) && q.Valid()
    ensures HasFit(bs, q) <==> exists j :: 0 <= j < |bs| && q.Fits(bs[j])
    ensures HasExactFit(bs, q) <==> exists e :: 0 <= e < |bs| && q.ExactUnshifted(bs[e])
  {
    hide CanHold, OnBoundary;
    forall j | 0 <= j < |bs|
      ensures q.Fits(bs[j]) <==> CanHold(bs[j], q.units, q.align)
      ensures q.ExactUnshifted(bs[j]) <==> bs[j].len == q.units && OnBoundary(bs[j].start, q.align)
    {
      FitsIff(bs[j], q);
    }
  }

  lemma {:induction false} FirstExact(bs: seq<Block>, q: Request, e: int) returns (f: int)
    requires InPage(bs) && q.Valid() && 0 <= e < |bs| && q.ExactUnshifted(bs[e])
    ensures 0 <= f <= e && q.ExactUnshifted(bs[f]) && forall j :: 0 <= j < f ==> !q.ExactUnshifted(bs[j])
    decreases e
  {
    if d :| 0 <= d < e && q.ExactUnshifted(bs[d]) { f := FirstExact(bs, q, d); } else { f := e; }
  }

  /** What find_min_block's answer tells slob_alloc: 0 for an unshifted exact fit, positive for any
      other fit, -1 when slob_page_alloc would fail. */
  lemma SpaceMeaning(bs: seq<Block>, q: Request)
    requires InPage(bs) && q.Valid()
    ensures ChoiceSpace(bs, q) == 0 <==> HasExactFit(bs, q)
    ensures ChoiceSpace(bs, q) >= 0 <==> HasFit(bs, q)
    ensures ChoiceSpace(bs, q) >= 0 <==> Choice(bs, q) >= 0
  {
    HasFitIff(bs, q);
    hide HasFit, HasExactFit;
    ChoiceFindsAFit(bs, q);
    var k := Choice(bs, q);
    if e :| 0 <= e < |bs| && q.ExactUnshifted(bs[e]) {
      var f := FirstExact(bs, q, e);
      FirstExactFitChosen(bs, q, f);
      RecordedZero(bs[f], q);
    }
    if k >= 0 { RecordedZero(bs[k], q); }
  }

  /** The object goes to the first aligned unit of the chosen block; none is chosen only if no block has
      room for it. */
  lemma ChoicePlaces(bs: seq<Block>, q: Request)
    requires InPage(bs) && q.Valid()
    ensures Choice(bs, q) < 0 <==> forall j :: 0 <= j < |bs| ==> !CanHold(bs[j], q.units, q.align)
    ensures Choice(bs, q) >= 0 ==>
      var b := bs[Choice(bs, q)];
      var r := b.start + Delta(b.start, q.align);
      && b.start <= r && r + q.units <= b.End() && OnBoundary(r, q.align)
      && forall u :: b.start <= u < r ==> !OnBoundary(u, q.align)
  {
    hide OnBoundary, CanHold;
    ChoiceFindsAFit(bs, q);
    HasFitIff(bs, q);
  }

  /** One more block: it displaces the chosen one if its slack, after the shift, is below what was recorded
      for that one, its shift added; a recorded 0 ends the scan. */
  lemma OneMoreBlock(bs: seq<Block>, b: Block, q: Request)
    requires InPage(bs) && b.start >= 0 && q.Valid()
    ensures InPage(bs + [b])
    ensures var k, d := Choice(bs, q), Delta(b.start, q.align);
            var least := if k < 0 then 0 else bs[k].len - q.units + Delta(bs[k].start, q.align);
            Choice(bs + [b], q) == if k >= 0 && least == 0 then k
                                   else if b.len >= q.units + d && (b.len - (q.units + d) < least || k < 0) then |bs|
                                   else k
  {
    assert forall i :: 0 <= i < |bs| ==> (bs + [b])[i] == bs[i];
    ScanPrefix(bs, b, |bs|, q);
  }

  lemma {:induction false} ScanPrefix(bs: seq<Block>, b: Block, i: nat, q: Request)
    requires InPage(bs + [b]) && InPage(bs) && q.Valid() && i <= |bs|
    ensures Scan(bs + [b], i, q) == Scan(bs, i, q)
    decreases i
  {
    if i > 0 { ScanPrefix(bs, b, i - 1, q); }
  }

  /** The recorded minimum is 0 exactly for an unshifted exact fit. */
  lemma RecordedZero(b: Block, q: Request)
    requires q.Valid() && b.start >= 0 && q.Fits(b)
    ensures q.Recorded(b) >= 0
    ensures q.Recorded(b) == 0 <==> q.ExactUnshifted(b)
  {
  }

  ghost predicate LeastSlack(bs: seq<Block>, q: Request, k: int)
    requires InPage(bs) && q.Valid()
  {
    && 0 <= k < |bs| && q.Fits(bs[k])
    && forall j :: 0 <= j < |bs| && q.Fits(bs[j]) ==> q.Slack(bs[k]) <= q.Slack(bs[j])
  }

  lemma NoShift()
    ensures forall start :: start >= 0 ==> Delta(start, 0) == 0
  {
  }

  lemma {:induction false} ScanUnaligned(bs: seq<Block>, i: int, q: Request)
    requires InPage(bs) && q.Valid() && 0 <= i <= |bs| && q.align == 0
    ensures var k := Scan(bs, i, q);
            k >= 0 ==>
              && (forall j :: 0 <= j < i && q.Fits(bs[j]) ==> q.Slack(bs[k]) <= q.Slack(bs[j]))
              && (forall j :: 0 <= j < k && q.Fits(bs[j]) ==> q.Slack(bs[k]) < q.Slack(bs[j]))
    decreases i
  {
    hide OnBoundary, AlignUp, Delta;
    NoShift();
    if i > 0 {
      ScanUnaligned(bs, i - 1, q);
      ScanFindsAFit(bs, i - 1, q);
    }
  }

  /** Without an alignment the page serves the lowest-addressed block of least slack: best fit. */
  lemma UnalignedBestFit(bs: seq<Block>, q: Request)
    requires InPage(bs) && q.Valid() && q.align == 0 && Choice(bs, q) >= 0
    ensures LeastSlack(bs, q, Choice(bs, q))
    ensures forall j :: 0 <= j < Choice(bs, q) ==> !LeastSlack(bs, q, j)
  {
    ScanUnaligned(bs, |bs|, q);
  }

  lemma FourByteShifts()
    ensures AlignOk(4) && Delta(1, 4) == 1 && Delta(8, 4) == 0
  {
    assert PowerOfTwo(2) && PowerOfTwo(4);
    assert AlignUp(2, 4) == 4 && AlignUp(16, 4) == 16;
  }

  /** With an alignment it may not: after a shifted block of slack 0 a later block of slack 1 is
      accepted, because the minimum recorded for the shifted block is twice its shift too large. */
  lemma AlignedBestFitFails(bs: seq<Block>, q: Request)
    requires bs == [Block(1, 4), Block(8, 4)] && q == Request(3, 4)
    ensures Spaced(bs, 16) && InPage(bs) && q.Valid()
    ensures Choice(bs, q) == 1 && LeastSlack(bs, q, 0) && !LeastSlack(bs, q, 1)
  {
    FourByteShifts();
    assert q.Slack(bs[0]) == 0 && q.Recorded(bs[0]) == 2 && q.Slack(bs[1]) == 1;
    assert Scan(bs, 0, q) == -1;
    assert Scan(bs, 1, q) == 0;
    assert Scan(bs, 2, q) == 1;
  }

  /** A block of least slack that no later block undercuts once its own shift is added back. */
  ghost predicate Anchored(bs: seq<Block>, q: Request, m: int)
    requires InPage(bs) && q.Valid()
  {
    && LeastSlack(bs, q, m)
    && forall j :: m < j < |bs| && q.Fits(bs[j]) ==> q.Slack(bs[j]) >= q.Recorded(bs[m])
  }

  lemma {:induction false} ScanKeepsLeast(bs: seq<Block>, i: int, q: Request, m: int)
    requires InPage(bs) && q.Valid() && 0 <= m < i <= |bs| && Anchored(bs, q, m)
    ensures var k := Scan(bs, i, q);
            k == m || (k >= 0 && k < m && q.Recorded(bs[k]) == q.Slack(bs[m]))
    decreases i
  {
    if i - 1 == m {
      var k := Scan(bs, m, q);
      if k >= 0 {
        assert q.Recorded(bs[k]) >= q.Slack(bs[k]) >= q.Slack(bs[m]);
      }
    } else {
      ScanKeepsLeast(bs, i - 1, q, m);
      var k := Scan(bs, i - 1, q);
      if k != m && q.Fits(bs[i - 1]) { assert q.Slack(bs[i - 1]) >= q.Slack(bs[m]); }
    }
  }

  /** Exactly when the scan picks a block of least slack, for any alignment. */
  lemma LeastSlackChosenIff(bs: seq<Block>, q: Request)
    requires InPage(bs) && q.Valid() && Choice(bs, q) >= 0
    ensures LeastSlack(bs, q, Choice(bs, q)) <==> exists m :: Anchored(bs, q, m)
  {
    var k := Choice(bs, q);
    NoBetterLater(bs, q);
    if LeastSlack(bs, q, k) { assert Anchored(bs, q, k); }
    if m :| Anchored(bs, q, m) {
      ScanKeepsLeast(bs, |bs|, q, m);
      assert q.Slack(bs[k]) <= q.Slack(bs[m]);
    }
  }
}
