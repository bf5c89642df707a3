/** Live objects of a page against its free list. */
module SlobObjects {
  import opened SlobBlocks
  import opened SlobList

  /** Every object lies in the page and no two overlap; an object is its first unit and its length. */
  predicate ObjectsOk(live: map<int, int>, n: int)
  {
    && (forall s :: s in live ==> 0 <= s && 1 <= live[s] && s + live[s] <= n)
    && (forall s, t :: s in live && t in live && s < t ==> s + live[s] <= t)
  }

  predicate Held(live: map<int, int>, x: int)
  {
    exists s :: s in live && s <= x < s + live[s]
  }

  /** Every unit of the page is either free or part of a live object, never both. */
  ghost predicate Partition(bs: seq<Block>, live: map<int, int>, n: int)
  {
    forall x :: 0 <= x < n ==> (Covers(bs, x) <==> !Held(live, x))
  }

  lemma ObjectTaken(bs: seq<Block>, live: map<int, int>, at: int, n: int)
    requires ObjectsOk(live, n) && Partition(bs, live, n) && at in live
    ensures Taken(bs, at, live[at], n)
  {
    forall x | at <= x < at + live[at] ensures !Covers(bs, x) {
      assert Held(live, x);
    }
  }

  /** The units of a free stretch belong to no object. */
  lemma FreeNotHeld(bs: seq<Block>, live: map<int, int>, at: int, units: int, n: int)
    requires ObjectsOk(live, n) && Partition(bs, live, n) && 0 <= at && 1 <= units && at + units <= n
    requires forall x :: at <= x < at + units ==> Covers(bs, x)
    ensures at !in live && ObjectsOk(live[at := units], n)
  {
    hide Covers;
    forall x | at <= x < at + units ensures !Held(live, x) {
      assert Covers(bs, x);
    }
    forall s | s in live ensures Held(live, s) && (s + live[s] <= at || at + units <= s) {
      assert Held(live, s);
      assert s < at && at < s + live[s] ==> Held(live, at);
    }
  }

  lemma HeldAfterCarve(live: map<int, int>, at: int, units: int, x: int)
    requires at !in live
    ensures Held(live[at := units], x) <==> Held(live, x) || at <= x < at + units
  {
    var live' := live[at := units];
    if Held(live, x) {
      var s :| s in live && s <= x < s + live[s];
      assert s in live' && live'[s] == live[s];
    }
    if at <= x < at + units { assert at in live' && live'[at] == units; }
    if Held(live', x) && !(at <= x < at + units) {
      var s :| s in live' && s <= x < s + live'[s];
      assert s in live;
    }
  }

  lemma PartitionAfterCarve(bs: seq<Block>, live: map<int, int>, k: int, delta: int, units: int, n: int)
    requires Spaced(bs, n) && Room(bs, k, delta, units)
    requires ObjectsOk(live, n) && Partition(bs, live, n)
    ensures var at := bs[k].start + delta;
            && at !in live
            && ObjectsOk(live[at := units], n)
            && Partition(Carve(bs, k, delta, units), live[at := units], n)
  {
    var at := bs[k].start + delta;
    assert 0 <= at && at + units <= n;
    forall x | at <= x < at + units ensures Covers(bs, x) {
      assert bs[k].start <= x < bs[k].End();
    }
    hide Spaced, ObjectsOk, Covers, Held, Carve;
    FreeNotHeld(bs, live, at, units, n);
    forall x | 0 <= x < n ensures Covers(Carve(bs, k, delta, units), x) <==> !Held(live[at := units], x) {
      CarveCovers(bs, k, delta, units, n, x);
      HeldAfterCarve(live, at, units, x);
    }
  }

  lemma PartitionAfterInsert(bs: seq<Block>, live: map<int, int>, at: int, n: int)
    requires Spaced(bs, n) && ObjectsOk(live, n) && Partition(bs, live, n) && at in live
    ensures ObjectsOk(live - {at}, n)
    ensures Taken(bs, at, live[at], n) && Partition(Insert(bs, at, live[at]), live - {at}, n)
  {
    ObjectTaken(bs, live, at, n);
    OthersOk(live, at, n);
    hide Spaced, Taken, Insert, Covers, Held, ObjectsOk;
    forall x | 0 <= x < n ensures Covers(Insert(bs, at, live[at]), x) <==> !Held(live - {at}, x) {
      InsertCovers(bs, at, live[at], n, x);
      HeldAfterInsert(live, at, n, x);
    }
  }

  lemma OthersOk(live: map<int, int>, at: int, n: int)
    requires ObjectsOk(live, n)
    ensures ObjectsOk(live - {at}, n)
  {
  }

  lemma HeldAfterInsert(live: map<int, int>, at: int, n: int, x: int)
    requires ObjectsOk(live, n) && at in live
    ensures Held(live - {at}, x) <==> Held(live, x) && !(at <= x < at + live[at])
  {
    var live' := live - {at};
    if Held(live', x) {
      var s :| s in live' && s <= x < s + live'[s];
      assert s in live && s != at;
    }
    if Held(live, x) && !(at <= x < at + live[at]) {
      var s :| s in live && s <= x < s + live[s];
      assert s in live';
    }
  }

  /** Units of other objects are neither free nor part of the object at `at`. */
  lemma HeldByOthers(bs: seq<Block>, live: map<int, int>, at: int, n: int, x: int)
    requires ObjectsOk(live, n) && Partition(bs, live, n) && at in live && 0 <= x < n && Held(live - {at}, x)
    ensures !Covers(bs, x) && !(at <= x < at + live[at])
  {
    var rest := live - {at};
    var s :| s in rest && s <= x < s + rest[s];
    assert s in live && s != at;
    assert Held(live, x);
  }

  lemma HeldNotFree(bs: seq<Block>, live: map<int, int>, n: int, x: int)
    requires Partition(bs, live, n) && 0 <= x < n && Held(live, x)
    ensures !Covers(bs, x)
  {
  }

  ghost function HeldSet(live: map<int, int>, n: int): set<int>
  {
    set x | 0 <= x < n && Held(live, x)
  }

  /** Conservation: free units and held units add up to the page. */
  lemma UnitsConserved(bs: seq<Block>, live: map<int, int>, n: int)
    requires 0 <= n && Spaced(bs, n) && Partition(bs, live, n)
    ensures SumLen(bs) + |HeldSet(live, n)| == n
  {
    SumLenIsFreeCount(bs, n);
    IntervalSize(0, n);
    assert Interval(0, n) == FreeSet(bs, n) + HeldSet(live, n);
    assert FreeSet(bs, n) !! HeldSet(live, n);
  }

  lemma SubsetOfSameSize<T>(a: set<T>, b: set<T>)
    requires a <= b && |a| == |b|
    ensures a == b
  {
    assert |b - a| == |b| - |a|;
  }

  /** slob_free's test `sp->units + units == SLOB_UNITS(PAGE_SIZE)` is true exactly when the object
      being freed is the only one left in the page. */
  lemma LastObjectIff(bs: seq<Block>, live: map<int, int>, at: int, n: int)
    requires 0 <= n && Spaced(bs, n) && ObjectsOk(live, n) && Partition(bs, live, n) && at in live
    ensures SumLen(bs) + live[at] == n <==> live.Keys == {at}
  {
    UnitsConserved(bs, live, n);
    OwnUnits(live, at, n);
    hide Spaced, Partition, SumLen, HeldSet;
    if SumLen(bs) + live[at] == n {
      SubsetOfSameSize(Interval(at, at + live[at]), HeldSet(live, n));
      OnlyOwnUnits(live, at, n);
    }
    if live.Keys == {at} {
      OnlyObject(live, at, n);
    }
  }

  lemma OwnUnits(live: map<int, int>, at: int, n: int)
    requires ObjectsOk(live, n) && at in live
    ensures Interval(at, at + live[at]) <= HeldSet(live, n) && |Interval(at, at + live[at])| == live[at]
  {
    var own := Interval(at, at + live[at]);
    IntervalSize(at, at + live[at]);
    forall x | x in own ensures x in HeldSet(live, n) { assert Held(live, x); }
  }

  lemma OnlyOwnUnits(live: map<int, int>, at: int, n: int)
    requires ObjectsOk(live, n) && at in live && HeldSet(live, n) == Interval(at, at + live[at])
    ensures live.Keys == {at}
  {
    forall s | s in live ensures s == at {
      assert Held(live, s) && s in HeldSet(live, n);
      assert s in Interval(at, at + live[at]);
    }
  }

  lemma OnlyObject(live: map<int, int>, at: int, n: int)
    requires ObjectsOk(live, n) && live.Keys == {at}
    ensures HeldSet(live, n) == Interval(at, at + live[at])
  {
    forall x | x in HeldSet(live, n) ensures x in Interval(at, at + live[at]) {
      var s :| s in live && s <= x < s + live[s];
      assert s in live.Keys;
    }
    OwnUnits(live, at, n);
  }

  /** A page with no free unit left has an empty list. */
  lemma {:induction false} NoUnitsNoBlocks(bs: seq<Block>, n: int)
    requires Spaced(bs, n)
    ensures SumLen(bs) >= |bs|
    ensures SumLen(bs) == 0 <==> bs == []
  {
    if bs != [] {
      SpacedTail(bs, n);
      NoUnitsNoBlocks(bs[1..], n);
    }
  }

  /** A block is never longer than the page's free-unit count, so the `sp->units` pre-filter of
      slob_alloc never hides a fit. */
  lemma {:induction false} BlockWithinUnits(bs: seq<Block>, i: int, n: int)
    requires Spaced(bs, n) && 0 <= i < |bs|
    ensures bs[i].len <= SumLen(bs)
  {
    SpacedTail(bs, n);
    NoUnitsNoBlocks(bs[1..], n);
    if i > 0 { BlockWithinUnits(bs[1..], i - 1, n); }
  }
}
