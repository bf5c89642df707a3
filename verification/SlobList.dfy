/** The free list as a value: carving an object out of it, and putting one back. */
module SlobList {
  import opened SlobBlocks

  /** The list with its blocks `i` up to `j` replaced. */
  function Splice(bs: seq<Block>, i: int, j: int, ps: seq<Block>): seq<Block>
    requires 0 <= i <= j <= |bs|
  {
    bs[..i] + ps + bs[j..]
  }

  /** The free list after `units` units were taken from block `k`, `delta` units after its start. */
  function Carve(bs: seq<Block>, k: int, delta: int, units: int): seq<Block>
    requires 0 <= k < |bs|
  {
    Splice(bs, k, k + 1, Pieces(bs[k], delta, units))
  }

  /** What is left of a block: a head in front of the object, a tail behind it. */
  function Pieces(b: Block, delta: int, units: int): seq<Block>
  {
    (if delta > 0 then [Block(b.start, delta)] else []) +
    (if b.len - delta > units then [Block(b.start + delta + units, b.len - delta - units)] else [])
  }

  /** How many blocks start below `at`. */
  function Below(bs: seq<Block>, at: int): (k: nat)
    ensures k <= |bs|
  {
    if bs == [] || bs[0].start >= at then 0 else 1 + Below(bs[1..], at)
  }

  /** The free list after the object [at, at + units) was put back: in address order, merged with the
      block that ends at it and the block that starts right behind it. */
  function Insert(bs: seq<Block>, at: int, units: int): seq<Block>
  {
    InsertAt(bs, Below(bs, at), at, units)
  }

  function InsertAt(bs: seq<Block>, k: nat, at: int, units: int): seq<Block>
    requires k <= |bs|
  {
    var i := if JoinsLeft(bs, k, at) then k - 1 else k;
    var j := if JoinsRight(bs, k, at + units) then k + 1 else k;
    Splice(bs, i, j, [Joined(bs, k, at, units)])
  }

  predicate JoinsLeft(bs: seq<Block>, k: nat, at: int)
    requires k <= |bs|
  {
    k > 0 && bs[k - 1].End() == at
  }

  predicate JoinsRight(bs: seq<Block>, k: nat, end: int)
    requires k <= |bs|
  {
    k < |bs| && end == bs[k].start
  }

  function Joined(bs: seq<Block>, k: nat, at: int, units: int): Block
    requires k <= |bs|
  {
    var lo := if JoinsLeft(bs, k, at) then bs[k - 1].start else at;
    var hi := if JoinsRight(bs, k, at + units) then bs[k].End() else at + units;
    Block(lo, hi - lo)
  }

  /** [at, at + units) lies in the page and none of its units is free. */
  ghost predicate Taken(bs: seq<Block>, at: int, units: int, n: int)
  {
    && 0 <= at && 1 <= units && at + units <= n
    && forall x :: at <= x < at + units ==> !Covers(bs, x)
  }

  lemma {:induction false} BelowSplits(bs: seq<Block>, at: int, n: int)
    requires Spaced(bs, n)
    ensures forall i :: 0 <= i < Below(bs, at) ==> bs[i].start < at
    ensures forall i :: Below(bs, at) <= i < |bs| ==> bs[i].start >= at
  {
    if bs != [] && bs[0].start < at {
      SpacedTail(bs, n);
      BelowSplits(bs[1..], at, n);
      forall i | 0 <= i < Below(bs, at) ensures bs[i].start < at {
        if i > 0 { assert bs[i] == bs[1..][i - 1]; }
      }
      forall i | Below(bs, at) <= i < |bs| ensures bs[i].start >= at {
        assert bs[i] == bs[1..][i - 1];
      }
    } else if bs != [] {
      forall i | 0 <= i < |bs| ensures bs[i].start >= at {
        if i > 0 { assert bs[0].End() < bs[i].start; }
      }
    }
  }

  /** The index is determined by the blocks next to it. */
  lemma BelowIs(bs: seq<Block>, at: int, k: nat, n: int)
    requires Spaced(bs, n) && k <= |bs|
    requires k > 0 ==> bs[k - 1].start < at
    requires at <= StartAt(bs, k, n)
    ensures Below(bs, at) == k
  {
    BelowSplits(bs, at, n);
  }

  /** A taken stretch lies strictly between the blocks below and above it. */
  lemma TakenBetween(bs: seq<Block>, at: int, units: int, n: int)
    requires Spaced(bs, n) && Taken(bs, at, units, n)
    ensures var k := Below(bs, at);
            && (forall i :: 0 <= i < k ==> bs[i].End() <= at)
            && (forall i :: k <= i < |bs| ==> at + units <= bs[i].start)
  {
    BelowSplits(bs, at, n);
    forall i | 0 <= i < Below(bs, at) ensures bs[i].End() <= at {
      if at < bs[i].End() { assert Covers(bs, at); }
    }
    forall i | Below(bs, at) <= i < |bs| ensures at + units <= bs[i].start {
      if bs[i].start < at + units { assert Covers(bs, bs[i].start); }
    }
  }

  lemma CoversConcat(a: seq<Block>, b: seq<Block>, x: int)
    ensures Covers(a + b, x) <==> Covers(a, x) || Covers(b, x)
  {
    var s := a + b;
    if Covers(a, x) {
      var i :| 0 <= i < |a| && a[i].start <= x < a[i].End();
      assert s[i] == a[i];
    }
    if Covers(b, x) {
      var i :| 0 <= i < |b| && b[i].start <= x < b[i].End();
      assert s[|a| + i] == b[i];
    }
    if Covers(s, x) {
      var i :| 0 <= i < |s| && s[i].start <= x < s[i].End();
      if i < |a| { assert s[i] == a[i]; } else { assert s[i] == b[i - |a|]; }
    }
  }

  // ---------- replacing a stretch of the list ----------

  lemma SpliceSpaced(bs: seq<Block>, i: int, j: int, ps: seq<Block>, n: int)
    requires Spaced(bs, n) && Spaced(ps, n) && 0 <= i <= j <= |bs|
    requires i > 0 && ps != [] ==> bs[i - 1].End() < ps[0].start
    requires j < |bs| && ps != [] ==> ps[|ps| - 1].End() < bs[j].start
    ensures Spaced(Splice(bs, i, j, ps), n)
  {
    var s := Splice(bs, i, j, ps);
    forall u | 0 <= u < |s| ensures 0 <= s[u].start && 1 <= s[u].len && s[u].End() <= n {
      SpliceAt(bs, i, j, ps, u);
    }
    forall u, v | 0 <= u < v < |s| ensures s[u].End() < s[v].start {
      SpliceAt(bs, i, j, ps, u);
      SpliceAt(bs, i, j, ps, v);
      if u < i <= v < i + |ps| {
        assert bs[i - 1].End() < ps[0].start <= ps[v - i].start;
        assert bs[u].End() <= bs[i - 1].End();
      } else if i <= u < i + |ps| <= v {
        assert ps[u - i].End() <= ps[|ps| - 1].End();
        assert bs[j].start <= bs[v - i - |ps| + j].start;
      }
    }
  }

  lemma SpliceAt(bs: seq<Block>, i: int, j: int, ps: seq<Block>, u: int)
    requires 0 <= i <= j <= |bs| && 0 <= u < |Splice(bs, i, j, ps)|
    ensures |Splice(bs, i, j, ps)| == i + |ps| + |bs| - j
    ensures Splice(bs, i, j, ps)[u]
            == if u < i then bs[u] else if u < i + |ps| then ps[u - i] else bs[u - i - |ps| + j]
  {
  }

  lemma ThreeParts(bs: seq<Block>, i: int, j: int)
    requires 0 <= i <= j <= |bs|
    ensures bs[..i] + bs[i..j] == bs[..j] && bs[..j] + bs[j..] == bs
  {
  }

  lemma SpliceCovers(bs: seq<Block>, i: int, j: int, ps: seq<Block>, x: int)
    requires 0 <= i <= j <= |bs|
    ensures Covers(Splice(bs, i, j, ps), x) <==> Covers(bs[..i], x) || Covers(ps, x) || Covers(bs[j..], x)
    ensures Covers(bs, x) <==> Covers(bs[..i], x) || Covers(bs[i..j], x) || Covers(bs[j..], x)
  {
    CoversConcat(bs[..i] + ps, bs[j..], x);
    CoversConcat(bs[..i], ps, x);
    ThreeParts(bs, i, j);
    CoversConcat(bs[..j], bs[j..], x);
    CoversConcat(bs[..i], bs[i..j], x);
  }

  lemma SpliceSum(bs: seq<Block>, i: int, j: int, ps: seq<Block>)
    requires 0 <= i <= j <= |bs|
    ensures SumLen(Splice(bs, i, j, ps)) == SumLen(bs) - SumLen(bs[i..j]) + SumLen(ps)
  {
    SumLenConcat(bs[..i] + ps, bs[j..]);
    SumLenConcat(bs[..i], ps);
    ThreeParts(bs, i, j);
    SumLenConcat(bs[..j], bs[j..]);
    SumLenConcat(bs[..i], bs[i..j]);
  }

  /** Lists of at most two blocks, the only ones that replace or are replaced. */
  lemma Short(ps: seq<Block>, x: int)
    requires |ps| <= 2
    ensures SumLen(ps) == (if |ps| > 0 then ps[0].len else 0) + (if |ps| > 1 then ps[1].len else 0)
    ensures Covers(ps, x)
            <==> ((|ps| > 0 && ps[0].start <= x < ps[0].End()) || (|ps| > 1 && ps[1].start <= x < ps[1].End()))
  {
    if |ps| > 1 { assert ps[1..] == [ps[1]]; assert ps[1..][1..] == []; }
    else if |ps| > 0 { assert ps[1..] == []; }
  }

  // ---------- putting back ----------

  lemma InsertSpaced(bs: seq<Block>, at: int, units: int, n: int)
    requires Spaced(bs, n) && Taken(bs, at, units, n)
    ensures Spaced(Insert(bs, at, units), n)
  {
    TakenBetween(bs, at, units, n);
    var k := Below(bs, at);
    var i := if JoinsLeft(bs, k, at) then k - 1 else k;
    var j := if JoinsRight(bs, k, at + units) then k + 1 else k;
    SpliceSpaced(bs, i, j, [Joined(bs, k, at, units)], n);
  }

  /** Putting an object back frees its units and no others. */
  lemma InsertCovers(bs: seq<Block>, at: int, units: int, n: int, x: int)
    requires Spaced(bs, n) && Taken(bs, at, units, n)
    ensures Covers(Insert(bs, at, units), x) <==> Covers(bs, x) || at <= x < at + units
  {
    TakenBetween(bs, at, units, n);
    var k := Below(bs, at);
    var i := if JoinsLeft(bs, k, at) then k - 1 else k;
    var j := if JoinsRight(bs, k, at + units) then k + 1 else k;
    SpliceCovers(bs, i, j, [Joined(bs, k, at, units)], x);
    Short([Joined(bs, k, at, units)], x);
    Short(bs[i..j], x);
  }

  lemma InsertSum(bs: seq<Block>, at: int, units: int, n: int)
    requires Spaced(bs, n) && Taken(bs, at, units, n)
    ensures SumLen(Insert(bs, at, units)) == SumLen(bs) + units
  {
    var k := Below(bs, at);
    assert k > 0 ==> bs[k - 1].End() <= at by { TakenBetween(bs, at, units, n); }
    assert k < |bs| ==> at + units <= bs[k].start by { TakenBetween(bs, at, units, n); }
    hide Spaced, Taken, Covers, Below, Splice, SumLen;
    var i := if JoinsLeft(bs, k, at) then k - 1 else k;
    var j := if JoinsRight(bs, k, at + units) then k + 1 else k;
    SpliceSum(bs, i, j, [Joined(bs, k, at, units)]);
    Short([Joined(bs, k, at, units)], 0);
    Short(bs[i..j], 0);
  }

  // ---------- taking out ----------

  ghost predicate Room(bs: seq<Block>, k: int, delta: int, units: int)
  {
    0 <= k < |bs| && 0 <= delta && 1 <= units && delta + units <= bs[k].len
  }

  lemma CarveSpaced(bs: seq<Block>, k: int, delta: int, units: int, n: int)
    requires Spaced(bs, n) && Room(bs, k, delta, units)
    ensures Spaced(Carve(bs, k, delta, units), n)
  {
    SpliceSpaced(bs, k, k + 1, Pieces(bs[k], delta, units), n);
  }

  /** Carving takes the object's units and no others. */
  lemma CarveCovers(bs: seq<Block>, k: int, delta: int, units: int, n: int, x: int)
    requires Spaced(bs, n) && Room(bs, k, delta, units)
    ensures Covers(Carve(bs, k, delta, units), x)
            <==> Covers(bs, x) && !(bs[k].start + delta <= x < bs[k].start + delta + units)
  {
    SpliceCovers(bs, k, k + 1, Pieces(bs[k], delta, units), x);
    Short(Pieces(bs[k], delta, units), x);
    Short(bs[k..k + 1], x);
    if Covers(bs[..k], x) {
      var i :| 0 <= i < |bs[..k]| && bs[..k][i].start <= x < bs[..k][i].End();
      assert bs[i].End() < bs[k].start;
    }
    if Covers(bs[k + 1..], x) {
      var i :| 0 <= i < |bs[k + 1..]| && bs[k + 1..][i].start <= x < bs[k + 1..][i].End();
      assert bs[k].End() < bs[k + 1 + i].start;
    }
  }

  lemma CarveSum(bs: seq<Block>, k: int, delta: int, units: int)
    requires Room(bs, k, delta, units)
    ensures SumLen(Carve(bs, k, delta, units)) == SumLen(bs) - units
  {
    SpliceSum(bs, k, k + 1, Pieces(bs[k], delta, units));
    Short(Pieces(bs[k], delta, units), 0);
    Short(bs[k..k + 1], 0);
  }

  // ---------- laws ----------

  lemma CarvedTaken(bs: seq<Block>, k: int, delta: int, units: int, n: int)
    requires Spaced(bs, n) && Room(bs, k, delta, units)
    ensures Spaced(Carve(bs, k, delta, units), n)
    ensures Taken(Carve(bs, k, delta, units), bs[k].start + delta, units, n)
  {
    var at, cs := bs[k].start + delta, Carve(bs, k, delta, units);
    CarveSpaced(bs, k, delta, units, n);
    forall x | at <= x < at + units ensures !Covers(cs, x) {
      CarveCovers(bs, k, delta, units, n, x);
    }
  }

  /** Allocating an object and freeing it again restores the exact free list. */
  lemma CarveThenInsert(bs: seq<Block>, k: int, delta: int, units: int, n: int)
    requires Spaced(bs, n) && Room(bs, k, delta, units)
    ensures Insert(Carve(bs, k, delta, units), bs[k].start + delta, units) == bs
  {
    hide Carve, Insert, Spaced;
    var at, cs := bs[k].start + delta, Carve(bs, k, delta, units);
    CarvedTaken(bs, k, delta, units, n);
    InsertSpaced(cs, at, units, n);
    forall x ensures Covers(Insert(cs, at, units), x) <==> Covers(bs, x) {
      InsertCovers(cs, at, units, n, x);
      CarveCovers(bs, k, delta, units, n, x);
      if at <= x < at + units { assert bs[k].start <= x < bs[k].End(); assert Covers(bs, x); }
    }
    SameBitmapSameList(Insert(cs, at, units), bs, n);
  }

  datatype Object = Object(at: int, units: int)

  /** The objects are taken and do not overlap. */
  ghost predicate AllTaken(bs: seq<Block>, os: seq<Object>, n: int)
  {
    && (forall i :: 0 <= i < |os| ==> Taken(bs, os[i].at, os[i].units, n))
    && (forall i, j :: 0 <= i < j < |os| ==>
         os[i].at + os[i].units <= os[j].at || os[j].at + os[j].units <= os[i].at)
  }

  predicate InObject(os: seq<Object>, x: int)
  {
    exists i :: 0 <= i < |os| && os[i].at <= x < os[i].at + os[i].units
  }

  /** The free list after all objects were put back, in the order given. */
  function InsertAll(bs: seq<Block>, os: seq<Object>): seq<Block>
    decreases |os|
  {
    if os == [] then bs else InsertAll(Insert(bs, os[0].at, os[0].units), os[1..])
  }

  lemma InObjectTail(os: seq<Object>, x: int)
    requires os != []
    ensures InObject(os, x) <==> (os[0].at <= x < os[0].at + os[0].units || InObject(os[1..], x))
  {
    if InObject(os, x) {
      var i :| 0 <= i < |os| && os[i].at <= x < os[i].at + os[i].units;
      if i > 0 { assert os[1..][i - 1] == os[i]; }
    }
    if InObject(os[1..], x) {
      var i :| 0 <= i < |os[1..]| && os[1..][i].at <= x < os[1..][i].at + os[1..][i].units;
      assert os[i + 1] == os[1..][i];
    }
  }

  lemma {:induction false} InsertAllCovers(bs: seq<Block>, os: seq<Object>, n: int)
    requires Spaced(bs, n) && AllTaken(bs, os, n)
    ensures Spaced(InsertAll(bs, os), n)
    ensures forall x :: Covers(InsertAll(bs, os), x) <==> Covers(bs, x) || InObject(os, x)
    decreases |os|
  {
    if os != [] {
      var o, rest := os[0], os[1..];
      var cs := Insert(bs, o.at, o.units);
      InsertSpaced(bs, o.at, o.units, n);
      forall x ensures Covers(cs, x) <==> Covers(bs, x) || o.at <= x < o.at + o.units {
        InsertCovers(bs, o.at, o.units, n, x);
      }
      forall i | 0 <= i < |rest| ensures Taken(cs, rest[i].at, rest[i].units, n) {
        assert rest[i] == os[i + 1];
        assert Taken(bs, os[i + 1].at, os[i + 1].units, n);
      }
      assert AllTaken(cs, rest, n);
      InsertAllCovers(cs, rest, n);
      forall x { InObjectTail(os, x); }
    }
  }

  /** Freeing a set of objects gives the same free list in every order. */
  lemma FreeOrderIrrelevant(bs: seq<Block>, os: seq<Object>, ps: seq<Object>, n: int)
    requires Spaced(bs, n) && AllTaken(bs, os, n) && AllTaken(bs, ps, n)
    requires multiset(os) == multiset(ps)
    ensures InsertAll(bs, os) == InsertAll(bs, ps)
  {
    InsertAllCovers(bs, os, n);
    InsertAllCovers(bs, ps, n);
    forall x ensures InObject(os, x) <==> InObject(ps, x) {
      SameObjects(os, ps, x);
      SameObjects(ps, os, x);
    }
    SameBitmapSameList(InsertAll(bs, os), InsertAll(bs, ps), n);
  }

  lemma SameObjects(os: seq<Object>, ps: seq<Object>, x: int)
    requires multiset(os) == multiset(ps)
    ensures InObject(os, x) ==> InObject(ps, x)
  {
    if InObject(os, x) {
      var i :| 0 <= i < |os| && os[i].at <= x < os[i].at + os[i].units;
      assert os[i] in multiset(ps);
      assert os[i] in ps;
    }
  }
}
