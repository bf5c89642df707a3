/** Runs of operations judged by the plain map alone: when every block stays rare enough, all is allowed. */
module DedupRuns {
  import opened DedupText
  import opened DedupLedger
  import opened DedupStore
  import opened DedupDisk
  import opened DedupExact

  // ---------- the blocks of a plain map ----------

  function BlockLists(m: map<string, string>): map<string, seq<string>>
  {
    map p | p in m :: Blocks(m[p])
  }

  /** How often each block occurs, over all files. */
  ghost function Occurrences(m: map<string, string>): multiset<string>
  {
    Refs(BlockLists(m))
  }

  /** The blocks the ids of a file stand for. */
  function Named(blocks: map<int, string>, ids: seq<int>): (bs: seq<string>)
    ensures |bs| == |ids|
    ensures forall k :: 0 <= k < |ids| && ids[k] in blocks ==> bs[k] == blocks[ids[k]]
  {
    seq(|ids|, k requires 0 <= k < |ids| => if ids[k] in blocks then blocks[ids[k]] else "")
  }

  lemma {:induction false} BlocksOfConcat(bs: seq<string>)
    requires forall k :: 0 <= k < |bs| ==> IsBlock(bs[k])
    ensures |Concat(bs)| == BASE * |bs| && Blocks(Concat(bs)) == bs
  {
    if bs != [] {
      var t := bs[1..];
      assert forall k :: 0 <= k < |t| ==> t[k] == bs[k + 1];
      BlocksOfConcat(t);
      BlocksOfFirst(bs[0], Concat(t), t);
    }
  }

  lemma BlocksOfFirst(b: string, rest: string, t: seq<string>)
    requires |b| == BASE && |rest| == BASE * |t| && Blocks(rest) == t
    ensures Blocks(b + rest) == [b] + t
  {
    var buf := b + rest;
    assert |buf| == BASE * (|t| + 1);
    forall k | 0 <= k <= |t| ensures Blocks(buf)[k] == ([b] + t)[k] {
      if k == 0 {
        assert buf[..BASE] == b;
      } else {
        var at := BASE * (k - 1);
        assert Blocks(rest)[k - 1] == rest[at..at + BASE] == buf[at + BASE..at + BASE + BASE];
      }
    }
  }

  /** Ids of full blocks. */
  ghost predicate AllStored(blocks: map<int, string>, ids: seq<int>)
  {
    forall k :: 0 <= k < |ids| ==> ids[k] in blocks && IsBlock(blocks[ids[k]])
  }

  lemma FileIsNamed(blocks: map<int, string>, ids: seq<int>)
    requires AllStored(blocks, ids)
    ensures FileBytes(blocks, ids) == Concat(Named(blocks, ids)) && Blocks(FileBytes(blocks, ids)) == Named(blocks, ids)
  {
    FileBytesStored(blocks, ids, Named(blocks, ids));
    BlocksOfConcat(Named(blocks, ids));
  }

  lemma FileStored(d: Disk, p: string, h: HashFn)
    requires DiskInv(d, h) && p in d.files
    ensures AllStored(d.store.blocks, d.files[p])
  {
    hide StoreInv, IsBlock;
    RefsOfFile(d.files, p);
    var ids := d.files[p];
    forall k | 0 <= k < |ids| ensures ids[k] in d.store.blocks && IsBlock(d.store.blocks[ids[k]]) {
      assert ids[k] in multiset(ids);
      ReferencedBlock(d.store, Refs(d.files), h, ids[k]);
    }
  }

  lemma {:induction false} NamedCount(blocks: map<int, string>, ids: seq<int>, id: int)
    requires id in blocks
    ensures multiset(ids)[id] <= multiset(Named(blocks, ids))[blocks[id]]
  {
    if ids != [] {
      NamedCount(blocks, ids[1..], id);
      NamedTail(blocks, ids);
      hide Named;
      HeadCount(ids, id);
      HeadCount(Named(blocks, ids), blocks[id]);
    }
  }

  lemma NamedTail(blocks: map<int, string>, ids: seq<int>)
    requires ids != []
    ensures Named(blocks, ids)[1..] == Named(blocks, ids[1..])
  {
  }

  lemma HeadCount<T>(xs: seq<T>, x: T)
    requires xs != []
    ensures multiset(xs)[x] == multiset(xs[1..])[x] + if xs[0] == x then 1 else 0
  {
    assert xs == [xs[0]] + xs[1..];
  }

  /** A block occurs at least as often as its id is referred to. */
  lemma {:induction false} OccursAsReferred(blocks: map<int, string>, files: map<string, seq<int>>,
      lists: map<string, seq<string>>, id: int)
    requires id in blocks && files.Keys == lists.Keys
    requires forall p :: p in files ==> lists[p] == Named(blocks, files[p])
    ensures Refs(files)[id] <= Refs(lists)[blocks[id]]
    decreases |files|
  {
    if files != map[] {
      var p :| p in files;
      RefsSplit(files, p);
      RefsSplit(lists, p);
      assert (files - {p}).Keys == files.Keys - {p} && (lists - {p}).Keys == lists.Keys - {p};
      hide Refs, Named;
      NamedCount(blocks, files[p], id);
      OccursAsReferred(blocks, files - {p}, lists - {p}, id);
    } else {
      assert files.Keys == {};
    }
  }

  lemma DiskLists(d: Disk, h: HashFn)
    requires DiskInv(d, h)
    ensures var lists := BlockLists(Contents(d));
            lists.Keys == d.files.Keys && forall p :: p in d.files ==> lists[p] == Named(d.store.blocks, d.files[p])
  {
    hide DiskInv, FileBytes, Named, Blocks;
    forall p | p in d.files ensures Blocks(FileBytes(d.store.blocks, d.files[p])) == Named(d.store.blocks, d.files[p]) {
      FileStored(d, p, h);
      FileIsNamed(d.store.blocks, d.files[p]);
    }
  }

  // ---------- the blocks after a write ----------

  lemma PatchedBlocks(xs: seq<string>, off: int, bs: seq<string>)
    requires 0 <= off <= |xs|
    requires (forall k :: 0 <= k < |xs| ==> IsBlock(xs[k])) && forall k :: 0 <= k < |bs| ==> IsBlock(bs[k])
    ensures |Concat(xs)| == BASE * |xs|
    ensures Patched(Concat(xs), BASE * off, Concat(bs)) == Concat(Patched(xs, off, bs))
    ensures Blocks(Patched(Concat(xs), BASE * off, Concat(bs))) == Patched(xs, off, bs)
  {
    hide Concat, Patched, Blocks, IsBlock;
    var end := Min(off + |bs|, |xs|);
    var a, c := xs[..off], xs[end..];
    BlocksOfConcat(xs);
    BlocksOfConcat(bs);
    BlocksOfConcat(a);
    BlocksOfConcat(c);
    PatchedIs(xs, off, bs);
    assert xs == xs[..end] + c && xs[..end] == a + xs[off..end];
    ConcatConcat(xs[..end], c);
    ConcatConcat(a, xs[off..end]);
    ConcatConcat(a + bs, c);
    ConcatConcat(a, bs);
    BlocksOfConcat(xs[..end]);
    PatchedIs(Concat(xs), BASE * off, Concat(bs));
    assert Concat(xs)[..BASE * off] == Concat(a);
    assert Concat(xs)[BASE * end..] == Concat(c);
    BlocksOfConcat(Patched(xs, off, bs));
  }

  lemma {:induction false} ConcatConcat(a: seq<string>, b: seq<string>)
    ensures Concat(a + b) == Concat(a) + Concat(b)
  {
    if a == [] {
      assert a + b == b;
    } else {
      ConcatConcat(a[1..], b);
      assert (a + b)[1..] == a[1..] + b;
    }
  }

  /** What is left of a file's ids once the overwritten ones are gone. */
  lemma LeftAndNew(ids: seq<int>, off: int, bs: seq<string>, blocks: map<int, string>, id: int, b: string)
    requires 0 <= off <= |ids| && id in blocks && blocks[id] == b
    ensures (multiset(ids) - multiset(Overwritten(ids, off, |bs|)))[id] + multiset(bs)[b]
            <= multiset(Patched(Named(blocks, ids), off, bs))[b]
  {
    var end := Min(off + |bs|, |ids|);
    var a, o, c := ids[..off], ids[off..end], ids[end..];
    assert ids == a + o + c;
    NamedCount(blocks, a, id);
    NamedCount(blocks, c, id);
    PatchedIs(Named(blocks, ids), off, bs);
    assert Named(blocks, ids)[..off] == Named(blocks, a) && Named(blocks, ids)[end..] == Named(blocks, c);
  }

  /** References left and blocks to come never outnumber the block's occurrences after the write. */
  lemma OccursAfterWrite(d: Disk, p: string, off: int, bs: seq<string>, h: HashFn, id: int, b: string)
    requires DiskInv(d, h) && WriteWanted(d, p, off, bs) && id in d.store.blocks && d.store.blocks[id] == b
    ensures BASE * off <= |Contents(d)[p]|
    ensures (Refs(d.files) - multiset(Overwritten(d.files[p], off, |bs|)))[id] + multiset(bs)[b]
            <= Occurrences(PlainStep(Contents(d), WriteOp(p, off, bs)))[b]
  {
    hide DiskInv, FileBytes, Named, Refs, Patched, Overwritten, IsBlock, Concat, Blocks;
    CutBytes(d, p, off, h);
    var m := Contents(d);
    var m' := PlainStep(m, WriteOp(p, off, bs));
    WrittenList(d, p, off, bs, h);
    DiskLists(d, h);
    var files, lists := d.files, BlockLists(m);
    assert BlockLists(m') == lists[p := Patched(lists[p], off, bs)];
    RefsUpdated(lists, p, Patched(lists[p], off, bs));
    RefsSplit(files, p);
    PatchedOlds(files[p], off, |bs|);
    assert (files - {p}).Keys == files.Keys - {p} && (lists - {p}).Keys == lists.Keys - {p};
    OccursAsReferred(d.store.blocks, files - {p}, lists - {p}, id);
    LeftAndNew(files[p], off, bs, d.store.blocks, id, b);
  }

  lemma WrittenList(d: Disk, p: string, off: int, bs: seq<string>, h: HashFn)
    requires DiskInv(d, h) && WriteWanted(d, p, off, bs) && BASE * off <= |Contents(d)[p]|
    ensures Blocks(Patched(Contents(d)[p], BASE * off, Concat(bs)))
            == Patched(Named(d.store.blocks, d.files[p]), off, bs)
  {
    hide DiskInv, FileBytes, Patched, Concat, Blocks, IsBlock;
    FileStored(d, p, h);
    FileIsNamed(d.store.blocks, d.files[p]);
    PatchedBlocks(Named(d.store.blocks, d.files[p]), off, bs);
  }

  /** New blocks count as occurrences in any case. */
  lemma OccursWhenWritten(d: Disk, p: string, off: int, bs: seq<string>, h: HashFn, b: string)
    requires DiskInv(d, h) && WriteWanted(d, p, off, bs)
    ensures BASE * off <= |Contents(d)[p]|
    ensures multiset(bs)[b] <= Occurrences(PlainStep(Contents(d), WriteOp(p, off, bs)))[b]
  {
    hide DiskInv, FileBytes, Named, Refs, Overwritten, IsBlock, Concat, Blocks;
    CutBytes(d, p, off, h);
    var m := Contents(d);
    WrittenList(d, p, off, bs, h);
    DiskLists(d, h);
    var lists := BlockLists(m);
    assert BlockLists(PlainStep(m, WriteOp(p, off, bs))) == lists[p := Patched(lists[p], off, bs)];
    RefsUpdated(lists, p, Patched(lists[p], off, bs));
    PatchedIs(lists[p], off, bs);
  }

  // ---------- the blocks in play ----------

  /** No two blocks in play share a hash, and none hashes to twenty zeros. */
  ghost predicate HashFits(inPlay: set<string>, h: HashFn)
  {
    && (forall a, b :: a in inPlay && b in inPlay && h(a) == h(b) ==> a == b)
    && (forall a :: a in inPlay ==> h(a) != NO_HASH)
  }

  ghost function Names(inPlay: set<string>, h: HashFn): set<string>
  {
    set a | a in inPlay :: h(a)
  }

  lemma {:induction false} ImageSize(inPlay: set<string>, h: HashFn)
    ensures |Names(inPlay, h)| <= |inPlay|
    decreases |inPlay|
  {
    if inPlay != {} {
      var a :| a in inPlay;
      var rest := inPlay - {a};
      ImageSize(rest, h);
      assert Names(inPlay, h) == Names(rest, h) + {h(a)};
    }
  }

  /** The store holds nothing but blocks in play, and no other names. */
  ghost predicate Holds(s: Store, inPlay: set<string>, h: HashFn)
  {
    NamesOf(s.recs) <= Names(inPlay, h) && forall id :: id in s.blocks ==> s.blocks[id] in inPlay
  }

  lemma {:induction false} RemovedSame(s: Store, ids: seq<int>)
    requires ValidIds(s, ids)
    ensures var s1 := RemoveAll(s, ids);
            && |s1.recs| == |s.recs| && (forall i :: 0 <= i < |s.recs| ==> s1.recs[i].hash == s.recs[i].hash)
            && forall id :: id in s1.blocks ==> id in s.blocks && s1.blocks[id] == s.blocks[id]
    decreases |ids|
  {
    if ids == [] {
      RemoveAllNone(s);
    } else {
      RemoveAllStep(s, ids);
      hide RemoveAll;
      RemovedSame(Remove(s, ids[0]), ids[1..]);
    }
  }

  lemma HoldsAfterRemoval(s: Store, ids: seq<int>, inPlay: set<string>, h: HashFn)
    requires ValidIds(s, ids) && Holds(s, inPlay, h)
    ensures Holds(RemoveAll(s, ids), inPlay, h)
  {
    hide RemoveAll, ValidIds, Names;
    RemovedSame(s, ids);
    var s1 := RemoveAll(s, ids);
    forall x | x in NamesOf(s1.recs) ensures x in NamesOf(s.recs) {
      var i :| 0 <= i < |s1.recs| - 1 && x == s1.recs[i].hash;
      assert x == s.recs[i].hash;
    }
  }

  lemma HoldsAfterPush(s: Store, b: string, inPlay: set<string>, h: HashFn)
    requires InOrder(s.recs) && FirstTens(s.recs, 0) < |s.recs| && Holds(s, inPlay, h) && b in inPlay && |inPlay| < 999
    ensures InOrder(Push(s, b, h).0.recs) && Holds(Push(s, b, h).0, inPlay, h)
  {
    hide Push, InOrder, NamesOf;
    PushMoves(s, b, h);
    ImageSize(inPlay, h);
    assert HashSet([b], h) <= Names(inPlay, h);
    NamedAfterPush(s, [b], h, Names(inPlay, h));
  }

  lemma {:induction false} HoldsAfterPushes(s: Store, bs: seq<string>, inPlay: set<string>, h: HashFn)
    requires InOrder(s.recs) && FirstTens(s.recs, 0) < |s.recs| && Holds(s, inPlay, h) && |inPlay| < 999
    requires forall k :: 0 <= k < |bs| ==> bs[k] in inPlay
    ensures Holds(PushAll(s, bs, h).0, inPlay, h)
    decreases |bs|
  {
    hide Push, InOrder, Holds, PushAll;
    if bs == [] {
      PushAllNone(s, h);
    } else {
      PushAllIs(s, bs, h);
      HoldsAfterPush(s, bs[0], inPlay, h);
      var s1 := Push(s, bs[0], h).0;
      if FirstTens(s1.recs, 0) < |s1.recs| { HoldsAfterPushes(s1, bs[1..], inPlay, h); }
    }
  }

  lemma HoldsAfterWrite(d: Disk, p: string, off: int, bs: seq<string>, inPlay: set<string>, h: HashFn)
    requires DiskInv(d, h) && WriteWanted(d, p, off, bs) && Writable(d, p, off, |bs|) && |inPlay| < 999
    requires Holds(d.store, inPlay, h) && forall k :: 0 <= k < |bs| ==> bs[k] in inPlay
    ensures Holds(Write(d, p, off, bs, h).store, inPlay, h)
  {
    hide StoreInv, Holds, PushAll, RemoveAll, Overwritten, InOrder, IsBlock, Refs;
    var olds := Overwritten(d.files[p], off, |bs|);
    ReadyToWrite(d, p, off, |bs|, h);
    HoldsAfterRemoval(d.store, olds, inPlay, h);
    InOrderWhenSound(RemoveAll(d.store, olds), Refs(d.files) - multiset(olds), h);
    HoldsAfterPushes(RemoveAll(d.store, olds), bs, inPlay, h);
  }

  // ---------- rare blocks are safe to write ----------

  /** After the operation no block occurs more than nine times. */
  ghost predicate Rare(m: map<string, string>)
  {
    forall b :: Occurrences(m)[b] <= 9
  }

  lemma {:induction false} HashCount(bs: seq<string>, h: HashFn, x: string, b: string)
    requires forall k :: 0 <= k < |bs| && h(bs[k]) == x ==> bs[k] == b
    ensures multiset(Hashes(bs, h))[x] <= multiset(bs)[b]
  {
    if bs != [] {
      var t := bs[1..];
      assert forall k :: 0 <= k < |t| ==> t[k] == bs[k + 1];
      HashesTail(bs, h);
      HashCount(t, h, x, b);
      assert bs == [bs[0]] + t;
    }
  }

  lemma HashAbsent(bs: seq<string>, h: HashFn, x: string)
    requires forall k :: 0 <= k < |bs| ==> h(bs[k]) != x
    ensures multiset(Hashes(bs, h))[x] == 0
  {
    assert x !in Hashes(bs, h);
  }

  lemma CountedBlock(s: Store, refs: multiset<int>, h: HashFn, x: string)
    requires StoreInv(s, refs, h) && Counted(s.recs, x) > 0
    ensures var id := FindHash(s.recs, x, 0) + 1;
            Counted(s.recs, x) == refs[id] && id in s.blocks && h(s.blocks[id]) == x
  {
  }

  /** References left under a hash and blocks to come with it. */
  lemma RareCount(d: Disk, p: string, off: int, bs: seq<string>, inPlay: set<string>, h: HashFn, x: string)
    requires DiskInv(d, h) && WriteWanted(d, p, off, bs) && Writable(d, p, off, |bs|)
    requires Holds(d.store, inPlay, h) && HashFits(inPlay, h) && forall k :: 0 <= k < |bs| ==> bs[k] in inPlay
    requires Rare(PlainStep(Contents(d), WriteOp(p, off, bs)))
    ensures var s1 := RemoveAll(d.store, Overwritten(d.files[p], off, |bs|));
            Counted(s1.recs, x) + multiset(Hashes(bs, h))[x] <= 9
  {
    hide StoreInv, RemoveAll, Overwritten, IsBlock, Refs, Counted, Hashes, PlainStep, Contents, Occurrences, NamesOf,
         Names;
    var olds := Overwritten(d.files[p], off, |bs|);
    ReadyToWrite(d, p, off, |bs|, h);
    var s1, rest := RemoveAll(d.store, olds), Refs(d.files) - multiset(olds);
    if Counted(s1.recs, x) > 0 {
      CountedBlock(s1, rest, h, x);
      RemovedSame(d.store, olds);
      var id := FindHash(s1.recs, x, 0) + 1;
      HashCount(bs, h, x, s1.blocks[id]);
      OccursAfterWrite(d, p, off, bs, h, id, s1.blocks[id]);
    } else if k :| 0 <= k < |bs| && h(bs[k]) == x {
      NotNegative(s1, rest, h, x);
      HashCount(bs, h, x, bs[k]);
      OccursWhenWritten(d, p, off, bs, h, bs[k]);
    } else {
      HashAbsent(bs, h, x);
    }
  }

  lemma NotNegative(s: Store, refs: multiset<int>, h: HashFn, x: string)
    requires StoreInv(s, refs, h)
    ensures Counted(s.recs, x) >= 0
  {
  }

  lemma StoredHash(s: Store, refs: multiset<int>, h: HashFn, i: int)
    requires StoreInv(s, refs, h) && 0 <= i < |s.recs| && s.recs[i].count > 0
    ensures i + 1 in s.blocks && h(s.blocks[i + 1]) == s.recs[i].hash
  {
  }

  lemma FitsWithoutCollision(s: Store, refs: multiset<int>, bs: seq<string>, inPlay: set<string>, h: HashFn)
    requires StoreInv(s, refs, h) && HashFits(inPlay, h)
    requires (forall id :: id in s.blocks ==> s.blocks[id] in inPlay) && forall k :: 0 <= k < |bs| ==> bs[k] in inPlay
    ensures NoCollision(s, bs, h)
  {
    hide StoreInv;
    forall i, k | 0 <= i < |s.recs| && 0 <= k < |bs| && s.recs[i].count > 0 && s.recs[i].hash == h(bs[k])
      ensures i + 1 in s.blocks && s.blocks[i + 1] == bs[k]
    {
      StoredHash(s, refs, h, i);
    }
  }

  /** A write after which every block is rare is safe. */
  lemma RareWriteSafe(d: Disk, p: string, off: int, bs: seq<string>, inPlay: set<string>, h: HashFn)
    requires DiskInv(d, h) && HashOk(h) && WriteWanted(d, p, off, bs)
    requires Holds(d.store, inPlay, h) && HashFits(inPlay, h) && |inPlay| < 999
    requires (forall k :: 0 <= k < |bs| ==> bs[k] in inPlay) && Rare(PlainStep(Contents(d), WriteOp(p, off, bs)))
    ensures WriteSafe(d, p, off, bs, h)
  {
    hide StoreInv, RemoveAll, Overwritten, IsBlock, Refs, Counted, Hashes, Rare, NamesOf, WriteSafe, NoCollision,
         HashFits;
    var olds := Overwritten(d.files[p], off, |bs|);
    ReadyToWrite(d, p, off, |bs|, h);
    var s1, rest := RemoveAll(d.store, olds), Refs(d.files) - multiset(olds);
    forall x ensures Counted(s1.recs, x) + multiset(Hashes(bs, h))[x] <= 9 {
      RareCount(d, p, off, bs, inPlay, h, x);
    }
    HoldsAfterRemoval(d.store, olds, inPlay, h);
    FitsWithoutCollision(s1, rest, bs, inPlay, h);
    ImageSize(inPlay, h);
    assert HashSet(bs, h) <= Names(inPlay, h);
    WriteSafeWhenNamed(d, p, off, bs, h, Names(inPlay, h));
  }

  // ---------- runs ----------

  /** What the plain map alone says about an operation. */
  ghost predicate PlainOk(m: map<string, string>, op: Op, inPlay: set<string>)
  {
    match op
    case CreateOp(p) => p !in m
    case WriteOp(p, off, bs) =>
      && p in m && 0 <= off && BASE * off <= |m[p]|
      && (forall k :: 0 <= k < |bs| ==> IsBlock(bs[k]) && bs[k] in inPlay)
      && Rare(PlainStep(m, op))
    case UnlinkOp(p) => p in m
    case ReadOp(p, offset, size) =>
      && p in m && offset >= 0 && size >= 0 && offset % BASE == 0
      && (offset == 0 || (offset < |m[p]| && offset + size <= |m[p]|))
  }

  ghost predicate PlainOks(m: map<string, string>, ops: seq<Op>, inPlay: set<string>)
    decreases |ops|
  {
    ops != [] ==> PlainOk(m, ops[0], inPlay) && PlainOks(PlainStep(m, ops[0]), ops[1..], inPlay)
  }

  /** What the plain map finds in order the disk allows. */
  lemma OkIsAllowed(d: Disk, op: Op, inPlay: set<string>, h: HashFn)
    requires DiskInv(d, h) && HashOk(h) && Holds(d.store, inPlay, h) && HashFits(inPlay, h) && |inPlay| < 999
    requires PlainOk(Contents(d), op, inPlay)
    ensures Allowed(d, op, h) && Holds(Step(d, op, h).store, inPlay, h)
  {
    hide DiskInv, Holds, HashFits, Rare, IsBlock, FileBytes, RemoveAll, WriteSafe, Write, Concat, ValidIds;
    match op
    case CreateOp(p) =>
    case WriteOp(p, off, bs) =>
      CutBytes(d, p, 0, h);
      RareWriteSafe(d, p, off, bs, inPlay, h);
      ReadyToWrite(d, p, off, |bs|, h);
      HoldsAfterWrite(d, p, off, bs, inPlay, h);
    case UnlinkOp(p) =>
      UnlinkRefines(d, p, h);
      HoldsAfterRemoval(d.store, d.files[p], inPlay, h);
    case ReadOp(p, offset, size) =>
      CutBytes(d, p, 0, h);
  }

  /** A run in which no block ever occurs more than nine times, with fewer than 999 different blocks and no
      hash collision among them, is allowed from beginning to end. */
  lemma {:induction false} RareRunAllowed(d: Disk, ops: seq<Op>, inPlay: set<string>, h: HashFn)
    requires DiskInv(d, h) && HashOk(h) && Holds(d.store, inPlay, h) && HashFits(inPlay, h) && |inPlay| < 999
    requires PlainOks(Contents(d), ops, inPlay)
    ensures AllAllowed(d, ops, h)
    decreases |ops|
  {
    hide DiskInv, Holds, HashFits, PlainOk, Allowed, Step, PlainStep, Contents, Output, PlainOutput;
    if ops != [] {
      OkIsAllowed(d, ops[0], inPlay, h);
      StepRefines(d, ops[0], h);
      RareRunAllowed(Step(d, ops[0], h), ops[1..], inPlay, h);
    }
  }

  /** From the mounted, empty file system such a run is, read by read and byte by byte, a run of the plain
      map. */
  lemma RareRunRefines(ops: seq<Op>, inPlay: set<string>, h: HashFn)
    requires HashOk(h) && HashFits(inPlay, h) && |inPlay| < 999 && PlainOks(map[], ops, inPlay)
    ensures AllAllowed(Disk(INITIAL, map[]), ops, h)
    ensures Contents(Run(Disk(INITIAL, map[]), ops, h)) == PlainRun(map[], ops)
    ensures Outputs(Disk(INITIAL, map[]), ops, h) == PlainOutputs(map[], ops)
  {
    InitialDisk(h);
    assert Holds(INITIAL, inPlay, h);
    hide DiskInv, Holds, PlainOks, AllAllowed, Run, Outputs;
    RareRunAllowed(Disk(INITIAL, map[]), ops, inPlay, h);
    RunRefines(Disk(INITIAL, map[]), ops, h);
  }

  // ---------- ten references ----------

  /** The store that holds one block with `n` references. */
  function OneBlock(b: string, n: int, h: HashFn): Store
  {
    Store([Record(1, h(b), n), Record(2, NO_HASH, 0)], map[1 := b])
  }

  lemma OneMoreCopy(b: string, n: int, h: HashFn)
    requires 1 <= n < 99 && h(b) != NO_HASH
    ensures FirstTens(OneBlock(b, n, h).recs, 0) < 2 && PushSafe(OneBlock(b, n, h), b, h)
    ensures Push(OneBlock(b, n, h), b, h) == (OneBlock(b, n + 1, h), 1)
  {
    var r := OneBlock(b, n, h).recs;
    assert FindHash(r, h(b), 0) == 0;
    assert r[0 := r[0].(count := n + 1)] == OneBlock(b, n + 1, h).recs;
  }

  lemma FirstCopy(b: string, h: HashFn)
    requires h(b) != NO_HASH
    ensures FirstTens(INITIAL.recs, 0) == 0 && PushSafe(INITIAL, b, h)
    ensures Push(INITIAL, b, h) == (OneBlock(b, 1, h), 1)
  {
    var r := INITIAL.recs;
    assert FindHash(r, h(b), 0) == 1 && FirstTens(r, 0) == 0;
    assert Taken(r, 0, h(b)) == OneBlock(b, 1, h).recs;
  }

  lemma {:induction false} CopiesPushed(b: string, n: nat, m: nat, h: HashFn)
    requires 1 <= n && n + m <= 99 && h(b) != NO_HASH
    ensures FirstTens(OneBlock(b, n, h).recs, 0) < 2
    ensures PushesSafe(OneBlock(b, n, h), Copies(b, m), h)
    ensures PushAll(OneBlock(b, n, h), Copies(b, m), h) == (OneBlock(b, n + m, h), Copies(1, m))
    decreases m
  {
    TwoRecords(b, n, h);
    hide Push, PushSafe, OneBlock, FirstTens, PushAll, PushesSafe, Copies;
    var s := OneBlock(b, n, h);
    if m == 0 {
      NoPushes(s, Copies(b, m), h);
    } else {
      OneMoreCopy(b, n, h);
      CopiesPushed(b, n + 1, m - 1, h);
      TwoRecords(b, n + 1, h);
      CopiesTail(b, m);
      CopiesTail(1, m);
      PushAndMore(s, Copies(b, m), h);
    }
  }

  lemma NoPushes(s: Store, bs: seq<string>, h: HashFn)
    requires FirstTens(s.recs, 0) < |s.recs| && bs == []
    ensures PushesSafe(s, bs, h) && PushAll(s, bs, h) == (s, [])
  {
  }

  lemma PushAndMore(s: Store, bs: seq<string>, h: HashFn)
    requires FirstTens(s.recs, 0) < |s.recs| && bs != [] && PushSafe(s, bs[0], h)
    requires var s1 := Push(s, bs[0], h).0; FirstTens(s1.recs, 0) < |s1.recs| && PushesSafe(s1, bs[1..], h)
    ensures PushesSafe(s, bs, h)
    ensures var (s1, id) := Push(s, bs[0], h);
            PushAll(s, bs, h) == (PushAll(s1, bs[1..], h).0, [id] + PushAll(s1, bs[1..], h).1)
  {
    hide Push, PushSafe;
  }

  lemma TwoRecords(b: string, n: int, h: HashFn)
    ensures |OneBlock(b, n, h).recs| == 2 && FirstTens(OneBlock(b, n, h).recs, 0) < 2
  {
  }

  /** Writing ten copies of a block into a new file is allowed. */
  lemma TenCopiesWritten(p: string, b: string, h: HashFn)
    requires HashOk(h) && IsBlock(b) && h(b) != NO_HASH
    ensures var d := Disk(INITIAL, map[p := []]);
            && WriteWanted(d, p, 0, Copies(b, 10)) && WriteSafe(d, p, 0, Copies(b, 10), h)
            && Write(d, p, 0, Copies(b, 10), h) == Disk(OneBlock(b, 10, h), map[p := Copies(1, 10)])
  {
    FirstCopy(b, h);
    CopiesPushed(b, 1, 9, h);
    TwoRecords(b, 1, h);
    hide Push, PushSafe, OneBlock, FirstTens, IsBlock, PushAll, PushesSafe, Copies, WriteSafe, Write;
    CopiesTail(b, 10);
    CopiesTail(1, 10);
    PushAndMore(INITIAL, Copies(b, 10), h);
    AppendWritten(Disk(INITIAL, map[p := []]), p, Copies(b, 10), h);
    assert [] + Copies(1, 10) == Copies(1, 10);
  }

  /** A write at the end of a file drops no reference. */
  lemma AppendWritten(d: Disk, p: string, bs: seq<string>, h: HashFn)
    requires p in d.files && FirstTens(d.store.recs, 0) < |d.store.recs|
    ensures var off := |d.files[p]|;
            && Writable(d, p, off, |bs|) && (WriteSafe(d, p, off, bs, h) <==> PushesSafe(d.store, bs, h))
            && Write(d, p, off, bs, h)
               == Disk(PushAll(d.store, bs, h).0, d.files[p := d.files[p] + PushAll(d.store, bs, h).1])
  {
    hide FirstTens, PushAll, PushesSafe, RemoveAll;
    RemoveAllNone(d.store);
    var ids, news := d.files[p], PushAll(d.store, bs, h).1;
    NothingOverwritten(ids, |bs|);
    NothingPatched(ids, news);
    hide Overwritten, Patched;
    assert ValidIds(d.store, []);
  }

  lemma NothingOverwritten(ids: seq<int>, n: nat)
    ensures Overwritten(ids, |ids|, n) == []
  {
  }

  lemma NothingPatched(ids: seq<int>, news: seq<int>)
    ensures Patched(ids, |ids|, news) == ids + news
  {
  }

  lemma TakenOver(b: string, c: string, h: HashFn)
    requires h(b) != h(c) && h(b) != NO_HASH && h(c) != NO_HASH
    ensures var s := OneBlock(b, 10, h);
            && |s.recs| == 2 && FirstTens(s.recs, 0) < 2 && !PushSafe(s, c, h)
            && Push(s, c, h).0.blocks == map[1 := c] && Push(s, c, h).1 == 1
            && FirstTens(Push(s, c, h).0.recs, 0) < |Push(s, c, h).0.recs|
  {
    var s := OneBlock(b, 10, h);
    assert FindHash(s.recs, h(c), 0) == FindHash(s.recs, h(c), 1) == FindHash(s.recs, h(c), 2) == 2;
    assert FirstTens(s.recs, 0) == 0;
    assert FirstTens(Push(s, c, h).0.recs, 0) == 1;
  }

  /** The next new block is then stored over it: with a counter of ten, the record looks free. */
  lemma EleventhBlockUnsafe(p: string, b: string, c: string, h: HashFn)
    requires HashOk(h) && IsBlock(b) && IsBlock(c) && h(b) != h(c) && h(b) != NO_HASH && h(c) != NO_HASH
    ensures var d := Disk(OneBlock(b, 10, h), map[p := Copies(1, 10)]);
            && WriteWanted(d, p, 10, [c]) && Writable(d, p, 10, 1) && !WriteSafe(d, p, 10, [c], h)
            && Write(d, p, 10, [c], h).store.blocks == map[1 := c]
            && Write(d, p, 10, [c], h).files == map[p := Copies(1, 11)]
  {
    var s := OneBlock(b, 10, h);
    TakenOver(b, c, h);
    hide Push, PushSafe, OneBlock, FirstTens, IsBlock, Write, WriteSafe, Writable, PushAll;
    PushAllIs(s, [c], h);
    PushAllNone(Push(s, c, h).0, h);
    assert [c][1..] == [] && [1] + [] == [1];
    AppendWritten(Disk(s, map[p := Copies(1, 10)]), p, [c], h);
    assert Copies(1, 10) + [1] == Copies(1, 11);
  }

  /** A new file of ten copies of one block. */
  lemma TenCopiesRun(p: string, b: string, h: HashFn)
    requires HashOk(h) && IsBlock(b) && h(b) != NO_HASH
    ensures var ops := [CreateOp(p), WriteOp(p, 0, Copies(b, 10))];
            && AllAllowed(Disk(INITIAL, map[]), ops, h)
            && var d := Run(Disk(INITIAL, map[]), ops, h);
            && d == Disk(OneBlock(b, 10, h), map[p := Copies(1, 10)]) && Contents(d)[p] == Concat(Copies(b, 10))
  {
    var d0, bs := Disk(INITIAL, map[]), Copies(b, 10);
    var d1 := Disk(INITIAL, map[p := []]);
    TenCopiesWritten(p, b, h);
    FileBytesStored(OneBlock(b, 10, h).blocks, Copies(1, 10), bs);
    hide Write, WriteSafe, IsBlock, FileBytes, Concat, Writable, AllAllowed, Run;
    assert Create(d0, p) == d1;
    var w := WriteOp(p, 0, bs);
    assert Allowed(d0, CreateOp(p), h) && Step(d0, CreateOp(p), h) == d1 && Allowed(d1, w, h);
    TwoOps(d0, CreateOp(p), w, h);
  }

  /** A run from the mounted file system into the failing case: ten copies of one block, then a different
      block behind them.  The last write is wanted, but all eleven blocks of the file then read as the new
      one. */
  lemma TenReferencesLost(p: string, b: string, c: string, h: HashFn)
    requires HashOk(h) && IsBlock(b) && IsBlock(c) && h(b) != h(c) && h(b) != NO_HASH && h(c) != NO_HASH
    ensures var ops := [CreateOp(p), WriteOp(p, 0, Copies(b, 10))];
            && AllAllowed(Disk(INITIAL, map[]), ops, h)
            && var d := Run(Disk(INITIAL, map[]), ops, h);
            && WriteWanted(d, p, 10, [c]) && Writable(d, p, 10, 1) && !WriteSafe(d, p, 10, [c], h)
            && Contents(d)[p] == Concat(Copies(b, 10))
            && Contents(Write(d, p, 10, [c], h))[p] == Concat(Copies(c, 11)) && b != c
  {
    TenCopiesRun(p, b, h);
    EleventhBlockUnsafe(p, b, c, h);
    FileBytesStored(map[1 := c], Copies(1, 11), Copies(c, 11));
    hide Write, WriteSafe, IsBlock, FileBytes, Concat, Writable, AllAllowed, Run;
  }

  /** Reading the same file from its second block on, past its end: one more block comes back than there is. */
  lemma LastBlockRepeated(p: string, b: string, h: HashFn)
    requires HashOk(h) && IsBlock(b) && h(b) != NO_HASH
    ensures var ops := [CreateOp(p), WriteOp(p, 0, Copies(b, 10))];
            && AllAllowed(Disk(INITIAL, map[]), ops, h)
            && var d := Run(Disk(INITIAL, map[]), ops, h);
            && p in d.files && d.files[p] != [] && Contents(d)[p] == Concat(Copies(b, 10))
            && PlainRead(Contents(d)[p], BASE, 10 * BASE) == Concat(Copies(b, 9))
            && Read(d, p, BASE, 10 * BASE) == Concat(Copies(b, 10)) && |Concat(Copies(b, 10))| == 10 * BASE
  {
    var ops := [CreateOp(p), WriteOp(p, 0, Copies(b, 10))];
    TenCopiesRun(p, b, h);
    InitialDisk(h);
    hide DiskInv, FileBytes, Concat, AllAllowed, Run, IsBlock, OneBlock, Read, Copies, Contents;
    RunRefines(Disk(INITIAL, map[]), ops, h);
    var d := Run(Disk(INITIAL, map[]), ops, h);
    TenBlocks(b);
    ReadIs(d, p, 1, 10 * BASE, h);
  }

  /** Ten copies of a block without the first, and with the last once more. */
  lemma TenBlocks(b: string)
    requires IsBlock(b)
    ensures var bytes := Concat(Copies(b, 10));
            && |bytes| == 10 * BASE && bytes[BASE..] == Concat(Copies(b, 9))
            && bytes[BASE..] + Concat(Copies(bytes[|bytes| - BASE..], 1)) == bytes
  {
    hide Concat, IsBlock;
    BlockBytes(b, 10);
    BlockBytes(b, 9);
    BlockBytes(b, 1);
    ConcatConcat(Copies(b, 1), Copies(b, 9));
    ConcatConcat(Copies(b, 9), Copies(b, 1));
    assert Copies(b, 1) + Copies(b, 9) == Copies(b, 10) == Copies(b, 9) + Copies(b, 1);
  }

  lemma BlockBytes(b: string, n: nat)
    requires IsBlock(b)
    ensures |Concat(Copies(b, n))| == BASE * n && (n == 1 ==> Concat(Copies(b, n)) == b)
  {
    BlocksOfConcat(Copies(b, n));
    if n == 1 { assert Copies(b, 1)[1..] == []; }
  }

  lemma TwoOps(d: Disk, a: Op, b: Op, h: HashFn)
    requires Allowed(d, a, h) && Allowed(Step(d, a, h), b, h)
    ensures AllAllowed(d, [a, b], h) && Run(d, [a, b], h) == Step(Step(d, a, h), b, h)
  {
    hide Allowed, Step;
    var d1 := Step(d, a, h);
    assert [a, b][1..] == [b];
    OneOp(d1, b, h);
  }

  lemma OneOp(d: Disk, a: Op, h: HashFn)
    requires Allowed(d, a, h)
    ensures AllAllowed(d, [a], h) && Run(d, [a], h) == Step(d, a, h)
  {
    hide Allowed, Step;
    assert [a][1..] == [];
    assert AllAllowed(Step(d, a, h), [], h) && Run(Step(d, a, h), [], h) == Step(d, a, h);
  }
}
