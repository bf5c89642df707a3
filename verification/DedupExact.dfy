/** When a write does its job, exactly: an unsafe push leaves a fault that no later push of the same write can
    undo. */
module DedupExact {
  import opened DedupText
  import opened DedupLedger
  import opened DedupStore
  import opened DedupDisk

  /** The ledger has run out of three-digit ids. */
  predicate Overflown(recs: seq<Record>)
  {
    |recs| >= 1000
  }

  /** The sentinel is in use as a block's record. */
  ghost predicate SentinelUsed(recs: seq<Record>, refs: multiset<int>)
  {
    recs != [] && recs[|recs| - 1].count > 0 && refs[|recs|] > 0
  }

  /** A counter has lost references. */
  ghost predicate Undercounted(recs: seq<Record>, refs: multiset<int>)
  {
    exists i :: 0 <= i < |recs| && recs[i].count < refs[i + 1]
  }

  /** A block that was to be stored reads differently under the id it was given. */
  ghost predicate Misread(s: Store, refs: multiset<int>, ids: seq<int>, bs: seq<string>)
    requires |ids| == |bs|
  {
    exists k :: 0 <= k < |ids| && MisreadAt(s, refs, ids[k], bs[k])
  }

  ghost predicate MisreadAt(s: Store, refs: multiset<int>, id: int, b: string)
  {
    1 <= id <= |s.recs| && refs[id] > 0 && id in s.blocks && s.blocks[id] != b
  }

  ghost predicate Faulty(s: Store, refs: multiset<int>, ids: seq<int>, bs: seq<string>)
    requires |ids| == |bs|
  {
    Overflown(s.recs) || SentinelUsed(s.recs, refs) || Undercounted(s.recs, refs) || Misread(s, refs, ids, bs)
  }

  /** All blocks are stored under their ids, and all references are counted. */
  ghost predicate Stored(s: Store, refs: multiset<int>, ids: seq<int>, bs: seq<string>, h: HashFn)
  {
    && |ids| == |bs| && StoreInv(s, refs, h)
    && forall k :: 0 <= k < |bs| ==> ids[k] in s.blocks && s.blocks[ids[k]] == bs[k]
  }

  lemma FaultyIsNotStored(s: Store, refs: multiset<int>, ids: seq<int>, bs: seq<string>, h: HashFn)
    requires |ids| == |bs| && Faulty(s, refs, ids, bs)
    ensures !Stored(s, refs, ids, bs, h)
  {
  }

  /** A fault survives every later push. */
  lemma FaultStays(s: Store, b: string, refs: multiset<int>, ids: seq<int>, bs: seq<string>, h: HashFn)
    requires InOrder(s.recs) && FirstTens(s.recs, 0) < |s.recs| && |ids| == |bs| && Faulty(s, refs, ids, bs)
    ensures var (s', id) := Push(s, b, h);
            InOrder(s'.recs) && Faulty(s', refs + multiset{id}, ids + [id], bs + [b])
  {
    hide Push, InOrder;
    PushMoves(s, b, h);
    var (s', id) := Push(s, b, h);
    var refs', ids', bs' := refs + multiset{id}, ids + [id], bs + [b];
    if Undercounted(s.recs, refs) {
      var i :| 0 <= i < |s.recs| && s.recs[i].count < refs[i + 1];
      assert s'.recs[i].count < refs'[i + 1];
    } else if SentinelUsed(s.recs, refs) {
      if |s'.recs| > |s.recs| { assert s'.recs[id - 1].count < refs'[id - 1 + 1]; }
    } else if Misread(s, refs, ids, bs) {
      var k :| 0 <= k < |ids| && MisreadAt(s, refs, ids[k], bs[k]);
      if id == ids[k] && s'.blocks != s.blocks {
        assert s'.recs[id - 1].count < refs'[id - 1 + 1];
      } else {
        assert ids'[k] == ids[k] && bs'[k] == bs[k];
        assert MisreadAt(s', refs', ids'[k], bs'[k]);
      }
    }
  }

  /** An unsafe push of a known hash is the beginning of one. */
  lemma UnsafeKnown(s: Store, b: string, refs: multiset<int>, h: HashFn)
    requires StoreInv(s, refs, h) && FirstTens(s.recs, 0) < |s.recs| && !PushSafe(s, b, h)
    requires FindHash(s.recs, h(b), 0) < |s.recs|
    ensures var (s', id) := Push(s, b, h);
            || SentinelUsed(s'.recs, refs + multiset{id}) || Undercounted(s'.recs, refs + multiset{id})
            || MisreadAt(s', refs + multiset{id}, id, b)
  {
    var k := FindHash(s.recs, h(b), 0);
    LedgerFacts(s.recs, k);
    StoreInvParts(s, refs, h);
    hide StoreInv, BlocksOk;
    var s', refs' := Push(s, b, h).0, refs + multiset{k + 1};
    assert Push(s, b, h).1 == k + 1 && s'.recs[k].count == Bumped(s.recs[k].count);
    if h(b) != NO_HASH && s.recs[k].count == 99 {
      assert s'.recs[k].count < refs'[k + 1];
    } else if h(b) != NO_HASH {
      assert s.recs[k].count > 0 && s'.blocks == s.blocks;
      assert k + 1 in s.blocks by { InUse(s, k, h); }
    }
  }

  lemma InUse(s: Store, k: int, h: HashFn)
    requires BlocksOk(s, h) && 0 <= k < |s.recs| && s.recs[k].count > 0
    ensures k + 1 in s.blocks
  {
  }

  /** So is an unsafe push of a new one. */
  lemma UnsafeUnknown(s: Store, b: string, refs: multiset<int>, h: HashFn)
    requires StoreInv(s, refs, h) && HashOk(h) && FirstTens(s.recs, 0) < |s.recs| && !PushSafe(s, b, h)
    requires FindHash(s.recs, h(b), 0) == |s.recs|
    ensures var (s', id) := Push(s, b, h); Overflown(s'.recs) || Undercounted(s'.recs, refs + multiset{id})
  {
    var j := FirstTens(s.recs, 0);
    LedgerFacts(s.recs, |s.recs| - 1);
    StoreInvParts(s, refs, h);
    hide StoreInv, BlocksOk;
    var s', refs' := Push(s, b, h).0, refs + multiset{j + 1};
    assert Push(s, b, h).1 == j + 1 && s'.recs[j].count == 1;
    if s.recs[j].count != 0 { assert s'.recs[j].count < refs'[j + 1]; }
  }

  lemma UnsafePushFaults(s: Store, b: string, refs: multiset<int>, ids: seq<int>, bs: seq<string>, h: HashFn)
    requires StoreInv(s, refs, h) && HashOk(h) && FirstTens(s.recs, 0) < |s.recs| && |ids| == |bs| && !PushSafe(s, b, h)
    ensures var (s', id) := Push(s, b, h);
            InOrder(s'.recs) && Faulty(s', refs + multiset{id}, ids + [id], bs + [b])
  {
    InOrderWhenSound(s, refs, h);
    hide Push, PushSafe, StoreInv, InOrder;
    PushMoves(s, b, h);
    var (s', id) := Push(s, b, h);
    if FindHash(s.recs, h(b), 0) < |s.recs| {
      UnsafeKnown(s, b, refs, h);
      assert (ids + [id])[|ids|] == id && (bs + [b])[|ids|] == b;
    } else {
      UnsafeUnknown(s, b, refs, h);
    }
  }

  lemma PushAllIs(s: Store, bs: seq<string>, h: HashFn)
    requires FirstTens(s.recs, 0) < |s.recs| && bs != []
    ensures var (s1, id) := Push(s, bs[0], h);
            if FirstTens(s1.recs, 0) == |s1.recs| then PushAll(s, bs, h) == (s1, [id])
            else PushAll(s, bs, h) == (PushAll(s1, bs[1..], h).0, [id] + PushAll(s1, bs[1..], h).1)
  {
  }

  /** A fault at the start of a run of pushes is there at its end. */
  lemma {:induction false} FaultyRun(s: Store, rest: seq<string>, refs: multiset<int>, ids: seq<int>, bs: seq<string>,
      h: HashFn)
    requires InOrder(s.recs) && FirstTens(s.recs, 0) < |s.recs| && |ids| == |bs| && Faulty(s, refs, ids, bs)
    ensures var (s', news) := PushAll(s, rest, h);
            !Stored(s', refs + multiset(news), ids + news, bs + rest, h)
    decreases |rest|
  {
    hide Push, Stored, Faulty;
    if rest == [] {
      assert bs + rest == bs && ids + [] == ids && refs + multiset([]) == refs;
      FaultyIsNotStored(s, refs, ids, bs, h);
    } else {
      FaultStays(s, rest[0], refs, ids, bs, h);
      PushAllIs(s, rest, h);
      AfterPush(s, rest, refs, ids, bs, h);
    }
  }

  /** The run goes on with the next block, or stops for want of a record to take. */
  lemma {:induction false} AfterPush(s: Store, rest: seq<string>, refs: multiset<int>, ids: seq<int>, bs: seq<string>,
      h: HashFn)
    requires FirstTens(s.recs, 0) < |s.recs| && |ids| == |bs| && rest != []
    requires var (s1, id) := Push(s, rest[0], h);
             InOrder(s1.recs) && Faulty(s1, refs + multiset{id}, ids + [id], bs + [rest[0]])
    ensures var (s', news) := PushAll(s, rest, h);
            !Stored(s', refs + multiset(news), ids + news, bs + rest, h)
    decreases |rest|, 0
  {
    hide Push, Faulty, InOrder, Stored, PushAll;
    PushAllIs(s, rest, h);
    var (s1, id) := Push(s, rest[0], h);
    if FirstTens(s1.recs, 0) == |s1.recs| {
      NoSentinel(s1, refs + multiset([id]), ids + [id], bs + rest, h);
    } else {
      FaultyRun(s1, rest[1..], refs + multiset{id}, ids + [id], bs + [rest[0]], h);
      Regrouped(refs, id, PushAll(s1, rest[1..], h).1, ids, rest, bs);
    }
  }

  lemma Regrouped(refs: multiset<int>, id: int, more: seq<int>, ids: seq<int>, rest: seq<string>, bs: seq<string>)
    requires rest != []
    ensures refs + multiset{id} + multiset(more) == refs + multiset([id] + more)
    ensures ids + [id] + more == ids + ([id] + more)
    ensures bs + [rest[0]] + rest[1..] == bs + rest
  {
  }

  lemma NoSentinel(s: Store, refs: multiset<int>, ids: seq<int>, bs: seq<string>, h: HashFn)
    requires FirstTens(s.recs, 0) == |s.recs|
    ensures !Stored(s, refs, ids, bs, h)
  {
    if StoreInv(s, refs, h) { SentinelFound(s.recs); }
  }

  /** A safe push adds one block to those stored. */
  lemma StoredStep(s: Store, b: string, refs: multiset<int>, ids: seq<int>, bs: seq<string>, h: HashFn)
    requires Stored(s, refs, ids, bs, h) && HashOk(h) && IsBlock(b) && FirstTens(s.recs, 0) < |s.recs|
    requires PushSafe(s, b, h) && forall id :: id in ids ==> id in refs
    ensures var (s', id) := Push(s, b, h);
            Stored(s', refs + multiset{id}, ids + [id], bs + [b], h) && FirstTens(s'.recs, 0) < |s'.recs|
  {
    hide Push, PushSafe, StoreInv, IsBlock, LedgerOk, CountsExact, BlocksOk, Kept;
    PushIff(s, b, refs, h);
    var (s', id) := Push(s, b, h);
    StoreInvParts(s', refs + multiset{id}, h);
    SentinelFound(s'.recs);
    forall k | 0 <= k < |bs| ensures ids[k] in s'.blocks && s'.blocks[ids[k]] == bs[k] {
      KeptOne(s, s', refs, ids[k]);
    }
  }

  /** compressBuffer stores all its blocks exactly when every push is safe. */
  lemma {:induction false} PushAllIff(s: Store, rest: seq<string>, refs: multiset<int>, ids: seq<int>, bs: seq<string>,
      h: HashFn)
    requires Stored(s, refs, ids, bs, h) && HashOk(h) && FirstTens(s.recs, 0) < |s.recs|
    requires forall k :: 0 <= k < |rest| ==> IsBlock(rest[k])
    requires forall id :: id in ids ==> id in refs
    ensures var (s', news) := PushAll(s, rest, h);
            PushesSafe(s, rest, h) <==> Stored(s', refs + multiset(news), ids + news, bs + rest, h)
    decreases |rest|
  {
    hide Push, PushSafe, StoreInv, Faulty, IsBlock, Stored, InOrder;
    if rest == [] {
      assert bs + rest == bs && ids + [] == ids && refs + multiset([]) == refs;
    } else if !PushSafe(s, rest[0], h) {
      StoredParts(s, refs, ids, bs, h);
      UnsafePushFaults(s, rest[0], refs, ids, bs, h);
      AfterPush(s, rest, refs, ids, bs, h);
    } else {
      StoredParts(s, refs, ids, bs, h);
      StoredStep(s, rest[0], refs, ids, bs, h);
      var (s1, id) := Push(s, rest[0], h);
      PushAllIs(s, rest, h);
      PushAllIff(s1, rest[1..], refs + multiset{id}, ids + [id], bs + [rest[0]], h);
      Regrouped(refs, id, PushAll(s1, rest[1..], h).1, ids, rest, bs);
    }
  }

  lemma StoredParts(s: Store, refs: multiset<int>, ids: seq<int>, bs: seq<string>, h: HashFn)
    requires Stored(s, refs, ids, bs, h)
    ensures StoreInv(s, refs, h) && |ids| == |bs|
  {
  }

  // ---------- writes ----------

  lemma {:induction false} PushAllLength(s: Store, bs: seq<string>, h: HashFn)
    requires FirstTens(s.recs, 0) < |s.recs|
    ensures var (s', ids) := PushAll(s, bs, h);
            |ids| == |bs| || FirstTens(s'.recs, 0) == |s'.recs|
    decreases |bs|
  {
    hide Push;
    if bs != [] {
      PushAllIs(s, bs, h);
      var s1 := Push(s, bs[0], h).0;
      if FirstTens(s1.recs, 0) < |s1.recs| { PushAllLength(s1, bs[1..], h); }
    }
  }

  lemma SplitEqual(a: string, x: string, b: string, y: string)
    requires |a| == |b| && a + x == b + y
    ensures a == b && x == y
  {
    assert a == (a + x)[..|a|] && b == (b + y)[..|b|];
    assert x == (a + x)[|a|..] && y == (b + y)[|b|..];
  }

  /** Blocks all have the same length, so equal bytes are equal blocks. */
  lemma {:induction false} SameBlocks(s: Store, ids: seq<int>, bs: seq<string>, refs: multiset<int>, h: HashFn)
    requires StoreInv(s, refs, h) && multiset(ids) <= refs && |ids| == |bs|
    requires (forall k :: 0 <= k < |bs| ==> IsBlock(bs[k])) && FileBytes(s.blocks, ids) == Concat(bs)
    ensures forall k :: 0 <= k < |bs| ==> ids[k] in s.blocks && s.blocks[ids[k]] == bs[k]
  {
    hide StoreInv, IsBlock, FileBytes, Concat;
    if ids != [] {
      var rest, t := ids[1..], bs[1..];
      assert ids == [ids[0]] + rest;
      assert ids[0] in multiset(ids);
      ReferencedBlock(s, refs, h, ids[0]);
      FirstBlocks(s.blocks, ids, bs);
      assert forall k :: 0 <= k < |t| ==> t[k] == bs[k + 1];
      SameBlocks(s, rest, t, refs, h);
      forall k | 0 < k < |bs| ensures ids[k] in s.blocks && s.blocks[ids[k]] == bs[k] {
        assert ids[k] == rest[k - 1] && bs[k] == t[k - 1];
      }
    }
  }

  lemma FirstBlocks(blocks: map<int, string>, ids: seq<int>, bs: seq<string>)
    requires |ids| == |bs| > 0 && ids[0] in blocks && IsBlock(blocks[ids[0]]) && IsBlock(bs[0])
    requires FileBytes(blocks, ids) == Concat(bs)
    ensures blocks[ids[0]] == bs[0] && FileBytes(blocks, ids[1..]) == Concat(bs[1..])
  {
    SplitEqual(blocks[ids[0]], FileBytes(blocks, ids[1..]), bs[0], Concat(bs[1..]));
  }

  /** If the written file reads as it should, the middle of it is the written blocks. */
  lemma MiddleBytes(s: Store, head: seq<int>, news: seq<int>, tail: seq<int>, refs: multiset<int>, h: HashFn,
                    bytes: string, written: string)
    requires StoreInv(s, refs, h) && multiset(head) <= refs && multiset(news) <= refs && |written| == BASE * |news|
    requires BASE * |head| <= |bytes|
    requires FileBytes(s.blocks, head + news + tail) == Patched(bytes, BASE * |head|, written)
    ensures FileBytes(s.blocks, news) == written
  {
    hide StoreInv, FileBytes;
    FileBytesConcat(s.blocks, head, news);
    FileBytesConcat(s.blocks, head + news, tail);
    FileLength(s, head, refs, h);
    FileLength(s, news, refs, h);
    var all, at := FileBytes(s.blocks, head + news + tail), BASE * |head|;
    assert all[at..at + |written|] == FileBytes(s.blocks, news);
    assert Patched(bytes, at, written)[at..at + |written|] == written;
  }

  /** The references after a write. */
  lemma RefsWritten(files: map<string, seq<int>>, p: string, off: int, news: seq<int>)
    requires p in files && 0 <= off <= |files[p]|
    ensures Refs(files[p := Patched(files[p], off, news)])
            == Refs(files) - multiset(Overwritten(files[p], off, |news|)) + multiset(news)
  {
    hide Overwritten, Patched, Refs;
    RefsOfFile(files, p);
    PatchedRefs(files[p], off, news, |news|);
    RefsSplit(files, p);
    RefsUpdated(files, p, Patched(files[p], off, news));
  }

  /** A file that reads right has stored all the blocks written into it. */
  lemma RightBlocks(s: Store, ids: seq<int>, off: int, news: seq<int>, bs: seq<string>, refs: multiset<int>, h: HashFn,
                    bytes: string)
    requires StoreInv(s, refs, h) && 0 <= off <= |ids| && |news| == |bs| && BASE * off <= |bytes|
    requires multiset(Patched(ids, off, news)) <= refs && forall k :: 0 <= k < |bs| ==> IsBlock(bs[k])
    requires FileBytes(s.blocks, Patched(ids, off, news)) == Patched(bytes, BASE * off, Concat(bs))
    ensures Stored(s, refs, news, bs, h)
  {
    hide StoreInv, FileBytes, Concat, Min, IsBlock;
    PatchedIs(ids, off, news);
    var head, tail := ids[..off], ids[Min(off + |news|, |ids|)..];
    assert Patched(ids, off, news) == head + news + tail;
    hide Patched;
    assert multiset(head + news + tail) == multiset(head) + multiset(news) + multiset(tail);
    ConcatLength(bs);
    MiddleBytes(s, head, news, tail, refs, h, bytes, Concat(bs));
    SameBlocks(s, news, bs, refs, h);
  }

  /** A write whose outcome is sound and reads right has stored all its blocks. */
  lemma RightIsStored(d: Disk, p: string, off: int, bs: seq<string>, h: HashFn)
    requires WriteWanted(d, p, off, bs) && Writable(d, p, off, |bs|) && BASE * off <= |Contents(d)[p]|
    requires var d' := Write(d, p, off, bs, h);
             DiskInv(d', h) && Contents(d')[p] == Patched(Contents(d)[p], BASE * off, Concat(bs))
    ensures var olds := Overwritten(d.files[p], off, |bs|);
            && ValidIds(d.store, olds) && FirstTens(RemoveAll(d.store, olds).recs, 0) < |RemoveAll(d.store, olds).recs|
            && var (s2, news) := PushAll(RemoveAll(d.store, olds), bs, h);
            Stored(s2, Refs(d.files) - multiset(olds) + multiset(news), news, bs, h)
  {
    hide StoreInv, IsBlock, FileBytes, Concat, PushAll, RemoveAll, Overwritten, Writable, Patched, Refs, Stored,
         ValidIds;
    var olds := Overwritten(d.files[p], off, |bs|);
    FirstWritable(d, p, off, |bs|);
    var (s2, news) := PushAll(RemoveAll(d.store, olds), bs, h);
    PushAllLength(RemoveAll(d.store, olds), bs, h);
    var files := d.files[p := Patched(d.files[p], off, news)];
    assert Write(d, p, off, bs, h) == Disk(s2, files);
    if |news| != |bs| { NoSentinel(s2, Refs(files), [], [], h); EmptyStored(s2, Refs(files), h); }
    RefsWritten(d.files, p, off, news);
    RefsOfFile(files, p);
    RightBlocks(s2, d.files[p], off, news, bs, Refs(files), h, Contents(d)[p]);
  }

  lemma EmptyStored(s: Store, refs: multiset<int>, h: HashFn)
    requires StoreInv(s, refs, h)
    ensures Stored(s, refs, [], [], h)
  {
  }

  lemma FirstWritable(d: Disk, p: string, off: int, n: int)
    requires p in d.files && 0 <= off <= |d.files[p]| && n >= 0 && Writable(d, p, off, n)
    ensures ValidIds(d.store, Overwritten(d.files[p], off, n))
    ensures var s1 := RemoveAll(d.store, Overwritten(d.files[p], off, n)); FirstTens(s1.recs, 0) < |s1.recs|
  {
  }

  /** What a write is for: the disk stays sound, the file has the new bytes in their place, and nothing else
      changes in any file. */
  ghost predicate Written(d: Disk, d': Disk, p: string, off: int, bs: seq<string>, h: HashFn)
    requires p in d.files && off >= 0
  {
    && DiskInv(d', h) && BASE * off <= |Contents(d)[p]|
    && Contents(d') == Contents(d)[p := Patched(Contents(d)[p], BASE * off, Concat(bs))]
  }

  lemma WrittenIsStored(d: Disk, p: string, off: int, bs: seq<string>, h: HashFn)
    requires WriteWanted(d, p, off, bs) && Writable(d, p, off, |bs|)
    requires Written(d, Write(d, p, off, bs, h), p, off, bs, h)
    ensures var olds := Overwritten(d.files[p], off, |bs|);
            && ValidIds(d.store, olds) && FirstTens(RemoveAll(d.store, olds).recs, 0) < |RemoveAll(d.store, olds).recs|
            && var (s2, news) := PushAll(RemoveAll(d.store, olds), bs, h);
            Stored(s2, Refs(d.files) - multiset(olds) + multiset(news), news, bs, h)
  {
    hide DiskInv, IsBlock, FileBytes, Concat, PushAll, RemoveAll, Overwritten, Writable, Patched, Refs, Stored, Write;
    RightIsStored(d, p, off, bs, h);
  }

  /** An unsafe push makes the whole write fail. */
  lemma UnsafeWriteFails(d: Disk, p: string, off: int, bs: seq<string>, h: HashFn)
    requires DiskInv(d, h) && HashOk(h) && WriteWanted(d, p, off, bs) && !WriteSafe(d, p, off, bs, h)
    requires Writable(d, p, off, |bs|)
    ensures !Written(d, Write(d, p, off, bs, h), p, off, bs, h)
  {
    hide StoreInv, IsBlock, PushAll, RemoveAll, Overwritten, PushesSafe, Write, Refs, Stored, Written;
    ReadyToWrite(d, p, off, |bs|, h);
    var olds := Overwritten(d.files[p], off, |bs|);
    var s1, rest := RemoveAll(d.store, olds), Refs(d.files) - multiset(olds);
    EmptyStored(s1, rest, h);
    PushAllIff(s1, bs, rest, [], [], h);
    var news := PushAll(s1, bs, h).1;
    assert [] + news == news && [] + bs == bs;
    if Written(d, Write(d, p, off, bs, h), p, off, bs, h) {
      WrittenIsStored(d, p, off, bs, h);
    }
  }

  /** bb_write does what a write is for exactly when every push is safe. */
  lemma WriteIff(d: Disk, p: string, off: int, bs: seq<string>, h: HashFn)
    requires DiskInv(d, h) && HashOk(h) && WriteWanted(d, p, off, bs)
    ensures Writable(d, p, off, |bs|)
    ensures WriteSafe(d, p, off, bs, h) <==> Written(d, Write(d, p, off, bs, h), p, off, bs, h)
  {
    ReadyToWrite(d, p, off, |bs|, h);
    hide DiskInv, Writable, WriteSafe, Write, Contents, Concat, Patched;
    if WriteSafe(d, p, off, bs, h) {
      WriteRefines(d, p, off, bs, h);
    } else {
      UnsafeWriteFails(d, p, off, bs, h);
    }
  }

  lemma WrittenIs(d: Disk, p: string, off: int, bs: seq<string>, h: HashFn)
    requires DiskInv(d, h) && p in d.files && 0 <= off <= |d.files[p]|
    ensures BASE * off <= |Contents(d)[p]|
    ensures forall d' :: Written(d, d', p, off, bs, h) <==>
              DiskInv(d', h) && Contents(d') == Contents(d)[p := Patched(Contents(d)[p], BASE * off, Concat(bs))]
  {
    CutBytes(d, p, off, h);
  }

  /** The old references can be dropped, and every push finds a record to work on. */
  predicate WriteRuns(d: Disk, p: string, off: int, bs: seq<string>, h: HashFn)
    requires p in d.files && 0 <= off <= |d.files[p]|
  {
    Writable(d, p, off, |bs|) && PushesRun(RemoveAll(d.store, Overwritten(d.files[p], off, |bs|)), bs, h)
  }

  lemma {:induction false} SafePushesRun(s: Store, bs: seq<string>, refs: multiset<int>, h: HashFn)
    requires StoreInv(s, refs, h) && HashOk(h) && FirstTens(s.recs, 0) < |s.recs|
    requires (forall k :: 0 <= k < |bs| ==> IsBlock(bs[k])) && PushesSafe(s, bs, h)
    ensures PushesRun(s, bs, h)
    decreases |bs|
  {
    hide StoreInv, IsBlock, PushSafe, Push, PushRuns;
    if bs != [] {
      PushAllStep(s, bs, h);
      SafePushRuns(s, bs[0], refs, h);
      PushIff(s, bs[0], refs, h);
      var (s1, id) := Push(s, bs[0], h);
      SafePushesRun(s1, bs[1..], refs + multiset{id}, h);
    }
  }

  lemma SafePushRuns(s: Store, b: string, refs: multiset<int>, h: HashFn)
    requires StoreInv(s, refs, h) && FirstTens(s.recs, 0) < |s.recs| && PushSafe(s, b, h)
    ensures PushRuns(s, b, h)
  {
    LedgerFacts(s.recs, FirstTens(s.recs, 0));
  }

  /** A safe write can be carried out. */
  lemma SafeWriteRuns(d: Disk, p: string, off: int, bs: seq<string>, h: HashFn)
    requires DiskInv(d, h) && HashOk(h) && WriteWanted(d, p, off, bs) && WriteSafe(d, p, off, bs, h)
    ensures WriteRuns(d, p, off, bs, h)
  {
    hide StoreInv, RemoveAll, Overwritten, Refs, PushesSafe, PushesRun, IsBlock;
    ReadyToWrite(d, p, off, |bs|, h);
    var olds := Overwritten(d.files[p], off, |bs|);
    SafePushesRun(RemoveAll(d.store, olds), bs, Refs(d.files) - multiset(olds), h);
  }
}
