/** The file system over the block store, as values: it refines a plain map from path to bytes. */
module DedupDisk {
  import opened DedupText
  import opened DedupLedger
  import opened DedupStore

  /** The store, and the id list of every file. */
  datatype Disk = Disk(store: Store, files: map<string, seq<int>>)

  // ---------- references ----------

  /** All references from all files. */
  ghost function Refs<T>(files: map<string, seq<T>>): multiset<T>
    decreases |files|
  {
    if files == map[] then multiset{}
    else
      var p :| p in files;
      assert (files - {p}).Keys == files.Keys - {p};
      multiset(files[p]) + Refs(files - {p})
  }

  lemma {:induction false} RefsSplit<T>(files: map<string, seq<T>>, p: string)
    requires p in files
    ensures Refs(files) == multiset(files[p]) + Refs(files - {p})
    decreases |files|
  {
    var q :| q in files && Refs(files) == multiset(files[q]) + Refs(files - {q});
    hide Refs;
    if q != p {
      TwoGone(files, p, q);
      RefsSplit(files - {q}, p);
      RefsSplit(files - {p}, q);
    }
  }

  lemma TwoGone<T>(files: map<string, seq<T>>, p: string, q: string)
    requires p in files && q in files && p != q
    ensures |files - {q}| < |files| && |files - {p}| < |files|
    ensures p in files - {q} && q in files - {p} && files - {q} - {p} == files - {p} - {q}
  {
    assert (files - {q}).Keys == files.Keys - {q} && (files - {p}).Keys == files.Keys - {p};
  }

  lemma RefsUpdated<T>(files: map<string, seq<T>>, p: string, ids: seq<T>)
    ensures Refs(files[p := ids]) == multiset(ids) + Refs(files - {p})
  {
    RefsSplit(files[p := ids], p);
    assert files[p := ids] - {p} == files - {p};
  }

  lemma RefsOfFile(files: map<string, seq<int>>, p: string)
    requires p in files
    ensures multiset(files[p]) <= Refs(files)
  {
    RefsSplit(files, p);
  }

  lemma RefsOfOther(files: map<string, seq<int>>, p: string, q: string)
    requires p in files && q in files && p != q
    ensures multiset(files[q]) <= Refs(files - {p})
  {
    RefsOfFile(files - {p}, q);
  }

  ghost predicate DiskInv(d: Disk, h: HashFn)
  {
    StoreInv(d.store, Refs(d.files), h)
  }

  // ---------- contents ----------

  function FileBytes(blocks: map<int, string>, ids: seq<int>): string
  {
    if ids == [] then ""
    else (if ids[0] in blocks then blocks[ids[0]] else "") + FileBytes(blocks, ids[1..])
  }

  /** The plain file system the disk stands for. */
  function Contents(d: Disk): map<string, string>
  {
    map p | p in d.files :: FileBytes(d.store.blocks, d.files[p])
  }

  function Concat(bs: seq<string>): string
  {
    if bs == [] then "" else bs[0] + Concat(bs[1..])
  }

  /** Bytes cut into blocks. */
  function Blocks(buf: string): (bs: seq<string>)
    ensures |bs| == |buf| / BASE
    ensures forall k :: 0 <= k < |bs| ==> bs[k] == buf[BASE * k..BASE * k + BASE]
  {
    seq(|buf| / BASE, k requires 0 <= k < |buf| / BASE => buf[BASE * k..BASE * k + BASE])
  }

  lemma {:induction false} FileBytesConcat(blocks: map<int, string>, a: seq<int>, b: seq<int>)
    ensures FileBytes(blocks, a + b) == FileBytes(blocks, a) + FileBytes(blocks, b)
  {
    if a == [] {
      assert a + b == b;
    } else {
      FileBytesConcat(blocks, a[1..], b);
      assert (a + b)[1..] == a[1..] + b;
    }
  }

  lemma {:induction false} FileBytesKept(s: Store, s': Store, ids: seq<int>, refs: multiset<int>)
    requires Kept(s, s', refs) && multiset(ids) <= refs
    ensures FileBytes(s'.blocks, ids) == FileBytes(s.blocks, ids)
  {
    if ids != [] {
      assert ids == [ids[0]] + ids[1..];
      assert ids[0] in multiset(ids);
      KeptOne(s, s', refs, ids[0]);
      FileBytesKept(s, s', ids[1..], refs);
    }
  }

  lemma {:induction false} FileBytesStored(blocks: map<int, string>, ids: seq<int>, bs: seq<string>)
    requires |ids| == |bs| && forall k :: 0 <= k < |bs| ==> ids[k] in blocks && blocks[ids[k]] == bs[k]
    ensures FileBytes(blocks, ids) == Concat(bs)
  {
    if bs != [] { FileBytesStored(blocks, ids[1..], bs[1..]); }
  }

  /** Every block is full, so a file's length is a multiple of the block size. */
  lemma {:induction false} FileLength(s: Store, ids: seq<int>, refs: multiset<int>, h: HashFn)
    requires StoreInv(s, refs, h) && multiset(ids) <= refs
    ensures |FileBytes(s.blocks, ids)| == BASE * |ids|
  {
    hide StoreInv;
    if ids != [] {
      assert ids == [ids[0]] + ids[1..];
      assert ids[0] in multiset(ids);
      ReferencedBlock(s, refs, h, ids[0]);
      FileLength(s, ids[1..], refs, h);
    }
  }

  // ---------- bb_write ----------

  function Min(a: int, b: int): int
  {
    if a <= b then a else b
  }

  /** The ids getOverwrittenBlocks finds under a write of `n` blocks at block `off`. */
  function Overwritten(ids: seq<int>, off: int, n: int): seq<int>
    requires 0 <= off <= |ids| && n >= 0
  {
    ids[off..Min(off + n, |ids|)]
  }

  /** What a write may be asked to do: whole blocks, and no hole. */
  ghost predicate WriteWanted(d: Disk, p: string, off: int, bs: seq<string>)
  {
    p in d.files && 0 <= off <= |d.files[p]| && forall k :: 0 <= k < |bs| ==> IsBlock(bs[k])
  }

  /** The overwritten references can be dropped, and a free record can then be looked for. */
  predicate Writable(d: Disk, p: string, off: int, n: int)
    requires p in d.files && 0 <= off <= |d.files[p]| && n >= 0
  {
    var olds := Overwritten(d.files[p], off, n);
    && ValidIds(d.store, olds)
    && var s1 := RemoveAll(d.store, olds);
       FirstTens(s1.recs, 0) < |s1.recs|
  }

  /** The old references are dropped first; then every push must be safe. */
  predicate WriteSafe(d: Disk, p: string, off: int, bs: seq<string>, h: HashFn)
    requires p in d.files && 0 <= off <= |d.files[p]|
  {
    Writable(d, p, off, |bs|) && PushesSafe(RemoveAll(d.store, Overwritten(d.files[p], off, |bs|)), bs, h)
  }

  function Write(d: Disk, p: string, off: int, bs: seq<string>, h: HashFn): Disk
    requires p in d.files && 0 <= off <= |d.files[p]| && Writable(d, p, off, |bs|)
  {
    var ids := d.files[p];
    var s1 := RemoveAll(d.store, Overwritten(ids, off, |bs|));
    var (s2, news) := PushAll(s1, bs, h);
    Disk(s2, d.files[p := Patched(ids, off, news)])
  }

  /** The references of a file before and after a write. */
  lemma PatchedRefs(ids: seq<int>, off: int, news: seq<int>, n: int)
    requires 0 <= off <= |ids| && n == |news|
    ensures var olds := Overwritten(ids, off, n);
            && multiset(olds) <= multiset(ids)
            && multiset(Patched(ids, off, news)) == multiset(ids) - multiset(olds) + multiset(news)
    ensures multiset(ids[..off]) + multiset(ids[Min(off + n, |ids|)..])
            == multiset(ids) - multiset(Overwritten(ids, off, n))
  {
    var end := Min(off + n, |ids|);
    assert ids == ids[..off] + ids[off..end] + ids[end..];
    assert Patched(ids, off, news) == ids[..off] + news + ids[end..];
  }

  /** The store after a write, against the references of all files. */
  lemma WriteStore(d: Disk, p: string, off: int, bs: seq<string>, h: HashFn) returns (news: seq<int>)
    requires DiskInv(d, h) && HashOk(h) && WriteWanted(d, p, off, bs) && WriteSafe(d, p, off, bs, h)
    ensures |news| == |bs|
    ensures var d' := Write(d, p, off, bs, h);
            && DiskInv(d', h) && d'.files == d.files[p := Patched(d.files[p], off, news)]
            && Kept(d.store, d'.store, Refs(d.files) - multiset(Overwritten(d.files[p], off, |bs|)))
            && FileBytes(d'.store.blocks, news) == Concat(bs)
  {
    hide StoreInv, Kept, IsBlock, PushesSafe;
    var ids := d.files[p];
    var olds := Overwritten(ids, off, |bs|);
    var refs := Refs(d.files);
    var s1 := RemoveAll(d.store, olds);
    var (s2, ns) := PushAll(s1, bs, h);
    news := ns;
    var rest := refs - multiset(olds);
    RefsOfFile(d.files, p);
    PatchedOlds(ids, off, |bs|);
    RemoveAllCounts(d.store, olds, refs, h);
    PushAllStores(s1, bs, rest, h);
    PatchedRefs(ids, off, news, |bs|);
    RefsSplit(d.files, p);
    RefsUpdated(d.files, p, Patched(ids, off, news));
    assert Refs(d.files[p := Patched(ids, off, news)]) == rest + multiset(news);
    KeptTransitiveDown(d.store, s1, s2, rest, rest);
    FileBytesStored(s2.blocks, news, bs);
  }

  lemma PatchedOlds(ids: seq<int>, off: int, n: int)
    requires 0 <= off <= |ids| && n >= 0
    ensures multiset(Overwritten(ids, off, n)) <= multiset(ids)
  {
    var end := Min(off + n, |ids|);
    assert ids == ids[..off] + ids[off..end] + ids[end..];
  }

  /** No other file changes a byte, whatever blocks it shares. */
  lemma WriteOthers(d: Disk, p: string, off: int, bs: seq<string>, h: HashFn, q: string)
    requires DiskInv(d, h) && HashOk(h) && WriteWanted(d, p, off, bs) && WriteSafe(d, p, off, bs, h)
    requires q in d.files && q != p
    ensures Contents(Write(d, p, off, bs, h))[q] == Contents(d)[q]
  {
    hide StoreInv, Kept, IsBlock, DiskInv, Writable, PushesSafe, Write, FileBytes;
    var news := WriteStore(d, p, off, bs, h);
    var olds := Overwritten(d.files[p], off, |bs|);
    RefsSplit(d.files, p);
    RefsOfOther(d.files, p, q);
    PatchedOlds(d.files[p], off, |bs|);
    FileBytesKept(d.store, Write(d, p, off, bs, h).store, d.files[q], Refs(d.files) - multiset(olds));
  }

  /** Cutting a file's bytes at block boundaries cuts its id list. */
  lemma CutBytes(d: Disk, p: string, off: int, h: HashFn)
    requires DiskInv(d, h) && p in d.files && 0 <= off <= |d.files[p]|
    ensures |Contents(d)[p]| == BASE * |d.files[p]|
    ensures Contents(d)[p][..BASE * off] == FileBytes(d.store.blocks, d.files[p][..off])
    ensures Contents(d)[p][BASE * off..] == FileBytes(d.store.blocks, d.files[p][off..])
  {
    var ids, blocks := d.files[p], d.store.blocks;
    RefsOfFile(d.files, p);
    assert ids == ids[..off] + ids[off..];
    FileBytesConcat(blocks, ids[..off], ids[off..]);
    FileLength(d.store, ids, Refs(d.files), h);
    FileLength(d.store, ids[..off], Refs(d.files), h);
  }

  /** The references a write does not overwrite stay. */
  lemma PiecesStay(ids: seq<int>, off: int, n: int, refs: multiset<int>)
    requires 0 <= off <= |ids| && n >= 0 && multiset(ids) <= refs
    ensures multiset(ids[..off]) <= refs - multiset(Overwritten(ids, off, n))
    ensures multiset(ids[Min(off + n, |ids|)..]) <= refs - multiset(Overwritten(ids, off, n))
  {
    var end := Min(off + n, |ids|);
    assert ids == ids[..off] + ids[off..end] + ids[end..];
  }

  lemma PatchedIs<T>(xs: seq<T>, off: int, ys: seq<T>)
    requires 0 <= off <= |xs|
    ensures 0 <= Min(off + |ys|, |xs|) <= |xs|
    ensures Patched(xs, off, ys) == xs[..off] + ys + xs[Min(off + |ys|, |xs|)..]
  {
  }

  lemma PatchedBytes(s: Store, s': Store, ids: seq<int>, off: int, news: seq<int>, refs: multiset<int>)
    requires 0 <= off <= |ids| && multiset(ids) <= refs
    requires Kept(s, s', refs - multiset(Overwritten(ids, off, |news|)))
    ensures FileBytes(s'.blocks, Patched(ids, off, news))
            == FileBytes(s.blocks, ids[..off]) + FileBytes(s'.blocks, news)
               + FileBytes(s.blocks, ids[Min(off + |news|, |ids|)..])
  {
    hide Kept, FileBytes, Patched, Overwritten, Min;
    var end := Min(off + |news|, |ids|);
    PiecesStay(ids, off, |news|, refs);
    PatchedIs(ids, off, news);
    var rest := refs - multiset(Overwritten(ids, off, |news|));
    var head, tail := ids[..off], ids[end..];
    FileBytesKept(s, s', head, rest);
    FileBytesKept(s, s', tail, rest);
    FileBytesConcat(s'.blocks, head, news);
    FileBytesConcat(s'.blocks, head + news, tail);
  }

  /** The written file has the new bytes in their place and the old ones elsewhere. */
  lemma WriteSelf(d: Disk, p: string, off: int, bs: seq<string>, h: HashFn)
    requires DiskInv(d, h) && HashOk(h) && WriteWanted(d, p, off, bs) && WriteSafe(d, p, off, bs, h)
    ensures BASE * off <= |Contents(d)[p]|
    ensures Contents(Write(d, p, off, bs, h))[p] == Patched(Contents(d)[p], BASE * off, Concat(bs))
  {
    hide StoreInv, Kept, DiskInv, FileBytes, Concat, Write, Writable, PushesSafe, Refs, IsBlock, Overwritten;
    var news := WriteStore(d, p, off, bs, h);
    RefsOfFile(d.files, p);
    PatchedBytes(d.store, Write(d, p, off, bs, h).store, d.files[p], off, news, Refs(d.files));
    var end := Min(off + |bs|, |d.files[p]|);
    CutBytes(d, p, off, h);
    CutBytes(d, p, end, h);
    ConcatLength(bs);
  }

  lemma {:induction false} ConcatLength(bs: seq<string>)
    requires forall k :: 0 <= k < |bs| ==> IsBlock(bs[k])
    ensures |Concat(bs)| == BASE * |bs|
  {
    if bs != [] { ConcatLength(bs[1..]); }
  }

  /** bb_write refines an ordinary write into a map from path to bytes. */
  lemma WriteRefines(d: Disk, p: string, off: int, bs: seq<string>, h: HashFn)
    requires DiskInv(d, h) && HashOk(h) && WriteWanted(d, p, off, bs) && WriteSafe(d, p, off, bs, h)
    ensures DiskInv(Write(d, p, off, bs, h), h)
    ensures BASE * off <= |Contents(d)[p]|
    ensures Contents(Write(d, p, off, bs, h)) == Contents(d)[p := Patched(Contents(d)[p], BASE * off, Concat(bs))]
  {
    hide StoreInv, DiskInv, IsBlock, Writable, PushesSafe, Write, FileBytes;
    var news := WriteStore(d, p, off, bs, h);
    WriteSelf(d, p, off, bs, h);
    var d' := Write(d, p, off, bs, h);
    forall q | q in d.files && q != p ensures Contents(d')[q] == Contents(d)[q] {
      WriteOthers(d, p, off, bs, h, q);
    }
  }

  lemma ReadyToWrite(d: Disk, p: string, off: int, n: int, h: HashFn)
    requires DiskInv(d, h) && p in d.files && 0 <= off <= |d.files[p]| && n >= 0
    ensures Writable(d, p, off, n)
    ensures var olds := Overwritten(d.files[p], off, n);
            StoreInv(RemoveAll(d.store, olds), Refs(d.files) - multiset(olds), h)
  {
    hide StoreInv, RemoveAll, Overwritten, Refs;
    var olds := Overwritten(d.files[p], off, n);
    RefsOfFile(d.files, p);
    PatchedOlds(d.files[p], off, n);
    RemoveAllCounts(d.store, olds, Refs(d.files), h);
    StoreInvParts(RemoveAll(d.store, olds), Refs(d.files) - multiset(olds), h);
    SentinelFound(RemoveAll(d.store, olds).recs);
  }

  /** A write is safe as long as, once the overwritten references are gone, no block gets more than nine
      references, no hashes collide and the ledger stays below a thousand lines. */
  lemma WriteSafeWhenModest(d: Disk, p: string, off: int, bs: seq<string>, h: HashFn)
    requires DiskInv(d, h) && HashOk(h) && WriteWanted(d, p, off, bs)
    requires var olds := Overwritten(d.files[p], off, |bs|);
             ValidIds(d.store, olds) ==>
               var s1 := RemoveAll(d.store, olds);
               AtMostNine(s1, bs, h) && NoCollision(s1, bs, h) && |s1.recs| + |bs| < 1000
    ensures WriteSafe(d, p, off, bs, h)
  {
    hide StoreInv, AtMostNine, NoCollision, RemoveAll, Refs, Overwritten, PushesSafe, PushesNamed;
    ReadyToWrite(d, p, off, |bs|, h);
    var s1 := RemoveAll(d.store, Overwritten(d.files[p], off, |bs|));
    FewNames(s1.recs, bs, h);
    WriteSafeWhenNamed(d, p, off, bs, h, NamesOf(s1.recs) + HashSet(bs, h));
  }

  /** The same with room for the names in play instead. */
  lemma WriteSafeWhenNamed(d: Disk, p: string, off: int, bs: seq<string>, h: HashFn, names: set<string>)
    requires DiskInv(d, h) && HashOk(h) && WriteWanted(d, p, off, bs)
    requires var olds := Overwritten(d.files[p], off, |bs|);
             ValidIds(d.store, olds) ==>
               var s1 := RemoveAll(d.store, olds);
               AtMostNine(s1, bs, h) && NoCollision(s1, bs, h) && PushesNamed(s1.recs, bs, h, names)
    ensures WriteSafe(d, p, off, bs, h)
  {
    hide StoreInv, AtMostNine, NoCollision, PushesSafe, RemoveAll, Overwritten, Refs, PushesNamed;
    ReadyToWrite(d, p, off, |bs|, h);
    var olds := Overwritten(d.files[p], off, |bs|);
    ModestPushesSafe(RemoveAll(d.store, olds), bs, Refs(d.files) - multiset(olds), h, names);
  }

  // ---------- bb_unlink, bb_mknod, bb_getattr ----------

  function Unlink(d: Disk, p: string): Disk
    requires p in d.files && ValidIds(d.store, d.files[p])
  {
    Disk(RemoveAll(d.store, d.files[p]), d.files - {p})
  }

  /** bb_unlink removes one entry from the map and changes no other. */
  lemma UnlinkRefines(d: Disk, p: string, h: HashFn)
    requires DiskInv(d, h) && p in d.files
    ensures ValidIds(d.store, d.files[p])
    ensures DiskInv(Unlink(d, p), h) && Contents(Unlink(d, p)) == Contents(d) - {p}
  {
    hide StoreInv, Kept, FileBytes, RemoveAll;
    var ids, refs := d.files[p], Refs(d.files);
    RefsOfFile(d.files, p);
    RemoveAllCounts(d.store, ids, refs, h);
    RefsSplit(d.files, p);
    assert refs - multiset(ids) == Refs(d.files - {p});
    var d' := Unlink(d, p);
    forall q | q in d'.files ensures Contents(d')[q] == Contents(d)[q] {
      RefsOfOther(d.files, p, q);
      FileBytesKept(d.store, d'.store, d.files[q], refs - multiset(ids));
    }
    assert (Contents(d) - {p}).Keys == d'.files.Keys;
  }

  /** A new file is empty. */
  function Create(d: Disk, p: string): Disk
    requires p !in d.files
  {
    d.(files := d.files[p := []])
  }

  lemma CreateRefines(d: Disk, p: string, h: HashFn)
    requires DiskInv(d, h) && p !in d.files
    ensures DiskInv(Create(d, p), h) && Contents(Create(d, p)) == Contents(d)[p := ""]
  {
    RefsUpdated(d.files, p, []);
    assert d.files - {p} == d.files;
    assert multiset([]) + Refs(d.files) == Refs(d.files);
  }

  /** findRealSize adds up the block lengths. */
  function SumSizes(blocks: map<int, string>, ids: seq<int>): int
  {
    if ids == [] then 0 else (if ids[0] in blocks then |blocks[ids[0]]| else 0) + SumSizes(blocks, ids[1..])
  }

  /** The size bb_getattr reports is the file's length. */
  lemma {:induction false} SizeIsLength(blocks: map<int, string>, ids: seq<int>)
    ensures SumSizes(blocks, ids) == |FileBytes(blocks, ids)|
  {
    if ids != [] { SizeIsLength(blocks, ids[1..]); }
  }

  // ---------- bb_read ----------

  /** The id the `i`-th turn of readFile's loop works with: past the end of the id list fread leaves the
      buffer alone and the last id is used again. */
  function IdRead(ids: seq<int>, i: int): int
    requires ids != [] && i >= 0
  {
    if i < |ids| then ids[i] else ids[|ids| - 1]
  }

  /** What readFile returns: as many blocks as the whole file has, starting at block `start`. */
  function ReadIds(ids: seq<int>, start: int, n: int): (r: seq<int>)
    requires ids != [] && start >= 0 && n >= 0
    ensures |r| == n && forall i :: 0 <= i < n ==> r[i] == IdRead(ids, start + i)
  {
    seq(n, i requires 0 <= i => IdRead(ids, start + i))
  }

  /** What bb_read returns: the first `size` bytes of that. */
  function Read(d: Disk, p: string, offset: int, size: int): string
    requires p in d.files && d.files[p] != [] && offset >= 0 && size >= 0
  {
    var data := FileBytes(d.store.blocks, ReadIds(d.files[p], offset / BASE, |d.files[p]|));
    data[..Min(size, |data|)]
  }

  /** What a read is for: the bytes from `offset` on, as far as the file goes. */
  function PlainRead(bytes: string, offset: int, size: int): string
    requires 0 <= offset <= |bytes| && size >= 0
  {
    bytes[offset..Min(offset + size, |bytes|)]
  }

  lemma ReadLength(d: Disk, p: string, offset: int, h: HashFn)
    requires DiskInv(d, h) && p in d.files && d.files[p] != [] && 0 <= offset
    ensures |Contents(d)[p]| == BASE * |d.files[p]|
    ensures |FileBytes(d.store.blocks, ReadIds(d.files[p], offset / BASE, |d.files[p]|))| == BASE * |d.files[p]|
  {
    var ids := d.files[p];
    RefsOfFile(d.files, p);
    FileLength(d.store, ids, Refs(d.files), h);
    var r := ReadIds(ids, offset / BASE, |ids|);
    forall i | 0 <= i < |r| ensures r[i] in Refs(d.files) { assert r[i] in multiset(ids); }
    BlocksLength(d.store, r, Refs(d.files), h);
  }

  lemma {:induction false} BlocksLength(s: Store, ids: seq<int>, refs: multiset<int>, h: HashFn)
    requires StoreInv(s, refs, h) && forall i :: 0 <= i < |ids| ==> ids[i] in refs
    ensures |FileBytes(s.blocks, ids)| == BASE * |ids|
  {
    hide StoreInv;
    if ids != [] {
      ReferencedBlock(s, refs, h, ids[0]);
      BlocksLength(s, ids[1..], refs, h);
    }
  }

  /** Up to the end of the file the ids read are the file's own. */
  lemma ReadInside(d: Disk, p: string, k: int, h: HashFn)
    requires DiskInv(d, h) && p in d.files && 0 <= k < |d.files[p]|
    ensures |Contents(d)[p]| == BASE * |d.files[p]|
    ensures var data := FileBytes(d.store.blocks, ReadIds(d.files[p], k, |d.files[p]|));
            |data| == BASE * |d.files[p]|
            && data[..BASE * (|d.files[p]| - k)] == Contents(d)[p][BASE * k..]
  {
    var ids, blocks := d.files[p], d.store.blocks;
    assert BASE * k / BASE == k;
    ReadLength(d, p, BASE * k, h);
    CutBytes(d, p, k, h);
    var r, m := ReadIds(ids, k, |ids|), |ids| - k;
    assert r[..m] == ids[k..];
    assert r == r[..m] + r[m..];
    FileBytesConcat(blocks, r[..m], r[m..]);
  }

  /** bb_read at a block boundary inside the file is an ordinary read exactly when the range does not run
      past the end of the file, unless it starts at its beginning. */
  lemma ReadIff(d: Disk, p: string, offset: int, size: int, h: HashFn)
    requires DiskInv(d, h) && p in d.files && size >= 0
    requires 0 <= offset < |Contents(d)[p]| && offset % BASE == 0
    ensures d.files[p] != []
    ensures Read(d, p, offset, size) == PlainRead(Contents(d)[p], offset, size)
            <==> offset == 0 || offset + size <= |Contents(d)[p]|
  {
    hide StoreInv, DiskInv, FileBytes;
    CutBytes(d, p, 0, h);
    var k := offset / BASE;
    ReadInside(d, p, k, h);
    var bytes := Contents(d)[p];
    var data := FileBytes(d.store.blocks, ReadIds(d.files[p], k, |d.files[p]|));
    var tail := bytes[offset..];
    assert offset == BASE * k && |tail| == |bytes| - offset && data[..|tail|] == tail;
    if offset + size <= |bytes| {
      assert data[..size] == tail[..size] == bytes[offset..offset + size];
    } else if offset == 0 {
      assert data == tail == bytes;
    } else {
      assert |Read(d, p, offset, size)| > |PlainRead(bytes, offset, size)|;
    }
  }

  function Copies<T>(x: T, n: nat): (xs: seq<T>)
    ensures |xs| == n && forall k :: 0 <= k < n ==> xs[k] == x
  {
    seq(n, _ => x)
  }

  lemma CopiesTail<T>(x: T, n: nat)
    requires n > 0
    ensures Copies(x, n)[1..] == Copies(x, n - 1) && Copies(x, n) == [x] + Copies(x, n - 1)
  {
  }

  /** What such a read returns, wherever it ends: the rest of the file, and then the last block again, once
      for every block in front of the range. */
  lemma ReadIs(d: Disk, p: string, k: int, size: int, h: HashFn)
    requires DiskInv(d, h) && p in d.files && 0 <= k < |d.files[p]| && size >= 0
    ensures var bytes := Contents(d)[p];
            && |bytes| == BASE * |d.files[p]|
            && var data := bytes[BASE * k..] + Concat(Copies(bytes[|bytes| - BASE..], k));
            |data| == |bytes| && Read(d, p, BASE * k, size) == data[..Min(size, |bytes|)]
  {
    hide DiskInv, StoreInv, FileBytes, Concat;
    var ids, blocks, bytes := d.files[p], d.store.blocks, Contents(d)[p];
    var r, m := ReadIds(ids, k, |ids|), |ids| - k;
    assert BASE * k / BASE == k;
    ReadLength(d, p, BASE * k, h);
    CutBytes(d, p, k, h);
    CutBytes(d, p, |ids| - 1, h);
    OneBlockBytes(d, p, h);
    assert ids[|ids| - 1..] == [ids[|ids| - 1]];
    assert r == ids[k..] + Copies(ids[|ids| - 1], k);
    FileBytesConcat(blocks, ids[k..], Copies(ids[|ids| - 1], k));
    FileBytesStored(blocks, Copies(ids[|ids| - 1], k), Copies(blocks[ids[|ids| - 1]], k));
  }

  lemma OneBlockBytes(d: Disk, p: string, h: HashFn)
    requires DiskInv(d, h) && p in d.files && d.files[p] != []
    ensures var id := d.files[p][|d.files[p]| - 1];
            id in d.store.blocks && FileBytes(d.store.blocks, [id]) == d.store.blocks[id]
  {
    var id := d.files[p][|d.files[p]| - 1];
    RefsOfFile(d.files, p);
    assert id in multiset(d.files[p]);
    ReferencedBlock(d.store, Refs(d.files), h, id);
    assert [id][1..] == [];
  }

  // ---------- runs ----------

  datatype Op =
    | CreateOp(p: string)
    | WriteOp(p: string, off: int, bs: seq<string>)
    | UnlinkOp(p: string)
    | ReadOp(p: string, offset: int, size: int)

  /** Preconditions of the operations, each a condition on the disk before the call. */
  ghost predicate Allowed(d: Disk, op: Op, h: HashFn)
  {
    match op
    case CreateOp(p) => p !in d.files
    case WriteOp(p, off, bs) => WriteWanted(d, p, off, bs) && WriteSafe(d, p, off, bs, h)
    case UnlinkOp(p) => p in d.files && ValidIds(d.store, d.files[p])
    case ReadOp(p, offset, size) =>
      && p in d.files && offset >= 0 && size >= 0 && offset % BASE == 0
      && (offset == 0 || (offset < BASE * |d.files[p]| && offset + size <= BASE * |d.files[p]|))
  }

  ghost function Step(d: Disk, op: Op, h: HashFn): Disk
    requires Allowed(d, op, h)
  {
    match op
    case CreateOp(p) => Create(d, p)
    case WriteOp(p, off, bs) => Write(d, p, off, bs, h)
    case UnlinkOp(p) => Unlink(d, p)
    case ReadOp(_, _, _) => d
  }

  /** What the operation returns: a read its bytes, an empty file none. */
  ghost function Output(d: Disk, op: Op, h: HashFn): string
    requires Allowed(d, op, h)
  {
    match op
    case ReadOp(p, offset, size) => if d.files[p] == [] then "" else Read(d, p, offset, size)
    case _ => ""
  }

  /** The same operation on a plain map from path to bytes; `off` counts blocks. */
  function PlainStep(m: map<string, string>, op: Op): map<string, string>
  {
    match op
    case CreateOp(p) => m[p := ""]
    case WriteOp(p, off, bs) =>
      if p in m && 0 <= BASE * off <= |m[p]| then m[p := Patched(m[p], BASE * off, Concat(bs))] else m
    case UnlinkOp(p) => m - {p}
    case ReadOp(_, _, _) => m
  }

  function PlainOutput(m: map<string, string>, op: Op): string
  {
    match op
    case ReadOp(p, offset, size) =>
      if p in m && 0 <= offset <= |m[p]| && size >= 0 then PlainRead(m[p], offset, size) else ""
    case _ => ""
  }

  function PlainRun(m: map<string, string>, ops: seq<Op>): map<string, string>
    decreases |ops|
  {
    if ops == [] then m else PlainRun(PlainStep(m, ops[0]), ops[1..])
  }

  function PlainOutputs(m: map<string, string>, ops: seq<Op>): seq<string>
    decreases |ops|
  {
    if ops == [] then [] else [PlainOutput(m, ops[0])] + PlainOutputs(PlainStep(m, ops[0]), ops[1..])
  }

  ghost predicate AllAllowed(d: Disk, ops: seq<Op>, h: HashFn)
    decreases |ops|
  {
    ops != [] ==> Allowed(d, ops[0], h) && AllAllowed(Step(d, ops[0], h), ops[1..], h)
  }

  ghost function Run(d: Disk, ops: seq<Op>, h: HashFn): Disk
    requires AllAllowed(d, ops, h)
    decreases |ops|
  {
    if ops == [] then d else Run(Step(d, ops[0], h), ops[1..], h)
  }

  ghost function Outputs(d: Disk, ops: seq<Op>, h: HashFn): seq<string>
    requires AllAllowed(d, ops, h)
    decreases |ops|
  {
    if ops == [] then [] else [Output(d, ops[0], h)] + Outputs(Step(d, ops[0], h), ops[1..], h)
  }

  lemma ReadRefines(d: Disk, p: string, offset: int, size: int, h: HashFn)
    requires DiskInv(d, h) && Allowed(d, ReadOp(p, offset, size), h)
    ensures Output(d, ReadOp(p, offset, size), h) == PlainOutput(Contents(d), ReadOp(p, offset, size))
  {
    hide DiskInv, FileBytes, Read;
    CutBytes(d, p, 0, h);
    if d.files[p] != [] { ReadIff(d, p, offset, size, h); }
  }

  lemma StepRefines(d: Disk, op: Op, h: HashFn)
    requires DiskInv(d, h) && HashOk(h) && Allowed(d, op, h)
    ensures DiskInv(Step(d, op, h), h) && Contents(Step(d, op, h)) == PlainStep(Contents(d), op)
    ensures Output(d, op, h) == PlainOutput(Contents(d), op)
  {
    hide DiskInv, WriteSafe, Write, Unlink, Create, IsBlock, FileBytes;
    match op
    case CreateOp(p) => CreateRefines(d, p, h);
    case WriteOp(p, off, bs) => WriteRefines(d, p, off, bs, h);
    case UnlinkOp(p) => UnlinkRefines(d, p, h);
    case ReadOp(p, offset, size) => ReadRefines(d, p, offset, size, h);
  }

  /** Over any run of allowed operations the disk behaves like the plain map, reads return the plain map's
      bytes, and counters, block files and hashes stay exact. */
  lemma {:induction false} RunRefines(d: Disk, ops: seq<Op>, h: HashFn)
    requires DiskInv(d, h) && HashOk(h) && AllAllowed(d, ops, h)
    ensures DiskInv(Run(d, ops, h), h) && Contents(Run(d, ops, h)) == PlainRun(Contents(d), ops)
    ensures Outputs(d, ops, h) == PlainOutputs(Contents(d), ops)
    decreases |ops|
  {
    hide DiskInv, Allowed, Step, PlainStep, Contents, Output, PlainOutput;
    if ops != [] {
      StepRefines(d, ops[0], h);
      RunRefines(Step(d, ops[0], h), ops[1..], h);
    }
  }

  /** The mounted, empty file system. */
  lemma InitialDisk(h: HashFn)
    ensures DiskInv(Disk(INITIAL, map[]), h) && Contents(Disk(INITIAL, map[])) == map[]
  {
    InitialStoreInv(h);
  }
}
