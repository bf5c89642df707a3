/** The file-system operations, on the ledger's bytes, the block files and the id files. */
module DedupFs {
  import opened DedupText
  import opened DedupLedger
  import opened DedupStore
  import opened DedupDisk
  import opened DedupExact

  // ---------- buffers ----------

  predicate NulFree(buf: string)
  {
    '\0' !in buf
  }

  lemma {:induction false} BlocksConcat(buf: string)
    requires |buf| % BASE == 0
    ensures Concat(Blocks(buf)) == buf
    decreases |buf|
  {
    if buf != "" {
      var rest := buf[BASE..];
      BlocksConcat(rest);
      assert Blocks(buf)[0] == buf[..BASE];
      assert Blocks(buf)[1..] == Blocks(rest) by {
        forall k | 0 <= k < |Blocks(rest)| ensures Blocks(buf)[1..][k] == Blocks(rest)[k] {
          var at := BASE * k;
          assert Blocks(buf)[k + 1] == buf[at + BASE..at + BASE + BASE];
          assert rest[at..at + BASE] == buf[at + BASE..at + BASE + BASE];
        }
      }
      assert buf == buf[..BASE] + rest;
    }
  }

  lemma BlocksAreBlocks(buf: string)
    requires |buf| % BASE == 0 && NulFree(buf)
    ensures forall k :: 0 <= k < |Blocks(buf)| ==> IsBlock(Blocks(buf)[k])
  {
  }

  function Pread(data: string, size: int, offset: int): string
    requires size >= 0 && offset >= 0
  {
    if offset >= |data| then "" else data[offset..Min(offset + size, |data|)]
  }

  lemma SentinelText()
    ensures Record(1, NO_HASH, 0).Text() == "001, 00000000000000000000, 00\n"
  {
    assert Pad3(1) == "001" && Pad2(0) == "00";
    assert "001" + ", " == "001, ";
    assert "001, " + NO_HASH == "001, 00000000000000000000";
    assert "001, 00000000000000000000" + ", " == "001, 00000000000000000000, ";
    assert "001, 00000000000000000000, " + "00" == "001, 00000000000000000000, 00";
  }

  /** The ledger of a new file system holds the sentinel alone. */
  lemma InitialLedger()
    ensures Encodes("001, 00000000000000000000, 00\n", INITIAL.recs)
  {
    hide Record.Text;
    SentinelText();
    var text := Record(1, NO_HASH, 0).Text();
    assert text[0..LINE] == text;
    assert LineAt(text, INITIAL.recs, 0);
  }

  class FileSystem {
    const hash: HashFn
    const ledger: File
    /** The files BL001, BL002, ... of the hidden directory. */
    var blocks: map<int, string>
    /** The id files. */
    var files: map<string, string>
    /** The records and id lists the texts encode. */
    ghost var disk: Disk

    /** The texts encode the ghost disk. */
    ghost predicate Encoded()
      reads this, ledger
    {
      && ledger.Valid() && HashOk(hash)
      && disk.store.blocks == blocks && Encodes(ledger.data, disk.store.recs)
      && files.Keys == disk.files.Keys
      && forall p :: p in files ==> IdsPrintable(disk.files[p]) && files[p] == IdText(disk.files[p])
    }

    ghost predicate Valid()
      reads this, ledger
    {
      Encoded() && DiskInv(disk, hash)
    }

    /** bb_init:588-590. */
    constructor (hash: HashFn)
      requires HashOk(hash)
      ensures Valid() && this.hash == hash && fresh(ledger) && Contents(disk) == map[]
    {
      hide Encodes, DiskInv;
      this.hash := hash;
      ledger := new File("001, 00000000000000000000, 00\n");
      blocks, files := map[], map[];
      disk := Disk(INITIAL, map[]);
      new;
      InitialDisk(hash);
      InitialLedger();
    }

    // ---------- compressBuffer and below ----------

    /** our_lib.c:191-217 and createBlock.  Also when the push is not safe: the ledger's bytes and the block
        files follow the store, whatever becomes of its references. */
    method PushBlock(block: string) returns (id: int)
      requires Encoded() && FirstTens(disk.store.recs, 0) < |disk.store.recs| && PushRuns(disk.store, block, hash)
      modifies this`blocks, this`disk, ledger
      ensures Encoded() && disk == old(disk).(store := Push(old(disk).store, block, hash).0)
      ensures id == Push(old(disk).store, block, hash).1 && 0 <= id < 1000
    {
      PrintableIds(ledger.data, disk.store.recs);
      hide Encodes;
      var isNew;
      id, isNew := CompareHash(ledger, hash(block), disk.store.recs);
      if isNew {
        blocks := blocks[id := block];
      }
      disk := disk.(store := Push(disk.store, block, hash).0);
    }

    /** our_lib.c:244-248: copy one block out of the buffer. */
    method CutBlock(buf: string, i: int) returns (block: string)
      requires 0 <= i && BASE * i + BASE <= |buf|
      ensures block == buf[BASE * i..BASE * i + BASE]
    {
      block := "";
      var j := 0;
      while j < BASE
        invariant 0 <= j <= BASE && block == buf[BASE * i..BASE * i + j]
      {
        block := block + [buf[BASE * i + j]];
        j := j + 1;
      }
    }

    /** our_lib.c:219-272.  Like PushBlock, whether the pushes are safe or not. */
    method CompressBuffer(buf: string) returns (output: string)
      requires Encoded() && |buf| % BASE == 0 && NulFree(buf)
      requires FirstTens(disk.store.recs, 0) < |disk.store.recs| && PushesRun(disk.store, Blocks(buf), hash)
      modifies this`blocks, this`disk, ledger
      ensures Encoded() && disk == old(disk).(store := PushAll(old(disk).store, Blocks(buf), hash).0)
      ensures var news := PushAll(old(disk).store, Blocks(buf), hash).1;
              IdsPrintable(news) && output == IdText(news)
    {
      hide Encodes, PushRuns, Push, PushAll, PushesRun, IdText, Encoded, HashOk, Blocks, Remaining;
      var count := |buf| / BASE;
      output := "";
      ghost var bs := Blocks(buf);
      ghost var sofar: seq<int> := [];
      ghost var goal := PushAll(disk.store, bs, hash);
      var i := 0;
      assert bs[0..] == bs;
      EmptyIdText();
      AllRemains(disk.store, bs, hash);
      while i < count
        invariant 0 <= i <= count == |bs|
        invariant Encoded() && disk == old(disk).(store := disk.store)
        invariant Remaining(goal, disk.store, sofar, bs[i..], hash)
        invariant IdsPrintable(sofar) && output == IdText(sofar)
      {
        var block := CutBlock(buf, i);
        assert bs[i..][0] == block && bs[i..][1..] == bs[i + 1..];
        OneLess(goal, disk.store, sofar, bs[i..], hash);
        var id := PushBlock(block);
        IdTextConcat(sofar, [id]);
        OneId(id);
        sofar := sofar + [id];
        output := output + Pad3(id) + "\n";
        i := i + 1;
      }
      assert bs[i..] == [];
      NothingRemains(goal, disk.store, sofar, hash);
    }

    // ---------- removeBlocks ----------

    /** our_lib.c:377-391. */
    method GetOverwrittenBlocks(path: string, size: int, offset: int) returns (str: string)
      requires Encoded() && path in files && size >= 0 && size % BASE == 0 && offset >= 0 && offset % BASE == 0
      requires offset / BASE <= |disk.files[path]|
      ensures var olds := Overwritten(disk.files[path], offset / BASE, size / BASE);
              IdsPrintable(olds) && str == IdText(olds)
    {
      hide Encodes, IdText, HashOk;
      ghost var ids, off, end := disk.files[path], offset / BASE, Min(offset / BASE + size / BASE, |disk.files[path]|);
      IdTextSlice(ids, off, end);
      var fd := new File(files[path]);
      fd.Seek(offset / BASE * 4);
      str := fd.Read(size / BASE * 4);
      assert fd.pos == ID_LEN * end;
    }

    /** our_lib.c:408-440: drop one reference; false when the block file that should go is missing. */
    method RemoveOne(id: int) returns (ok: bool)
      requires Encoded() && 1 <= id <= |disk.store.recs| && disk.store.recs[id - 1].count > 0
      modifies this`blocks, this`disk, ledger
      ensures ok <==> (old(disk).store.recs[id - 1].count == 1 ==> id in old(blocks))
      ensures ok ==> Encoded() && disk == old(disk).(store := Remove(old(disk).store, id))
    {
      RemovedParts(disk.store, id);
      hide Encodes, Remove;
      ghost var s0 := disk.store;
      var counter := DecreaseCounter(ledger, id, s0.recs);
      if counter == 0 {
        if id !in blocks {
          return false;
        }
        blocks := blocks - {id};
      }
      disk := disk.(store := Remove(s0, id));
      ok := true;
    }

    /** our_lib.c:393-444: 1 when a block file that should go is missing, which never happens. */
    method RemoveBlocks(input: string, ghost ids: seq<int>, ghost refs: multiset<int>) returns (res: int)
      requires Encoded() && IdsPrintable(ids) && input == IdText(ids)
      requires StoreInv(disk.store, refs, hash) && multiset(ids) <= refs
      modifies this`blocks, this`disk, ledger
      ensures res == 0 && ValidIds(old(disk).store, ids)
      ensures Encoded() && disk == old(disk).(store := RemoveAll(old(disk).store, ids))
    {
      hide Encoded, StoreInv, Remove, Kept, RemoveAll, IdText, IsBlock;
      RemoveAllCounts(disk.store, ids, refs, hash);
      ghost var goal := RemoveAll(disk.store, ids);
      ghost var refs' := refs;
      var count := |input| / 4;
      var j := 0;
      assert ids[0..] == ids;
      while j < count
        invariant 0 <= j <= count == |ids|
        invariant Encoded() && disk == old(disk).(store := disk.store)
        invariant StoreInv(disk.store, refs', hash) && multiset(ids[j..]) <= refs'
        invariant ValidIds(disk.store, ids[j..]) && RemoveAll(disk.store, ids[j..]) == goal
      {
        IdAt(ids, j);
        var id := Atoi(input[4 * j..4 * j + 3]);
        assert ids[j..] == [id] + ids[j + 1..] && ids[j..][1..] == ids[j + 1..];
        assert id in multiset(ids[j..]);
        ReferencedBlock(disk.store, refs', hash, id);
        RemoveCounts(disk.store, id, refs', hash);
        RemoveAllStep(disk.store, ids[j..]);
        BlocksOfDisk();
        var ok := RemoveOne(id);
        if !ok {
          return 1;
        }
        refs' := refs' - multiset{id};
        j := j + 1;
      }
      assert ids[j..] == [];
      RemoveAllNone(disk.store);
      res := 0;
    }

    lemma FileText(path: string)
      requires Encoded() && path in files
      ensures path in disk.files && IdsPrintable(disk.files[path]) && files[path] == IdText(disk.files[path])
    {
    }

    lemma BlocksOfDisk()
      requires Encoded()
      ensures disk.store.blocks == blocks
    {
    }

    // ---------- the operations ----------

    /** A new, empty file. */
    method BbMknod(path: string)
      requires Valid() && path !in files
      modifies this`files, this`disk
      ensures Valid() && disk == Create(old(disk), path)
      ensures Contents(disk) == Contents(old(disk))[path := ""]
    {
      hide DiskInv, Contents, Encodes;
      CreateRefines(disk, path, hash);
      EmptyIdText();
      files := files[path := ""];
      disk := Create(disk, path);
    }

    /** pwrite on the id file. */
    method PwriteIds(path: string, text: string, at: int, ghost off: int, ghost news: seq<int>)
      requires Encoded() && path in files && IdsPrintable(news) && text == IdText(news)
      requires 0 <= off <= |disk.files[path]| && at == ID_LEN * off
      modifies this`files, this`disk
      ensures Encoded()
      ensures disk == old(disk).(files := old(disk).files[path := Patched(old(disk).files[path], off, news)])
    {
      hide Encodes, IdText, Patched;
      OverwriteIds(disk.files[path], off, news);
      files := files[path := Overwrite(files[path], at, text)];
      disk := disk.(files := disk.files[path := Patched(disk.files[path], off, news)]);
    }

    /** bb_write's three steps (bbfs.c:353-362): drop the references under the range, store the new blocks,
        write their ids. */
    method Rewrite(path: string, buf: string, offset: int)
      requires Valid() && path in files && |buf| % BASE == 0 && NulFree(buf)
      requires offset % BASE == 0 && 0 <= offset <= BASE * |disk.files[path]|
      requires WriteRuns(disk, path, offset / BASE, Blocks(buf), hash)
      modifies this`blocks, this`files, this`disk, ledger
      ensures Encoded() && disk == Write(old(disk), path, offset / BASE, Blocks(buf), hash)
    {
      hide DiskInv, Encodes, StoreInv, IdText, Patched, Blocks, PushesRun, PushAll, RemoveAll, Overwritten;
      ghost var d, ids, off := disk, disk.files[path], offset / BASE;
      ghost var olds := Overwritten(ids, off, |buf| / BASE);
      DiskParts(d, hash);
      RefsOfFile(d.files, path);
      PatchedOlds(ids, off, |buf| / BASE);

      var toRemove := GetOverwrittenBlocks(path, |buf|, offset);
      var res := RemoveBlocks(toRemove, olds, Refs(d.files));
      var compressed := CompressBuffer(buf);
      PwriteIds(path, compressed, offset / BASE * 4, off, PushAll(RemoveAll(d.store, olds), Blocks(buf), hash).1);
    }

    /** bb_write.  The write does what it is for exactly when every push is safe. */
    method BbWrite(path: string, buf: string, offset: int) returns (written: int)
      requires Valid() && path in files && |buf| % BASE == 0 && NulFree(buf)
      requires offset % BASE == 0 && 0 <= offset <= BASE * |disk.files[path]|
      requires WriteRuns(disk, path, offset / BASE, Blocks(buf), hash)
      modifies this`blocks, this`files, this`disk, ledger
      ensures written == |buf| && Encoded()
      ensures disk == Write(old(disk), path, offset / BASE, Blocks(buf), hash)
      ensures 0 <= offset <= |Contents(old(disk))[path]|
      ensures old(WriteSafe(disk, path, offset / BASE, Blocks(buf), hash)) <==>
        && Valid()
        && Contents(disk) == Contents(old(disk))[path := Patched(Contents(old(disk))[path], offset, buf)]
    {
      hide DiskInv, Contents, Encodes, IsBlock, IdText, Patched, Blocks, Write, WriteSafe, Concat, WriteRuns;
      BlocksAreBlocks(buf);
      BlocksConcat(buf);
      CutBytes(disk, path, offset / BASE, hash);
      WriteIff(disk, path, offset / BASE, Blocks(buf), hash);
      WrittenIs(disk, path, offset / BASE, Blocks(buf), hash);
      Rewrite(path, buf, offset);
      written := |buf|;
    }

    /** unlink on the id file. */
    method DropFile(path: string)
      requires Encoded()
      modifies this`files, this`disk
      ensures Encoded() && disk == old(disk).(files := old(disk).files - {path})
    {
      hide Encodes, IdText;
      files := files - {path};
      disk := disk.(files := disk.files - {path});
    }

    /** bb_unlink. */
    method BbUnlink(path: string)
      requires Valid() && path in files
      modifies this`blocks, this`files, this`disk, ledger
      ensures Valid() && Contents(disk) == Contents(old(disk)) - {path}
      ensures path in old(disk).files && ValidIds(old(disk).store, old(disk).files[path])
      ensures disk == Unlink(old(disk), path)
    {
      hide DiskInv, Contents, Encodes, StoreInv, IdText, RemoveAll, ValidIds;
      ghost var d, ids := disk, disk.files[path];
      UnlinkRefines(d, path, hash);
      DiskParts(d, hash);
      RefsOfFile(d.files, path);
      var fileSize := |files[path]|;
      var toRemove := GetOverwrittenBlocks(path, fileSize / 4 * BASE, 0);
      assert Overwritten(ids, 0, |ids|) == ids;
      var res := RemoveBlocks(toRemove, ids, Refs(d.files));
      DropFile(path);
    }

    /** our_lib.c:274-314. */
    method ReadBlock(id: int) returns (found: bool, block: string)
      ensures found == (id in blocks) && (found ==> block == blocks[id])
    {
      found, block := false, "";
      if id in blocks {
        found, block := true, blocks[id];
      }
    }

    /** our_lib.c:446-491: the size bb_getattr reports. */
    method BbGetattr(path: string) returns (size: int)
      requires Valid() && path in files
      ensures size == |Contents(disk)[path]|
    {
      hide DiskInv, Encodes, StoreInv, IdText, IsBlock;
      ghost var ids := disk.files[path];
      DiskParts(disk, hash);
      RefsOfFile(disk.files, path);
      SizeIsLength(blocks, ids);
      var fileIds := new File(files[path]);
      var count := |files[path]| / 4;
      size := 0;
      var i := 0;
      assert ids[0..] == ids;
      while i < count
        invariant 0 <= i <= count == |ids|
        invariant fileIds.Valid() && fileIds.pos == 4 * i && fileIds.data == files[path]
        invariant size + SumSizes(blocks, ids[i..]) == SumSizes(blocks, ids)
      {
        IdAt(ids, i);
        var idChars := fileIds.Read(4);
        var id := Atoi(idChars);
        assert id in multiset(ids);
        ReferencedBlock(disk.store, Refs(disk.files), hash, id);
        var found, block := ReadBlock(id);
        assert ids[i..][0] == id && ids[i..][1..] == ids[i + 1..];
        size := size + |block|;
        i := i + 1;
      }
      assert ids[i..] == [];
    }

    /** our_lib.c:360-362: read the `at`-th id; fread leaves the buffer alone at the end of the file. */
    method NextId(file: File, idChars: string, ghost ids: seq<int>, ghost at: int) returns (chars: string)
      requires IdsPrintable(ids) && ids != [] && at >= 0
      requires file.Valid() && file.data == IdText(ids) && file.pos == 4 * Min(at, |ids|)
      requires |idChars| <= 4 && (at >= |ids| ==> |idChars| == 4 && Atoi(idChars) == ids[|ids| - 1])
      modifies file`pos
      ensures file.Valid() && file.pos == 4 * Min(at + 1, |ids|)
      ensures Atoi(chars) == IdRead(ids, at) && |chars| == 4
      ensures at + 1 >= |ids| ==> Atoi(chars) == ids[|ids| - 1]
    {
      hide IdText, Atoi;
      if at < |ids| { IdAt(ids, at); }
      var got := file.Read(4);
      var keep := if |got| < |idChars| then idChars[|got|..] else "";
      assert at < |ids| ==> |got| == 4 && got == IdText(ids)[4 * at..4 * at + 4];
      chars := got + keep;
      assert chars == if at < |ids| then got else idChars;
    }

    /** our_lib.c:316-375; not found stands for NULL. */
    method ReadFile(path: string, offset: int) returns (found: bool, data: string)
      requires Valid() && path in files && offset >= 0 && offset % BASE == 0
      requires disk.files[path] != [] ==> offset / BASE < |disk.files[path]|
      ensures found <==> disk.files[path] != []
      ensures found ==> data == FileBytes(blocks, ReadIds(disk.files[path], offset / BASE, |disk.files[path]|))
    {
      hide DiskInv, Encodes, StoreInv, IdText, IsBlock, FileBytes, Encoded, ReadIds;
      FileText(path);
      ghost var ids, start := disk.files[path], offset / BASE;
      DiskParts(disk, hash);
      RefsOfFile(disk.files, path);
      BlocksOfDisk();
      found, data := false, "";
      var file := new File(files[path]);
      var count := |files[path]| / 4;
      if count == 0 {
        return;
      }
      file.Seek(0);
      file.Skip(offset / BASE * 4);
      forall i | 0 <= i < |ids| ensures ids[i] in blocks {
        assert ids[i] in multiset(ids);
        ReferencedBlock(disk.store, Refs(disk.files), hash, ids[i]);
      }
      found, data := ReadBlocks(file, ids, start, count);
    }

    /** our_lib.c:357-370: as many blocks as the file has, from the cursor on. */
    method ReadBlocks(file: File, ghost ids: seq<int>, ghost start: int, count: int) returns (found: bool, data: string)
      requires IdsPrintable(ids) && count == |ids| > 0 && 0 <= start < |ids|
      requires file.Valid() && file.data == IdText(ids) && file.pos == 4 * start
      requires forall i :: 0 <= i < |ids| ==> ids[i] in blocks
      modifies file`pos
      ensures found && data == FileBytes(blocks, ReadIds(ids, start, |ids|))
    {
      hide IdText, FileBytes, Atoi, ReadIds;
      var idChars := "";
      found, data := false, "";
      EmptyFileBytes(blocks, ids, start);
      var i := 0;
      while i < count
        invariant 0 <= i <= count && file.Valid() && file.pos == 4 * Min(start + i, |ids|)
        invariant |idChars| <= 4 && (start + i >= |ids| ==> |idChars| == 4 && Atoi(idChars) == ids[|ids| - 1])
        invariant data == FileBytes(blocks, ReadIds(ids, start, i))
      {
        idChars := NextId(file, idChars, ids, start + i);
        var id := Atoi(idChars);
        var ok, block := ReadBlock(id);
        if !ok {
          return;
        }
        ReadIdsStep(blocks, ids, start, i);
        data := data + block;
        i := i + 1;
      }
      found := true;
    }

    /** bb_read. */
    method BbRead(path: string, size: int, offset: int) returns (buf: string)
      requires Valid() && path in files && size >= 0 && offset >= 0 && offset % BASE == 0
      requires disk.files[path] != [] ==> offset < |Contents(disk)[path]|
      ensures disk.files[path] == [] ==> buf == ""
      ensures disk.files[path] != [] ==> buf == Read(disk, path, offset, size)
      ensures offset == 0 || offset + size <= |Contents(disk)[path]| ==>
        buf == PlainRead(Contents(disk)[path], offset, size)
    {
      hide DiskInv, Encodes, StoreInv, IdText, IsBlock;
      CutBytes(disk, path, 0, hash);
      BlocksOfDisk();
      if disk.files[path] != [] { ReadIff(disk, path, offset, size, hash); }
      var found, data := ReadFile(path, offset);
      if !found {
        buf := Pread(files[path], size, offset);  // the id file itself, which is empty
      } else {
        buf := Pread(data, size, 0);
      }
    }
  }

  lemma EmptyFileBytes(blocks: map<int, string>, ids: seq<int>, start: int)
    requires ids != [] && start >= 0
    ensures FileBytes(blocks, ReadIds(ids, start, 0)) == ""
  {
  }

  lemma ReadIdsStep(blocks: map<int, string>, ids: seq<int>, start: int, i: int)
    requires ids != [] && start >= 0 && i >= 0 && IdRead(ids, start + i) in blocks
    ensures FileBytes(blocks, ReadIds(ids, start, i + 1))
            == FileBytes(blocks, ReadIds(ids, start, i)) + blocks[IdRead(ids, start + i)]
  {
    var id := IdRead(ids, start + i);
    assert ReadIds(ids, start, i + 1) == ReadIds(ids, start, i) + [id];
    FileBytesConcat(blocks, ReadIds(ids, start, i), [id]);
    assert [id][1..] == [];
  }

  lemma DiskParts(d: Disk, h: HashFn)
    requires DiskInv(d, h)
    ensures StoreInv(d.store, Refs(d.files), h)
  {
  }

  lemma RemovedParts(s: Store, id: int)
    requires 1 <= id <= |s.recs| && s.recs[id - 1].count > 0
    ensures Remove(s, id).recs == s.recs[id - 1 := s.recs[id - 1].(count := s.recs[id - 1].count - 1)]
    ensures Remove(s, id).blocks == if s.recs[id - 1].count == 1 then s.blocks - {id} else s.blocks
  {
  }

  lemma EmptyIdText()
    ensures IdText([]) == ""
  {
  }

  lemma PrintableIds(data: string, recs: seq<Record>)
    requires Encodes(data, recs)
    ensures forall i :: 0 <= i < |recs| ==> 0 <= recs[i].id < 1000
  {
    forall i | 0 <= i < |recs| ensures 0 <= recs[i].id < 1000 { assert LineAt(data, recs, i); }
  }

  /** What the pushes still to come add to what is done makes up the goal. */
  ghost predicate Remaining(goal: (Store, seq<int>), s: Store, sofar: seq<int>, bs: seq<string>, h: HashFn)
  {
    if bs == [] then goal == (s, sofar)
    else
      && FirstTens(s.recs, 0) < |s.recs| && PushesRun(s, bs, h)
      && goal == (PushAll(s, bs, h).0, sofar + PushAll(s, bs, h).1)
  }

  lemma AllRemains(s: Store, bs: seq<string>, h: HashFn)
    requires FirstTens(s.recs, 0) < |s.recs| && PushesRun(s, bs, h)
    ensures Remaining(PushAll(s, bs, h), s, [], bs, h)
  {
    if bs == [] { PushAllNone(s, h); }
    assert [] + PushAll(s, bs, h).1 == PushAll(s, bs, h).1;
  }

  lemma OneLess(goal: (Store, seq<int>), s: Store, sofar: seq<int>, bs: seq<string>, h: HashFn)
    requires Remaining(goal, s, sofar, bs, h) && bs != []
    ensures FirstTens(s.recs, 0) < |s.recs| && PushRuns(s, bs[0], h)
    ensures Remaining(goal, Push(s, bs[0], h).0, sofar + [Push(s, bs[0], h).1], bs[1..], h)
  {
    hide Push, PushRuns;
    PushAllIs(s, bs, h);
    var (s1, id) := Push(s, bs[0], h);
    if |bs| > 1 {
      assert sofar + ([id] + PushAll(s1, bs[1..], h).1) == sofar + [id] + PushAll(s1, bs[1..], h).1;
    } else {
      if FirstTens(s1.recs, 0) < |s1.recs| { PushAllNone(s1, h); }
      assert bs[1..] == [] && [id] + [] == [id];
    }
  }

  lemma NothingRemains(goal: (Store, seq<int>), s: Store, sofar: seq<int>, h: HashFn)
    requires Remaining(goal, s, sofar, [], h)
    ensures goal == (s, sofar)
  {
  }
}
