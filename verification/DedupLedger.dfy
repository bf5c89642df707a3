/** The hash ledger: a text file read and written through a cursor, and what that does to its records. */
module DedupLedger {
  import opened DedupText

  // ---------- a C stream on a regular file ----------

  class File {
    var data: string
    var pos: int

    ghost predicate Valid()
      reads this
    {
      0 <= pos <= |data|
    }

    constructor (data: string)
      ensures Valid() && this.data == data && pos == 0
    {
      this.data := data;
      pos := 0;
    }

    /** fseek(SEEK_SET). */
    method Seek(at: int)
      requires 0 <= at <= |data|
      modifies this`pos
      ensures pos == at
    {
      pos := at;
    }

    /** fseek(SEEK_CUR). */
    method Skip(off: int)
      requires 0 <= pos + off <= |data|
      modifies this`pos
      ensures pos == old(pos) + off
    {
      pos := pos + off;
    }

    /** fread: fewer bytes at the end of the file. */
    method Read(len: int) returns (s: string)
      requires Valid() && len >= 0
      modifies this`pos
      ensures pos == if old(pos) + len <= |data| then old(pos) + len else |data|
      ensures s == data[old(pos)..pos]
    {
      var to := if pos + len <= |data| then pos + len else |data|;
      s := data[pos..to];
      pos := to;
    }

    /** fwrite. */
    method Write(s: string)
      requires Valid()
      modifies this
      ensures Valid() && pos == old(pos) + |s| && data == Overwrite(old(data), old(pos), s)
    {
      data := Overwrite(data, pos, s);
      pos := pos + |s|;
    }
  }

  // ---------- the ledger's operations on its records ----------

  /** The first record from `i` on whose counter ends in the digit 0; the number of records if none. */
  function FirstTens(recs: seq<Record>, i: nat): (k: nat)
    requires i <= |recs|
    ensures i <= k <= |recs|
    ensures k < |recs| ==> recs[k].count % 10 == 0
    ensures forall j :: i <= j < k ==> recs[j].count % 10 != 0
    decreases |recs| - i
  {
    if i == |recs| || recs[i].count % 10 == 0 then i else FirstTens(recs, i + 1)
  }

  /** The first record from `i` on with the hash; the number of records if none. */
  function FindHash(recs: seq<Record>, hash: string, i: nat): (k: nat)
    requires i <= |recs|
    ensures i <= k <= |recs|
    ensures k < |recs| ==> recs[k].hash == hash
    ensures forall j :: i <= j < k ==> recs[j].hash != hash
    decreases |recs| - i
  {
    if i == |recs| || recs[i].hash == hash then i else FindHash(recs, hash, i + 1)
  }

  /** The record `k` taken over by a new hash; a new sentinel behind it if it was the last. */
  function Taken(recs: seq<Record>, k: nat, hash: string): seq<Record>
    requires k < |recs|
  {
    recs[k := recs[k].(hash := hash, count := 1)] +
    if k == |recs| - 1 then [Record(recs[k].id + 1, NO_HASH, 0)] else []
  }

  /** A counter one up, as printed: of "100" only two characters are written. */
  function Bumped(count: int): int
  {
    if count == 99 then 10 else count + 1
  }

  /** sprintf("%02d", n). */
  function Printed(n: int): (s: string)
    requires 0 <= n < 1000
    ensures |s| >= 2
  {
    if n < 100 then Pad2(n) else Pad3(n)
  }

  /** The counter in the ledger is what the first two characters of the new one say. */
  lemma BumpedPrints(count: int)
    requires 0 <= count < 100
    ensures 0 <= Bumped(count) < 100 && Pad2(Bumped(count)) == Printed(count + 1)[..2]
  {
  }

  /** What looking up a hash makes of the ledger. */
  datatype Lookup = Lookup(recs: seq<Record>, id: int, isNew: bool)

  function Compare(recs: seq<Record>, hash: string): Lookup
    requires FirstTens(recs, 0) < |recs|
  {
    var k := FindHash(recs, hash, 0);
    if k < |recs| then
      Lookup(recs[k := recs[k].(count := Bumped(recs[k].count))], recs[k].id, recs[k].count == 0)
    else
      var j := FirstTens(recs, 0);
      Lookup(Taken(recs, j, hash), recs[j].id, true)
  }

  /** Room for the sentinel's three-digit id, should one be added. */
  predicate RoomForId(recs: seq<Record>)
    requires FirstTens(recs, 0) < |recs|
  {
    FirstTens(recs, 0) == |recs| - 1 ==> recs[|recs| - 1].id + 1 < 1000
  }

  lemma OneDigit(d: int)
    requires 0 <= d < 10
    ensures Atoi([Digit(d)] + "\n") == d
  {
    AtoiDigit(d, "\n", 0);
    AtoiStops("\n", d);
  }

  /** Bytes written over the hash and the counter of line `k` take the record over. */
  lemma TakeLine(data: string, recs: seq<Record>, k: int, hash: string)
    requires Encodes(data, recs) && 0 <= k < |recs| && |hash| == HASH_LEN
    ensures LINE * k + 25 <= |data|
    ensures var d := Overwrite(data, LINE * k + 5, hash);
            && |d| == |data| && LINE * k + 29 <= |d|
            && Encodes(Overwrite(d, LINE * k + 27, "01"), recs[k := recs[k].(hash := hash, count := 1)])
  {
    assert LineAt(data, recs, k);
    var r := recs[k].(hash := hash);
    OverwriteHash(recs[k], hash);
    OverwriteLine(data, recs, k, 5, hash, r);
    var recs1 := recs[k := r];
    OverwriteCount(r, 1);
    assert Pad2(1) == "01";
    OverwriteLine(Overwrite(data, LINE * k + 5, hash), recs1, k, 27, "01", r.(count := 1));
    assert recs1[k := r.(count := 1)] == recs[k := recs[k].(hash := hash, count := 1)];
  }

  /** our_lib.c:54-65: the cursor is behind line `k`, which is taken over; behind the last line, a new
      sentinel is written first. */
  method TakeOver(f: File, at: int, isLast: bool, id: int, hash: string, ghost recs: seq<Record>, ghost k: int)
    requires Encodes(f.data, recs) && 0 <= k < |recs| && |hash| == HASH_LEN && f.pos == at == LINE * k + LINE
    requires isLast == (k == |recs| - 1) && id == recs[k].id && (isLast ==> 0 <= id + 1 < 1000)
    modifies f
    ensures f.Valid() && Encodes(f.data, Taken(recs, k, hash))
  {
    hide Encodes, Record.Text, Overwrite;
    ghost var recs1 := recs;
    EncodedSize(f.data, recs);
    if isLast {
      AppendLine(f.data, recs, Record(id + 1, NO_HASH, 0));
      recs1 := recs + [Record(id + 1, NO_HASH, 0)];
      f.Write(Record(id + 1, NO_HASH, 0).Text());
    }
    TakeLine(f.data, recs1, k, hash);
    f.Seek(at - 25);
    f.Write(hash);
    f.Skip(2);
    f.Write("01");
    TakenIs(recs, recs1, k, hash);
  }

  lemma EncodedSize(data: string, recs: seq<Record>)
    requires Encodes(data, recs)
    ensures |data| == LINE * |recs|
  {
  }

  lemma TakenIs(recs: seq<Record>, recs1: seq<Record>, k: int, hash: string)
    requires 0 <= k < |recs| && recs1 == recs + if k == |recs| - 1 then [Record(recs[k].id + 1, NO_HASH, 0)] else []
    ensures recs1[k := recs1[k].(hash := hash, count := 1)] == Taken(recs, k, hash)
  {
  }

  /** our_lib.c:27-70. */
  method AddHash(f: File, size: int, hash: string, ghost recs: seq<Record>) returns (id: int)
    requires Encodes(f.data, recs) && size == |f.data| && |hash| == HASH_LEN
    requires FirstTens(recs, 0) < |recs| && RoomForId(recs)
    modifies f
    ensures f.Valid() && Encodes(f.data, Taken(recs, FirstTens(recs, 0), hash))
    ensures id == recs[FirstTens(recs, 0)].id
  {
    ghost var k := FirstTens(recs, 0);
    ghost var i := 0;
    f.Seek(0);
    var at;
    while true
      invariant 0 <= i <= k && f.pos == LINE * i && f.data == old(f.data)
      decreases k - i
    {
      FieldsInFile(f.data, recs, i);
      var idChars := f.Read(3);
      id := Atoi(idChars);
      AtoiPad3(recs[i].id, "");
      assert Pad3(recs[i].id) + "" == Pad3(recs[i].id);
      f.Skip(25);
      var countChars := f.Read(2);
      OneDigit(recs[i].count % 10);
      var counter := Atoi(countChars);
      at := f.pos;
      if counter == 0 {
        break;
      }
      i := i + 1;
    }
    TakeOver(f, at, at == size, id, hash, recs, k);
  }

  /** our_lib.c:99-166. */
  method CompareHash(f: File, hash: string, ghost recs: seq<Record>) returns (id: int, isNew: bool)
    requires Encodes(f.data, recs) && |hash| == HASH_LEN
    requires FirstTens(recs, 0) < |recs| && (FindHash(recs, hash, 0) == |recs| ==> RoomForId(recs))
    modifies f
    ensures f.Valid() && Encodes(f.data, Compare(recs, hash).recs)
    ensures id == Compare(recs, hash).id && isNew == Compare(recs, hash).isNew
  {
    ghost var k := FindHash(recs, hash, 0);
    ghost var i := 0;
    isNew := false;
    var size := |f.data|;
    f.Seek(0);
    while true
      invariant 0 <= i <= k && f.pos == LINE * i && f.data == old(f.data) && !isNew
      decreases k - i
    {
      if f.pos == size {
        id := AddHash(f, size, hash, recs);
        isNew := true;
        return;
      }
      var check;
      id, check := ReadLine(f, recs, i);
      if check == hash {
        break;
      }
      i := i + 1;
    }
    isNew := IncreaseCounter(f, recs, i);
  }

  /** our_lib.c:131-139: the id and the hash of line `i`. */
  method ReadLine(f: File, ghost recs: seq<Record>, ghost i: int) returns (id: int, check: string)
    requires Encodes(f.data, recs) && 0 <= i < |recs| && f.pos == LINE * i
    modifies f`pos
    ensures f.pos == LINE * i + LINE && id == recs[i].id && check == recs[i].hash
  {
    FieldsInFile(f.data, recs, i);
    var idChars := f.Read(3);
    id := Atoi(idChars);
    AtoiPad3(recs[i].id, "");
    assert Pad3(recs[i].id) + "" == Pad3(recs[i].id);
    f.Skip(2);
    check := f.Read(20);
    f.Skip(5);
  }

  /** our_lib.c:144-161: the cursor is behind line `i`, whose hash matched. */
  method IncreaseCounter(f: File, ghost recs: seq<Record>, ghost i: int) returns (isNew: bool)
    requires Encodes(f.data, recs) && 0 <= i < |recs| && f.pos == LINE * i + LINE
    modifies f
    ensures f.Valid() && recs[i].Printable() && isNew == (recs[i].count == 0)
    ensures Encodes(f.data, recs[i := recs[i].(count := Bumped(recs[i].count))])
  {
    isNew := false;
    FieldsInFile(f.data, recs, i);
    f.Skip(-3);
    var countChars := f.Read(2);
    AtoiPad2(recs[i].count, "");
    assert Pad2(recs[i].count) + "" == Pad2(recs[i].count);
    var counter := Atoi(countChars);
    if counter == 0 {
      isNew := true;
    }
    f.Skip(-2);
    counter := counter + 1;
    ghost var count := Bumped(recs[i].count);
    BumpedPrints(recs[i].count);
    OverwriteCount(recs[i], count);
    OverwriteLine(f.data, recs, i, 27, Pad2(count), recs[i].(count := count));
    f.Write(Printed(counter)[..2]);
  }

  /** One turn of our_lib.c:406-441, up to the removal of the block file: the new counter. */
  method DecreaseCounter(f: File, id: int, ghost recs: seq<Record>) returns (counter: int)
    requires Encodes(f.data, recs) && 1 <= id <= |recs|
    modifies f
    ensures f.Valid() && counter == recs[id - 1].count - 1
    ensures Encodes(f.data, if counter >= 0 then recs[id - 1 := recs[id - 1].(count := counter)] else recs)
  {
    f.Seek(0);
    var i := 1;
    while i < id
      invariant 1 <= i <= id && f.pos == LINE * (i - 1) && f.data == old(f.data)
    {
      f.Skip(30);
      i := i + 1;
    }
    FieldsInFile(f.data, recs, id - 1);
    f.Skip(27);
    var countChars := f.Read(2);
    AtoiPad2(recs[id - 1].count, "");
    assert Pad2(recs[id - 1].count) + "" == Pad2(recs[id - 1].count);
    counter := Atoi(countChars);
    counter := counter - 1;
    if counter >= 0 {
      OverwriteCount(recs[id - 1], counter);
      OverwriteLine(f.data, recs, id - 1, 27, Pad2(counter), recs[id - 1].(count := counter));
      f.Skip(-2);
      f.Write(Pad2(counter));
    }
  }
}
