/** The text forms the block store keeps on disk: decimal numbers, ledger lines and id lists. */
module DedupText {

  // ---------- decimal numbers: %02d, %03d, atoi ----------

  function Digit(d: int): char
    requires 0 <= d < 10
  {
    ('0' as int + d) as char
  }

  predicate IsDigit(c: char)
  {
    '0' <= c <= '9'
  }

  /** sprintf("%02d", n) for at most two digits. */
  function Pad2(n: int): (s: string)
    requires 0 <= n < 100
    ensures |s| == 2
  {
    [Digit(n / 10), Digit(n % 10)]
  }

  /** sprintf("%03d", n) for at most three digits. */
  function Pad3(n: int): (s: string)
    requires 0 <= n < 1000
    ensures |s| == 3
  {
    [Digit(n / 100), Digit(n / 10 % 10), Digit(n % 10)]
  }

  function AtoiFrom(s: string, acc: int): int
  {
    if s == [] || !IsDigit(s[0]) then acc
    else AtoiFrom(s[1..], 10 * acc + (s[0] as int - '0' as int))
  }

  /** atoi on text without sign or leading blanks: the leading digits. */
  function Atoi(s: string): int
  {
    AtoiFrom(s, 0)
  }

  lemma AtoiDigit(d: int, rest: string, acc: int)
    requires 0 <= d < 10
    ensures AtoiFrom([Digit(d)] + rest, acc) == AtoiFrom(rest, 10 * acc + d)
  {
    assert ([Digit(d)] + rest)[1..] == rest;
  }

  /** atoi stops at the first character that is no digit. */
  lemma AtoiStops(rest: string, acc: int)
    requires rest == [] || !IsDigit(rest[0])
    ensures AtoiFrom(rest, acc) == acc
  {
  }

  lemma AtoiPad2(n: int, rest: string)
    requires 0 <= n < 100 && (rest == [] || !IsDigit(rest[0]))
    ensures Atoi(Pad2(n) + rest) == n
  {
    var t := [Digit(n % 10)] + rest;
    assert Pad2(n) + rest == [Digit(n / 10)] + t;
    AtoiDigit(n / 10, t, 0);
    AtoiDigit(n % 10, rest, n / 10);
    AtoiStops(rest, n);
  }

  lemma AtoiPad3(n: int, rest: string)
    requires 0 <= n < 1000 && (rest == [] || !IsDigit(rest[0]))
    ensures Atoi(Pad3(n) + rest) == n
  {
    var u := [Digit(n % 10)] + rest;
    var t := [Digit(n / 10 % 10)] + u;
    assert Pad3(n) + rest == [Digit(n / 100)] + t;
    AtoiDigit(n / 100, t, 0);
    AtoiDigit(n / 10 % 10, u, n / 100);
    AtoiDigit(n % 10, rest, 10 * (n / 100) + n / 10 % 10);
    AtoiStops(rest, n);
  }

  // ---------- ledger lines ----------

  const LINE := 30
  const HASH_LEN := 20
  const NO_HASH: string := "00000000000000000000"

  datatype Record = Record(id: int, hash: string, count: int) {
    predicate Printable() { 0 <= id < 1000 && |hash| == HASH_LEN && 0 <= count < 100 }

    /** "III, HHHHHHHHHHHHHHHHHHHH, CC\n". */
    function Text(): (s: string)
      requires Printable()
      ensures |s| == LINE
    {
      Pad3(id) + ", " + hash + ", " + Pad2(count) + "\n"
    }
  }

  /** Where the fields of a line are.  Reading two characters from column 28 instead of 27 gives the last
      digit of the counter and the line end. */
  lemma Fields(r: Record)
    requires r.Printable()
    ensures var s := r.Text();
            && s[..3] == Pad3(r.id) && s[5..25] == r.hash && s[27..29] == Pad2(r.count)
            && s[28..30] == [Digit(r.count % 10)] + "\n"
  {
  }

  /** The file holds exactly these lines. */
  ghost predicate Encodes(data: string, recs: seq<Record>)
  {
    && |data| == LINE * |recs|
    && forall i :: 0 <= i < |recs| ==> LineAt(data, recs, i)
  }

  ghost predicate LineAt(data: string, recs: seq<Record>, i: int)
  {
    && 0 <= i < |recs| && LINE * i + LINE <= |data|
    && recs[i].Printable() && data[LINE * i..LINE * i + LINE] == recs[i].Text()
  }

  lemma SubSlice(data: string, base: int, len: int, lo: int, hi: int)
    requires 0 <= base && 0 <= lo <= hi <= len && base + len <= |data|
    ensures data[base + lo..base + hi] == data[base..base + len][lo..hi]
  {
    var a, b := data[base + lo..base + hi], data[base..base + len][lo..hi];
    assert |a| == |b|;
    assert forall k :: 0 <= k < |a| ==> a[k] == b[k];
  }

  lemma FieldsInFile(data: string, recs: seq<Record>, i: int)
    requires Encodes(data, recs) && 0 <= i < |recs|
    ensures recs[i].Printable() && LINE * i + LINE <= |data|
    ensures data[LINE * i..LINE * i + 3] == Pad3(recs[i].id)
    ensures data[LINE * i + 5..LINE * i + 25] == recs[i].hash
    ensures data[LINE * i + 27..LINE * i + 29] == Pad2(recs[i].count)
    ensures data[LINE * i + 28..LINE * i + 30] == [Digit(recs[i].count % 10)] + "\n"
  {
    assert LineAt(data, recs, i);
    Fields(recs[i]);
    SubSlice(data, LINE * i, LINE, 0, 3);
    SubSlice(data, LINE * i, LINE, 5, 25);
    SubSlice(data, LINE * i, LINE, 27, 29);
    SubSlice(data, LINE * i, LINE, 28, 30);
  }

  /** The bytes of `data` from `at` on replaced by `s`. */
  function Overwrite(data: string, at: int, s: string): (r: string)
    requires 0 <= at <= |data|
    ensures |r| == if at + |s| <= |data| then |data| else at + |s|
  {
    data[..at] + s + (if at + |s| <= |data| then data[at + |s|..] else "")
  }

  /** Overwriting part of line `i` changes that line only. */
  lemma OverwriteLine(data: string, recs: seq<Record>, i: int, col: int, s: string, r: Record)
    requires Encodes(data, recs) && 0 <= i < |recs| && 0 <= col && col + |s| <= LINE
    requires recs[i].Printable() && r.Printable() && r.Text() == Overwrite(recs[i].Text(), col, s)
    ensures Encodes(Overwrite(data, LINE * i + col, s), recs[i := r])
  {
    var d, upd := Overwrite(data, LINE * i + col, s), recs[i := r];
    forall j | 0 <= j < |upd| ensures LineAt(d, upd, j) {
      assert LineAt(data, recs, j) && LineAt(data, recs, i);
      if j < i {
        assert d[LINE * j..LINE * j + LINE] == data[LINE * j..LINE * j + LINE];
      } else if j > i {
        assert d[LINE * j..LINE * j + LINE] == data[LINE * j..LINE * j + LINE];
      } else {
        OverwriteSlice(data, LINE * i, col, s);
      }
    }
  }

  lemma OverwriteSlice(data: string, base: int, col: int, s: string)
    requires 0 <= base && 0 <= col && col + |s| <= LINE && base + LINE <= |data|
    ensures Overwrite(data, base + col, s)[base..base + LINE] == Overwrite(data[base..base + LINE], col, s)
  {
    var a, b := Overwrite(data, base + col, s)[base..base + LINE], Overwrite(data[base..base + LINE], col, s);
    forall k | 0 <= k < LINE ensures a[k] == b[k] {
      assert a[k] == Overwrite(data, base + col, s)[base + k];
    }
  }

  /** A new counter. */
  lemma OverwriteCount(r: Record, count: int)
    requires r.Printable() && 0 <= count < 100
    ensures r.(count := count).Text() == Overwrite(r.Text(), 27, Pad2(count))
  {
  }

  /** A new hash. */
  lemma OverwriteHash(r: Record, hash: string)
    requires r.Printable() && |hash| == HASH_LEN
    ensures r.(hash := hash).Text() == Overwrite(r.Text(), 5, hash)
  {
  }

  lemma AppendLine(data: string, recs: seq<Record>, r: Record)
    requires Encodes(data, recs) && r.Printable()
    ensures Encodes(Overwrite(data, |data|, r.Text()), recs + [r])
  {
    var d, upd := Overwrite(data, |data|, r.Text()), recs + [r];
    assert d == data + r.Text();
    forall j | 0 <= j < |upd| ensures LineAt(d, upd, j) {
      if j < |recs| {
        assert LineAt(data, recs, j);
        assert d[LINE * j..LINE * j + LINE] == data[LINE * j..LINE * j + LINE];
      } else {
        assert d[LINE * j..LINE * j + LINE] == r.Text();
      }
    }
  }

  /** The text determines the records. */
  lemma TextInjective(a: Record, b: Record)
    requires a.Printable() && b.Printable() && a.Text() == b.Text()
    ensures a == b
  {
    Fields(a);
    Fields(b);
    AtoiPad3(a.id, "");
    AtoiPad3(b.id, "");
    AtoiPad2(a.count, "");
    AtoiPad2(b.count, "");
    assert Pad3(a.id) + "" == Pad3(a.id) && Pad3(b.id) + "" == Pad3(b.id);
    assert Pad2(a.count) + "" == Pad2(a.count) && Pad2(b.count) + "" == Pad2(b.count);
  }

  lemma EncodesOnce(data: string, a: seq<Record>, b: seq<Record>)
    requires Encodes(data, a) && Encodes(data, b)
    ensures a == b
  {
    forall i | 0 <= i < |a| ensures a[i] == b[i] {
      assert LineAt(data, a, i) && LineAt(data, b, i);
      TextInjective(a[i], b[i]);
    }
  }

  // ---------- id lists ----------

  const ID_LEN := 4

  /** A file of the file system: one "III\n" per block. */
  function IdText(ids: seq<int>): (s: string)
    requires IdsPrintable(ids)
    ensures |s| == ID_LEN * |ids|
  {
    if ids == [] then "" else Pad3(ids[0]) + "\n" + IdText(ids[1..])
  }

  predicate IdsPrintable(ids: seq<int>)
  {
    forall i :: 0 <= i < |ids| ==> 0 <= ids[i] < 1000
  }

  lemma {:induction false} IdTextConcat(a: seq<int>, b: seq<int>)
    requires IdsPrintable(a) && IdsPrintable(b)
    ensures IdsPrintable(a + b) && IdText(a + b) == IdText(a) + IdText(b)
  {
    if a == [] {
      assert a + b == b;
    } else {
      IdTextConcat(a[1..], b);
      assert (a + b)[1..] == a[1..] + b;
    }
  }

  /** Cutting the text at multiples of 4 cuts the id list. */
  lemma IdTextSlice(ids: seq<int>, lo: int, hi: int)
    requires IdsPrintable(ids) && 0 <= lo <= hi <= |ids|
    ensures IdsPrintable(ids[lo..hi])
    ensures IdText(ids)[ID_LEN * lo..ID_LEN * hi] == IdText(ids[lo..hi])
  {
    hide IdText;
    var a, b, c := ids[..lo], ids[lo..hi], ids[hi..];
    assert ids[..hi] == a + b && ids == ids[..hi] + c;
    IdTextConcat(a, b);
    IdTextConcat(ids[..hi], c);
    MiddlePart(IdText(a), IdText(b), IdText(c));
  }

  lemma MiddlePart(a: string, b: string, c: string)
    ensures (a + b + c)[|a|..|a| + |b|] == b
  {
  }

  lemma IdAt(ids: seq<int>, i: int)
    requires IdsPrintable(ids) && 0 <= i < |ids|
    ensures IdText(ids)[ID_LEN * i..ID_LEN * i + 4] == Pad3(ids[i]) + "\n"
    ensures Atoi(IdText(ids)[ID_LEN * i..ID_LEN * i + 4]) == ids[i]
    ensures Atoi(IdText(ids)[ID_LEN * i..ID_LEN * i + 3]) == ids[i]
  {
    hide IdText, Atoi;
    IdTextSlice(ids, i, i + 1);
    assert ids[i..i + 1] == [ids[i]];
    OneId(ids[i]);
    var t := IdText(ids);
    SubSlice(t, ID_LEN * i, 4, 0, 3);
    assert t[ID_LEN * i..ID_LEN * i + 3] == IdText([ids[i]])[..3];
  }

  lemma OneId(id: int)
    requires 0 <= id < 1000
    ensures IdText([id]) == Pad3(id) + "\n" && IdText([id])[..3] == Pad3(id)
    ensures Atoi(Pad3(id) + "\n") == id && Atoi(Pad3(id)) == id
  {
    assert [id][1..] == [];
    AtoiPad3(id, "\n");
    AtoiPad3(id, "");
    assert Pad3(id) + "" == Pad3(id);
  }

  /** Overwriting at block `off` replaces ids, and extends the list at its end. */
  lemma OverwriteIds(ids: seq<int>, off: int, news: seq<int>)
    requires IdsPrintable(ids) && IdsPrintable(news) && 0 <= off <= |ids|
    ensures IdsPrintable(Patched(ids, off, news))
    ensures Overwrite(IdText(ids), ID_LEN * off, IdText(news)) == IdText(Patched(ids, off, news))
  {
    var end := if off + |news| <= |ids| then off + |news| else |ids|;
    IdTextSlice(ids, 0, off);
    IdTextSlice(ids, end, |ids|);
    IdTextConcat(ids[..off], news);
    IdTextConcat(ids[..off] + news, ids[end..]);
    assert ids[0..off] == ids[..off] && ids[end..|ids|] == ids[end..];
    var t, s := IdText(ids), IdText(news);
    assert t[..ID_LEN * off] == IdText(ids[..off]);
    assert t[ID_LEN * end..] == IdText(ids[end..]);
  }

  /** `xs` with `ys` written over it from index `off` on. */
  function Patched<T>(xs: seq<T>, off: int, ys: seq<T>): (r: seq<T>)
    requires 0 <= off <= |xs|
  {
    xs[..off] + ys + xs[if off + |ys| <= |xs| then off + |ys| else |xs|..]
  }
}
