/** The deduplicating block store: ledger records, block files, and the references that count. */
module DedupStore {
  import opened DedupText
  import opened DedupLedger

  const BASE := 4096

  /** A full block.  C strings end at the first NUL, so a block holds none. */
  ghost predicate IsBlock(b: string)
  {
    |b| == BASE && '\0' !in b
  }

  /** SHA-1 cut to 20 characters stays uninterpreted; nothing is assumed about collisions. */
  type HashFn = string -> string

  ghost predicate HashOk(h: HashFn)
  {
    forall b :: |h(b)| == HASH_LEN
  }

  datatype Store = Store(recs: seq<Record>, blocks: map<int, string>)

  // ---------- the invariant ----------

  /** Line k has id k + 1, hashes are distinct, and the last line is an unused sentinel. */
  ghost predicate LedgerOk(recs: seq<Record>)
  {
    && 1 <= |recs| < 1000
    && (forall i :: 0 <= i < |recs| ==> recs[i].id == i + 1 && recs[i].Printable())
    && (forall i, j :: 0 <= i < j < |recs| ==> recs[i].hash != recs[j].hash)
    && recs[|recs| - 1].hash == NO_HASH && recs[|recs| - 1].count == 0
  }

  /** Every counter is the number of references to its id. */
  ghost predicate CountsExact(recs: seq<Record>, refs: multiset<int>)
  {
    && (forall i :: 0 <= i < |recs| ==> recs[i].count == refs[i + 1])
    && (forall id :: id in refs ==> 1 <= id <= |recs|)
  }

  /** A block file exists exactly when its counter is positive, and holds data with the stored hash. */
  ghost predicate BlocksOk(s: Store, h: HashFn)
  {
    && (forall id :: id in s.blocks ==> 1 <= id <= |s.recs| && s.recs[id - 1].count > 0)
    && (forall i :: 0 <= i < |s.recs| && s.recs[i].count > 0 ==>
         i + 1 in s.blocks && IsBlock(s.blocks[i + 1]) && h(s.blocks[i + 1]) == s.recs[i].hash)
  }

  ghost predicate StoreInv(s: Store, refs: multiset<int>, h: HashFn)
  {
    LedgerOk(s.recs) && CountsExact(s.recs, refs) && BlocksOk(s, h)
  }

  /** Every referenced block still reads the same. */
  ghost predicate Kept(s: Store, s': Store, refs: multiset<int>)
  {
    forall id :: id in refs ==> id in s.blocks && id in s'.blocks && s'.blocks[id] == s.blocks[id]
  }

  lemma SentinelFound(recs: seq<Record>)
    requires LedgerOk(recs)
    ensures FirstTens(recs, 0) < |recs|
  {
  }

  /** The store bb_init leaves. */
  const INITIAL := Store([Record(1, NO_HASH, 0)], map[])

  lemma InitialStoreInv(h: HashFn)
    ensures StoreInv(INITIAL, multiset{}, h)
  {
  }

  lemma ReferencedBlock(s: Store, refs: multiset<int>, h: HashFn, id: int)
    requires StoreInv(s, refs, h) && id in refs
    ensures 1 <= id <= |s.recs| && s.recs[id - 1].count == refs[id] > 0
    ensures id in s.blocks && IsBlock(s.blocks[id])
  {
    var i := id - 1;
    assert s.recs[i].count == refs[i + 1];
  }

  // ---------- PushBlock ----------

  /** PushBlock: look the hash up, create the block file when told to. */
  function Push(s: Store, b: string, h: HashFn): (Store, int)
    requires FirstTens(s.recs, 0) < |s.recs|
  {
    var l := Compare(s.recs, h(b));
    (Store(l.recs, if l.isNew then s.blocks[l.id := b] else s.blocks), l.id)
  }

  /** A condition on the store before the call: a known hash has a free or a matching record with room to
      count, an unknown hash meets a free record first. */
  predicate PushSafe(s: Store, b: string, h: HashFn)
    requires FirstTens(s.recs, 0) < |s.recs|
  {
    && h(b) != NO_HASH
    && var k := FindHash(s.recs, h(b), 0);
       if k < |s.recs| then
         s.recs[k].count == 0 || (s.recs[k].count < 99 && k + 1 in s.blocks && s.blocks[k + 1] == b)
       else
         var j := FirstTens(s.recs, 0);
         s.recs[j].count == 0 && (j == |s.recs| - 1 ==> |s.recs| < 999)
  }

  /** What a push is for: the block is stored under the returned id, its reference counted, and nothing
      else changed. */
  ghost predicate Pushed(s: Store, s': Store, id: int, b: string, refs: multiset<int>, h: HashFn)
  {
    StoreInv(s', refs + multiset{id}, h) && Kept(s, s', refs) && id in s'.blocks && s'.blocks[id] == b
  }

  ghost predicate Extends(s: Store, s': Store)
  {
    forall id :: id in s.blocks ==> id in s'.blocks && s'.blocks[id] == s.blocks[id]
  }

  lemma ExtendedKeeps(s: Store, s': Store, refs: multiset<int>, h: HashFn)
    requires StoreInv(s, refs, h) && Extends(s, s')
    ensures Kept(s, s', refs)
  {
    forall r | r in refs ensures r in s.blocks && r in s'.blocks && s'.blocks[r] == s.blocks[r] {
      ReferencedBlock(s, refs, h, r);
    }
  }

  /** Counting one more reference of a known block. */
  lemma CountUp(recs: seq<Record>, k: int, refs: multiset<int>)
    requires LedgerOk(recs) && CountsExact(recs, refs) && 0 <= k < |recs| - 1 && recs[k].count < 99
    ensures var recs' := recs[k := recs[k].(count := recs[k].count + 1)];
            LedgerOk(recs') && CountsExact(recs', refs + multiset{k + 1})
  {
  }

  lemma KnownBlocks(s: Store, k: int, b: string, h: HashFn)
    requires BlocksOk(s, h) && IsBlock(b) && 0 <= k < |s.recs| && s.recs[k].hash == h(b) && s.recs[k].id == k + 1
    requires s.recs[k].count == 0 || (k + 1 in s.blocks && s.blocks[k + 1] == b)
    ensures var s' := Store(s.recs[k := s.recs[k].(count := s.recs[k].count + 1)], s.blocks[k + 1 := b]);
            (s.recs[k].count >= 0 ==> BlocksOk(s', h)) && Extends(s, s')
  {
  }

  lemma PushKnown(s: Store, b: string, refs: multiset<int>, h: HashFn)
    requires StoreInv(s, refs, h) && IsBlock(b) && FirstTens(s.recs, 0) < |s.recs|
    requires PushSafe(s, b, h) && FindHash(s.recs, h(b), 0) < |s.recs|
    ensures Pushed(s, Push(s, b, h).0, Push(s, b, h).1, b, refs, h)
  {
    hide Kept, LedgerOk, CountsExact, BlocksOk, Extends, IsBlock;
    var k := FindHash(s.recs, h(b), 0);
    LedgerFacts(s.recs, k);
    CountUp(s.recs, k, refs);
    KnownBlocks(s, k, b, h);
    var s' := Push(s, b, h).0;
    assert s.recs[k].count > 0 ==> s.blocks[k + 1 := b] == s.blocks;
    assert s' == Store(s.recs[k := s.recs[k].(count := s.recs[k].count + 1)], s.blocks[k + 1 := b]);
    ExtendedKeeps(s, s', refs, h);
  }

  lemma LedgerFacts(recs: seq<Record>, k: int)
    requires LedgerOk(recs) && 0 <= k < |recs|
    ensures recs[k].id == k + 1 && 0 <= recs[k].count < 100
    ensures recs[k].hash == NO_HASH ==> k == |recs| - 1
    ensures k == |recs| - 1 ==> recs[k].hash == NO_HASH && recs[k].count == 0
  {
  }

  lemma CountFirst(recs: seq<Record>, j: nat, hash: string, refs: multiset<int>)
    requires LedgerOk(recs) && CountsExact(recs, refs) && j < |recs| && recs[j].count == 0
    ensures CountsExact(Taken(recs, j, hash), refs + multiset{j + 1})
  {
    var t := Taken(recs, j, hash);
    assert refs[j + 1] == 0;
    forall i | 0 <= i < |t| ensures t[i].count == (refs + multiset{j + 1})[i + 1] {
      if i < |recs| && i != j { assert t[i] == recs[i]; }
      if i == |recs| { assert |recs| + 1 !in refs; }
    }
  }

  lemma NewBlock(s: Store, j: nat, b: string, h: HashFn)
    requires BlocksOk(s, h) && IsBlock(b) && j < |s.recs| && s.recs[j].count == 0
    ensures var s' := Store(Taken(s.recs, j, h(b)), s.blocks[j + 1 := b]);
            BlocksOk(s', h) && Extends(s, s')
  {
    var t := Taken(s.recs, j, h(b));
    assert forall i :: 0 <= i < |s.recs| && i != j ==> t[i] == s.recs[i];
    assert t[j].count == 1 && t[j].hash == h(b);
    assert |t| > |s.recs| ==> t[|s.recs|].count == 0;
  }

  lemma PushUnknown(s: Store, b: string, refs: multiset<int>, h: HashFn)
    requires StoreInv(s, refs, h) && HashOk(h) && IsBlock(b) && FirstTens(s.recs, 0) < |s.recs|
    requires PushSafe(s, b, h) && FindHash(s.recs, h(b), 0) == |s.recs|
    ensures Pushed(s, Push(s, b, h).0, Push(s, b, h).1, b, refs, h)
  {
    hide Kept, LedgerOk, CountsExact, BlocksOk, Extends, IsBlock, Taken;
    var j := FirstTens(s.recs, 0);
    LedgerFacts(s.recs, j);
    TakenLedgerOk(s.recs, j, h(b));
    CountFirst(s.recs, j, h(b), refs);
    NewBlock(s, j, b, h);
    var s' := Push(s, b, h).0;
    assert s' == Store(Taken(s.recs, j, h(b)), s.blocks[j + 1 := b]);
    ExtendedKeeps(s, s', refs, h);
  }

  lemma TakenLedgerOk(recs: seq<Record>, j: nat, hash: string)
    requires LedgerOk(recs) && j < |recs| && |hash| == HASH_LEN && hash != NO_HASH
    requires forall i :: 0 <= i < |recs| ==> recs[i].hash != hash
    requires j == |recs| - 1 ==> |recs| < 999
    ensures LedgerOk(Taken(recs, j, hash))
  {
    var t := Taken(recs, j, hash);
    forall i | 0 <= i < |recs| ensures t[i] == (if i == j then recs[j].(hash := hash, count := 1) else recs[i]) {
    }
  }

  /** When the condition fails, so does the push. */
  lemma PushUnsafe(s: Store, b: string, refs: multiset<int>, h: HashFn)
    requires StoreInv(s, refs, h) && FirstTens(s.recs, 0) < |s.recs| && !PushSafe(s, b, h)
    ensures !Pushed(s, Push(s, b, h).0, Push(s, b, h).1, b, refs, h)
  {
    var k := FindHash(s.recs, h(b), 0);
    var s', id := Push(s, b, h).0, Push(s, b, h).1;
    if k < |s.recs| {
      assert id == k + 1 && s'.recs[k].count == Bumped(s.recs[k].count);
      if s.recs[k].count < 99 && k + 1 in s.blocks && s.blocks[k + 1] != b {
        assert s'.blocks[id] != b;
      } else if s.recs[k].count == 99 {
        assert s'.recs[k].count != (refs + multiset{id})[id];
      } else {
        assert h(b) == NO_HASH;
        assert k == |s.recs| - 1;
      }
    } else {
      var j := FirstTens(s.recs, 0);
      assert id == j + 1 && s'.recs[j].count == 1;
    }
  }

  /** Line k has id k + 1, and no counter is negative: what survives even in a damaged ledger. */
  ghost predicate InOrder(recs: seq<Record>)
  {
    recs != [] && forall i :: 0 <= i < |recs| ==> recs[i].id == i + 1 && 0 <= recs[i].count
  }

  lemma InOrderWhenSound(s: Store, refs: multiset<int>, h: HashFn)
    requires StoreInv(s, refs, h)
    ensures InOrder(s.recs)
  {
  }

  /** What one push does to the records, whatever state they are in: it counts at most one reference more on
      one record; when it writes a block file or appends a line, that record starts again at 1. */
  lemma PushMoves(s: Store, b: string, h: HashFn)
    requires InOrder(s.recs) && FirstTens(s.recs, 0) < |s.recs|
    ensures var (s', id) := Push(s, b, h);
            && InOrder(s'.recs) && 1 <= id <= |s.recs| <= |s'.recs| <= |s.recs| + 1
            && (forall i :: 0 <= i < |s.recs| && i != id - 1 ==> s'.recs[i] == s.recs[i])
            && s'.recs[id - 1].hash == h(b) && 0 < s'.recs[id - 1].count <= s.recs[id - 1].count + 1
            && (s'.blocks == s.blocks || (s'.blocks == s.blocks[id := b] && s'.recs[id - 1].count == 1))
            && (|s'.recs| > |s.recs| ==>
                 id == |s.recs| && s'.recs[id - 1].count == 1
                 && s'.recs[|s.recs|].hash == NO_HASH && s'.recs[|s.recs|].count == 0)
  {
  }

  /** PushBlock does its job exactly when the condition holds before the call. */
  lemma PushIff(s: Store, b: string, refs: multiset<int>, h: HashFn)
    requires StoreInv(s, refs, h) && HashOk(h) && IsBlock(b) && FirstTens(s.recs, 0) < |s.recs|
    ensures PushSafe(s, b, h) <==> Pushed(s, Push(s, b, h).0, Push(s, b, h).1, b, refs, h)
  {
    if PushSafe(s, b, h) {
      if FindHash(s.recs, h(b), 0) < |s.recs| {
        PushKnown(s, b, refs, h);
      } else {
        PushUnknown(s, b, refs, h);
      }
    } else {
      PushUnsafe(s, b, refs, h);
    }
  }

  // ---------- a run of pushes: compressBuffer ----------

  function PushAll(s: Store, bs: seq<string>, h: HashFn): (Store, seq<int>)
    requires FirstTens(s.recs, 0) < |s.recs|
    decreases |bs|
  {
    if bs == [] then (s, [])
    else
      var (s1, id) := Push(s, bs[0], h);
      if FirstTens(s1.recs, 0) == |s1.recs| then (s1, [id])
      else
        var (s2, ids) := PushAll(s1, bs[1..], h);
        (s2, [id] + ids)
  }

  predicate PushesSafe(s: Store, bs: seq<string>, h: HashFn)
    requires FirstTens(s.recs, 0) < |s.recs|
    decreases |bs|
  {
    bs != [] ==>
      && PushSafe(s, bs[0], h)
      && var s1 := Push(s, bs[0], h).0;
         FirstTens(s1.recs, 0) < |s1.recs| && PushesSafe(s1, bs[1..], h)
  }

  /** The push finds a record to work on, and has an id for the sentinel it may have to add. */
  predicate PushRuns(s: Store, b: string, h: HashFn)
    requires FirstTens(s.recs, 0) < |s.recs|
  {
    FindHash(s.recs, h(b), 0) == |s.recs| ==> RoomForId(s.recs)
  }

  /** So does every push of a run. */
  predicate PushesRun(s: Store, bs: seq<string>, h: HashFn)
    requires FirstTens(s.recs, 0) < |s.recs|
    decreases |bs|
  {
    bs != [] ==>
      && PushRuns(s, bs[0], h)
      && (|bs| > 1 ==>
           var s1 := Push(s, bs[0], h).0;
           FirstTens(s1.recs, 0) < |s1.recs| && PushesRun(s1, bs[1..], h))
  }

  lemma PushAllStep(s: Store, bs: seq<string>, h: HashFn)
    requires FirstTens(s.recs, 0) < |s.recs| && bs != [] && PushesSafe(s, bs, h)
    ensures PushSafe(s, bs[0], h)
    ensures var (s1, id) := Push(s, bs[0], h);
            && FirstTens(s1.recs, 0) < |s1.recs| && PushesSafe(s1, bs[1..], h)
            && PushAll(s, bs, h).0 == PushAll(s1, bs[1..], h).0
            && PushAll(s, bs, h).1 == [id] + PushAll(s1, bs[1..], h).1
  {
  }

  lemma PushAllNone(s: Store, h: HashFn)
    requires FirstTens(s.recs, 0) < |s.recs|
    ensures PushAll(s, [], h) == (s, [])
  {
  }

  lemma KeptTransitive(s: Store, s1: Store, s2: Store, refs: multiset<int>, more: multiset<int>)
    requires Kept(s, s1, refs) && Kept(s1, s2, refs + more)
    ensures Kept(s, s2, refs)
  {
    forall id | id in refs ensures id in s.blocks && id in s2.blocks && s2.blocks[id] == s.blocks[id] {
      assert id in refs + more;
    }
  }

  /** Pushing blocks one after the other stores all of them, counts all of them and keeps the rest. */
  lemma {:induction false} PushAllStores(s: Store, bs: seq<string>, refs: multiset<int>, h: HashFn)
    requires StoreInv(s, refs, h) && HashOk(h) && FirstTens(s.recs, 0) < |s.recs|
    requires (forall k :: 0 <= k < |bs| ==> IsBlock(bs[k])) && PushesSafe(s, bs, h)
    ensures var (s', ids) := PushAll(s, bs, h);
            && |ids| == |bs| && StoreInv(s', refs + multiset(ids), h) && Kept(s, s', refs)
            && forall k :: 0 <= k < |bs| ==> ids[k] in s'.blocks && s'.blocks[ids[k]] == bs[k]
    decreases |bs|
  {
    hide StoreInv, Kept, IsBlock, PushSafe, Push, PushAll;
    if bs == [] {
      PushAllNone(s, h);
      assert refs + multiset([]) == refs;
      ExtendedKeeps(s, s, refs, h);
    } else {
      var (s1, id) := Push(s, bs[0], h);
      PushIff(s, bs[0], refs, h);
      PushAllStep(s, bs, h);
      PushAllStores(s1, bs[1..], refs + multiset{id}, h);
      var (s', rest) := PushAll(s1, bs[1..], h);
      OneMore(refs, id, rest);
      KeptTransitive(s, s1, s', refs, multiset{id});
      KeptOne(s1, s', refs + multiset{id}, id);
      forall k | 0 < k < |bs| ensures ([id] + rest)[k] in s'.blocks && s'.blocks[([id] + rest)[k]] == bs[k] {
        assert bs[k] == bs[1..][k - 1];
      }
    }
  }

  lemma OneMore(refs: multiset<int>, id: int, rest: seq<int>)
    ensures refs + multiset{id} + multiset(rest) == refs + multiset([id] + rest)
  {
  }

  lemma KeptOne(s: Store, s': Store, refs: multiset<int>, id: int)
    requires Kept(s, s', refs) && id in refs
    ensures id in s.blocks && id in s'.blocks && s'.blocks[id] == s.blocks[id]
  {
  }

  // ---------- when every push is safe ----------

  /** References counted under a hash. */
  function Counted(recs: seq<Record>, hash: string): int
  {
    var k := FindHash(recs, hash, 0);
    if k < |recs| then recs[k].count else 0
  }

  function Hashes(bs: seq<string>, h: HashFn): (hs: seq<string>)
    ensures |hs| == |bs|
    ensures forall k :: 0 <= k < |bs| ==> hs[k] == h(bs[k])
  {
    seq(|bs|, i requires 0 <= i < |bs| => h(bs[i]))
  }

  /** No block ends up with more than nine references. */
  ghost predicate AtMostNine(s: Store, bs: seq<string>, h: HashFn)
  {
    forall x :: Counted(s.recs, x) + multiset(Hashes(bs, h))[x] <= 9
  }

  /** Among the stored and the new blocks, different data has different hashes, none of them twenty zeros. */
  ghost predicate NoCollision(s: Store, bs: seq<string>, h: HashFn)
  {
    && (forall k :: 0 <= k < |bs| ==> h(bs[k]) != NO_HASH)
    && (forall j, k :: 0 <= j < |bs| && 0 <= k < |bs| && h(bs[j]) == h(bs[k]) ==> bs[j] == bs[k])
    && (forall i, k :: 0 <= i < |s.recs| && 0 <= k < |bs| && s.recs[i].count > 0 && s.recs[i].hash == h(bs[k]) ==>
         i + 1 in s.blocks && s.blocks[i + 1] == bs[k])
  }

  lemma CountedIs(recs: seq<Record>, i: int)
    requires LedgerOk(recs) && 0 <= i < |recs|
    ensures Counted(recs, recs[i].hash) == recs[i].count
  {
    var k := FindHash(recs, recs[i].hash, 0);
    assert k == i;
  }

  lemma NotCounted(recs: seq<Record>, x: string)
    requires forall i :: 0 <= i < |recs| ==> recs[i].hash != x
    ensures Counted(recs, x) == 0
  {
  }

  lemma CountedBump(r: seq<Record>, k: int, x: string)
    requires LedgerOk(r) && 0 <= k < |r|
    requires LedgerOk(r[k := r[k].(count := r[k].count + 1)])
    ensures Counted(r[k := r[k].(count := r[k].count + 1)], x) == Counted(r, x) + if x == r[k].hash then 1 else 0
  {
    hide Counted, LedgerOk;
    var r' := r[k := r[k].(count := r[k].count + 1)];
    var i := FindHash(r, x, 0);
    if i < |r| {
      CountedIs(r, i);
      CountedIs(r', i);
      CountedIs(r, k);
      CountedIs(r', k);
    } else {
      NotCounted(r, x);
      NotCounted(r', x);
    }
  }

  lemma CountedTaken(r: seq<Record>, j: nat, hash: string, x: string)
    requires LedgerOk(r) && j < |r| && r[j].count == 0 && LedgerOk(Taken(r, j, hash))
    requires forall i :: 0 <= i < |r| ==> r[i].hash != hash
    ensures Counted(Taken(r, j, hash), x) == Counted(r, x) + if x == hash then 1 else 0
  {
    var t := Taken(r, j, hash);
    assert forall i :: 0 <= i < |r| ==> t[i] == if i == j then r[j].(hash := hash, count := 1) else r[i];
    assert |t| > |r| ==> t[|r|].hash == NO_HASH && t[|r|].count == 0 && j == |r| - 1;
    LedgerFacts(r, |r| - 1);
    hide Counted, LedgerOk, Taken;
    var i := FindHash(r, x, 0);
    if x == hash {
      NotCounted(r, x);
      CountedIs(t, j);
    } else if i < |r| && i != j {
      CountedIs(r, i);
      CountedIs(t, i);
    } else {
      if i < |r| { CountedIs(r, i); } else { NotCounted(r, x); }
      if |t| > |r| && x == NO_HASH { CountedIs(t, |r|); } else { OnlyTaken(r, j, hash, x); NotCounted(t, x); }
    }
  }

  lemma OnlyTaken(r: seq<Record>, j: nat, hash: string, x: string)
    requires LedgerOk(r) && j < |r| && x != hash && (j == |r| - 1 ==> x != NO_HASH)
    requires forall i :: 0 <= i < |r| && i != j ==> r[i].hash != x
    ensures forall i :: 0 <= i < |Taken(r, j, hash)| ==> Taken(r, j, hash)[i].hash != x
  {
  }

  /** A push counts one reference more under its block's hash, and nothing else. */
  lemma CountedAfterPush(s: Store, b: string, refs: multiset<int>, h: HashFn, x: string)
    requires StoreInv(s, refs, h) && HashOk(h) && IsBlock(b) && FirstTens(s.recs, 0) < |s.recs| && PushSafe(s, b, h)
    ensures Counted(Push(s, b, h).0.recs, x) == Counted(s.recs, x) + if x == h(b) then 1 else 0
  {
    hide StoreInv, LedgerOk, Counted, Taken, Push, PushSafe, IsBlock;
    PushedRecords(s, b, refs, h);
    var k := FindHash(s.recs, h(b), 0);
    if k < |s.recs| {
      CountedBump(s.recs, k, x);
    } else {
      CountedTaken(s.recs, FirstTens(s.recs, 0), h(b), x);
    }
  }

  /** The records a safe push leaves. */
  lemma PushedRecords(s: Store, b: string, refs: multiset<int>, h: HashFn)
    requires StoreInv(s, refs, h) && HashOk(h) && IsBlock(b) && FirstTens(s.recs, 0) < |s.recs| && PushSafe(s, b, h)
    ensures LedgerOk(s.recs) && LedgerOk(Push(s, b, h).0.recs)
    ensures var k, j := FindHash(s.recs, h(b), 0), FirstTens(s.recs, 0);
            if k < |s.recs| then Push(s, b, h).0.recs == s.recs[k := s.recs[k].(count := s.recs[k].count + 1)]
            else Push(s, b, h).0.recs == Taken(s.recs, j, h(b)) && s.recs[j].count == 0
  {
    hide StoreInv, LedgerOk, CountsExact, BlocksOk, Taken, Push, IsBlock, Kept;
    PushIff(s, b, refs, h);
    StoreInvParts(s, refs, h);
    StoreInvParts(Push(s, b, h).0, refs + multiset{Push(s, b, h).1}, h);
    RecordsPushed(s, b, h);
  }

  lemma RecordsPushed(s: Store, b: string, h: HashFn)
    requires LedgerOk(s.recs) && FirstTens(s.recs, 0) < |s.recs| && PushSafe(s, b, h)
    ensures var k, j := FindHash(s.recs, h(b), 0), FirstTens(s.recs, 0);
            if k < |s.recs| then Push(s, b, h).0.recs == s.recs[k := s.recs[k].(count := s.recs[k].count + 1)]
            else Push(s, b, h).0.recs == Taken(s.recs, j, h(b)) && s.recs[j].count == 0
  {
    hide Taken, LedgerOk;
    var k := FindHash(s.recs, h(b), 0);
    if k < |s.recs| { LedgerFacts(s.recs, k); }
  }

  // ---------- room in the ledger: the names in play ----------

  ghost function HashSet(bs: seq<string>, h: HashFn): set<string>
  {
    set k | 0 <= k < |bs| :: h(bs[k])
  }

  /** The hashes the ledger holds besides its sentinel's. */
  ghost function NamesOf(recs: seq<Record>): set<string>
  {
    set i | 0 <= i < |recs| - 1 :: recs[i].hash
  }

  /** The ledger and the blocks to come need fewer than 999 names. */
  ghost predicate PushesNamed(recs: seq<Record>, bs: seq<string>, h: HashFn, names: set<string>)
  {
    NamesOf(recs) <= names && HashSet(bs, h) <= names && |names| < 999
  }

  lemma {:induction false} AtMostSo<T>(xs: seq<T>, s: set<T>)
    requires forall x :: x in s ==> x in xs
    ensures |s| <= |xs|
  {
    if xs != [] {
      var rest := s - {xs[0]};
      AtMostSo(xs[1..], rest);
      assert s <= rest + {xs[0]};
      SubsetSize(s, rest + {xs[0]});
    }
  }

  lemma SubsetSize<T>(a: set<T>, b: set<T>)
    requires a <= b
    ensures |a| <= |b|
  {
    assert b == a + (b - a);
  }

  lemma FewNames(recs: seq<Record>, bs: seq<string>, h: HashFn)
    requires 1 <= |recs| && |recs| + |bs| < 1000
    ensures PushesNamed(recs, bs, h, NamesOf(recs) + HashSet(bs, h))
  {
    var names := seq(|recs| - 1, i requires 0 <= i < |recs| => recs[i].hash);
    var hashes := Hashes(bs, h);
    forall x | x in NamesOf(recs) + HashSet(bs, h) ensures x in names + hashes {
      if x in NamesOf(recs) {
        var i :| 0 <= i < |recs| - 1 && x == recs[i].hash;
        assert names[i] == x;
      } else {
        var k :| 0 <= k < |bs| && x == h(bs[k]);
        assert hashes[k] == x;
      }
    }
    AtMostSo(names + hashes, NamesOf(recs) + HashSet(bs, h));
  }

  /** Different records have different names. */
  lemma {:induction false} DistinctNames(recs: seq<Record>, n: int)
    requires 0 <= n <= |recs| && forall i, j :: 0 <= i < j < |recs| ==> recs[i].hash != recs[j].hash
    ensures |set i | 0 <= i < n :: recs[i].hash| == n
    decreases n
  {
    if n > 0 {
      DistinctNames(recs, n - 1);
      var s := set i | 0 <= i < n - 1 :: recs[i].hash;
      assert recs[n - 1].hash !in s;
      assert (set i | 0 <= i < n :: recs[i].hash) == s + {recs[n - 1].hash};
    }
  }

  /** A name the ledger does not hold leaves room for its record. */
  lemma RoomForName(recs: seq<Record>, x: string, names: set<string>)
    requires LedgerOk(recs) && NamesOf(recs) <= names && x in names && |names| < 999
    requires forall i :: 0 <= i < |recs| ==> recs[i].hash != x
    ensures |recs| < 999
  {
    DistinctNames(recs, |recs| - 1);
    assert NamesOf(recs) <= names - {x};
    SubsetSize(NamesOf(recs), names - {x});
  }

  lemma PushSafeWhenModest(s: Store, bs: seq<string>, refs: multiset<int>, h: HashFn, names: set<string>)
    requires StoreInv(s, refs, h) && HashOk(h) && FirstTens(s.recs, 0) < |s.recs| && bs != []
    requires AtMostNine(s, bs, h) && NoCollision(s, bs, h) && PushesNamed(s.recs, bs, h, names)
    ensures PushSafe(s, bs[0], h)
  {
    hide BlocksOk, CountsExact, StoreInv, NoCollision, AtMostNine, LedgerOk, Counted, Hashes, NamesOf;
    StoreInvParts(s, refs, h);
    FirstDistinguished(s, bs, h);
    var j := FirstTens(s.recs, 0);
    CountedIs(s.recs, j);
    CountedBound(s, bs, h, s.recs[j].hash);
    LedgerFacts(s.recs, j);
    var k := FindHash(s.recs, h(bs[0]), 0);
    if k < |s.recs| {
      CountedIs(s.recs, k);
      CountedBound(s, bs, h, s.recs[k].hash);
      LedgerFacts(s.recs, k);
    } else {
      assert h(bs[0]) in HashSet(bs, h);
      RoomForName(s.recs, h(bs[0]), names);
    }
  }

  lemma NamedAfterPush(s: Store, bs: seq<string>, h: HashFn, names: set<string>)
    requires InOrder(s.recs) && FirstTens(s.recs, 0) < |s.recs| && bs != [] && PushesNamed(s.recs, bs, h, names)
    ensures PushesNamed(Push(s, bs[0], h).0.recs, bs[1..], h, names)
  {
    hide InOrder, Push;
    PushMoves(s, bs[0], h);
    var (s1, id) := Push(s, bs[0], h);
    var t := bs[1..];
    forall x | x in NamesOf(s1.recs) ensures x in names {
      var i :| 0 <= i < |s1.recs| - 1 && x == s1.recs[i].hash;
      if i == id - 1 { assert bs[0] == bs[0] && x in HashSet(bs, h); } else { assert x in NamesOf(s.recs); }
    }
    forall x | x in HashSet(t, h) ensures x in names {
      var k :| 0 <= k < |t| && x == h(t[k]);
      assert bs[k + 1] == t[k];
      assert x in HashSet(bs, h);
    }
  }

  lemma CountedBound(s: Store, bs: seq<string>, h: HashFn, x: string)
    requires AtMostNine(s, bs, h)
    ensures Counted(s.recs, x) <= 9
  {
    assert Counted(s.recs, x) + multiset(Hashes(bs, h))[x] <= 9;
  }

  lemma FirstDistinguished(s: Store, bs: seq<string>, h: HashFn)
    requires NoCollision(s, bs, h) && bs != []
    ensures h(bs[0]) != NO_HASH
    ensures forall i :: 0 <= i < |s.recs| && s.recs[i].count > 0 && s.recs[i].hash == h(bs[0]) ==>
              i + 1 in s.blocks && s.blocks[i + 1] == bs[0]
  {
  }

  lemma StoreInvParts(s: Store, refs: multiset<int>, h: HashFn)
    requires StoreInv(s, refs, h)
    ensures LedgerOk(s.recs) && CountsExact(s.recs, refs) && BlocksOk(s, h)
  {
  }

  lemma HashesTail(bs: seq<string>, h: HashFn)
    requires bs != []
    ensures multiset(Hashes(bs, h)) == multiset{h(bs[0])} + multiset(Hashes(bs[1..], h))
  {
    assert Hashes(bs, h) == [h(bs[0])] + Hashes(bs[1..], h);
  }

  lemma ModestAfterPush(s: Store, bs: seq<string>, refs: multiset<int>, h: HashFn)
    requires StoreInv(s, refs, h) && HashOk(h) && FirstTens(s.recs, 0) < |s.recs| && bs != []
    requires IsBlock(bs[0]) && PushSafe(s, bs[0], h) && AtMostNine(s, bs, h)
    ensures AtMostNine(Push(s, bs[0], h).0, bs[1..], h)
  {
    hide StoreInv, Push, PushSafe, IsBlock, Counted;
    HashesTail(bs, h);
    var s1 := Push(s, bs[0], h).0;
    forall x ensures Counted(s1.recs, x) + multiset(Hashes(bs[1..], h))[x] <= 9 {
      CountedAfterPush(s, bs[0], refs, h, x);
      assert Counted(s.recs, x) + multiset(Hashes(bs, h))[x] <= 9;
    }
  }

  lemma NoCollisionAfterPush(s: Store, bs: seq<string>, refs: multiset<int>, h: HashFn)
    requires StoreInv(s, refs, h) && HashOk(h) && FirstTens(s.recs, 0) < |s.recs| && bs != []
    requires IsBlock(bs[0]) && PushSafe(s, bs[0], h) && NoCollision(s, bs, h)
    ensures NoCollision(Push(s, bs[0], h).0, bs[1..], h)
    ensures |Push(s, bs[0], h).0.recs| <= |s.recs| + 1
  {
    hide StoreInv, Push, PushSafe, IsBlock, Kept, InOrder, NoCollision;
    PushIff(s, bs[0], refs, h);
    InOrderWhenSound(s, refs, h);
    PushMoves(s, bs[0], h);
    NoCollisionMoved(s, bs, h, Push(s, bs[0], h).0, Push(s, bs[0], h).1);
  }

  lemma NoCollisionMoved(s: Store, bs: seq<string>, h: HashFn, s1: Store, id: int)
    requires NoCollision(s, bs, h) && bs != [] && 1 <= id <= |s.recs| <= |s1.recs| <= |s.recs| + 1
    requires forall i :: 0 <= i < |s.recs| && i != id - 1 ==> s1.recs[i] == s.recs[i]
    requires |s1.recs| > |s.recs| ==> s1.recs[|s.recs|].count == 0
    requires s1.blocks == s.blocks || s1.blocks == s.blocks[id := bs[0]]
    requires s1.recs[id - 1].hash == h(bs[0]) && id in s1.blocks && s1.blocks[id] == bs[0]
    ensures NoCollision(s1, bs[1..], h)
  {
    var t := bs[1..];
    assert forall k :: 0 <= k < |t| ==> t[k] == bs[k + 1];
    forall i, k | 0 <= i < |s1.recs| && 0 <= k < |t| && s1.recs[i].count > 0 && s1.recs[i].hash == h(t[k])
      ensures i + 1 in s1.blocks && s1.blocks[i + 1] == t[k]
    {
      if i != id - 1 {
        assert s1.recs[i] == s.recs[i];
        assert s.blocks[i + 1] == bs[k + 1];
      }
    }
  }

  /** A run of pushes is safe as long as no block gets more than nine references, no hashes collide and the
      ledger has room for the names in play. */
  lemma {:induction false} ModestPushesSafe(
    s: Store, bs: seq<string>, refs: multiset<int>, h: HashFn, names: set<string>)
    requires StoreInv(s, refs, h) && HashOk(h) && FirstTens(s.recs, 0) < |s.recs|
    requires forall k :: 0 <= k < |bs| ==> IsBlock(bs[k])
    requires AtMostNine(s, bs, h) && NoCollision(s, bs, h) && PushesNamed(s.recs, bs, h, names)
    ensures PushesSafe(s, bs, h)
    decreases |bs|
  {
    hide StoreInv, Push, PushSafe, IsBlock, AtMostNine, NoCollision, PushesNamed, InOrder, LedgerOk;
    if bs != [] {
      PushSafeWhenModest(s, bs, refs, h, names);
      PushIff(s, bs[0], refs, h);
      ModestAfterPush(s, bs, refs, h);
      NoCollisionAfterPush(s, bs, refs, h);
      InOrderWhenSound(s, refs, h);
      NamedAfterPush(s, bs, h, names);
      var (s1, id) := Push(s, bs[0], h);
      StoreInvParts(s1, refs + multiset{id}, h);
      SentinelFound(s1.recs);
      ModestPushesSafe(s1, bs[1..], refs + multiset{id}, h, names);
    }
  }

  /** The search for a free record only looks at the counter's last digit: a record with ten, twenty, ...
      references is taken over by a new block, and every file that refers to it reads the new data. */
  lemma ReferencedRecordTakenOver(s: Store, b: string, refs: multiset<int>, h: HashFn)
    requires StoreInv(s, refs, h) && IsBlock(b) && FirstTens(s.recs, 0) < |s.recs|
    requires FindHash(s.recs, h(b), 0) == |s.recs| && s.recs[FirstTens(s.recs, 0)].count > 0
    ensures var (s', id) := Push(s, b, h);
            && id in refs && refs[id] % 10 == 0 && id in s.blocks && id in s'.blocks
            && s'.blocks[id] == b != s.blocks[id]
            && s'.recs[id - 1].count == 1
  {
    var j := FirstTens(s.recs, 0);
    assert s.recs[j].count == refs[j + 1];
  }

  // ---------- removeBlocks ----------

  function Remove(s: Store, id: int): Store
    requires 1 <= id <= |s.recs|
  {
    var c := s.recs[id - 1].count - 1;
    Store(if c >= 0 then s.recs[id - 1 := s.recs[id - 1].(count := c)] else s.recs,
          if c == 0 then s.blocks - {id} else s.blocks)
  }

  /** Removing one reference takes exactly it off the count, and the block file with the last one. */
  lemma RemoveCounts(s: Store, id: int, refs: multiset<int>, h: HashFn)
    requires StoreInv(s, refs, h) && id in refs
    ensures 1 <= id <= |s.recs|
    ensures StoreInv(Remove(s, id), refs - multiset{id}, h) && Kept(s, Remove(s, id), refs - multiset{id})
    ensures s.recs[id - 1].count == 1 ==> id in s.blocks
  {
    hide Kept, LedgerOk, CountsExact, BlocksOk;
    ReferencedBlock(s, refs, h, id);
    LedgerFacts(s.recs, id - 1);
    CountDown(s.recs, id - 1, refs);
    RemovedBlocks(s, id, h);
    RemoveKeeps(s, id, refs, h);
  }

  lemma CountDown(recs: seq<Record>, k: int, refs: multiset<int>)
    requires LedgerOk(recs) && CountsExact(recs, refs) && 0 <= k < |recs| && recs[k].count > 0
    ensures var recs' := recs[k := recs[k].(count := recs[k].count - 1)];
            LedgerOk(recs') && CountsExact(recs', refs - multiset{k + 1})
  {
  }

  lemma RemovedBlocks(s: Store, id: int, h: HashFn)
    requires BlocksOk(s, h) && 1 <= id <= |s.recs| && s.recs[id - 1].count > 0
    ensures BlocksOk(Remove(s, id), h)
  {
  }

  lemma RemoveKeeps(s: Store, id: int, refs: multiset<int>, h: HashFn)
    requires StoreInv(s, refs, h) && id in refs && 1 <= id <= |s.recs|
    ensures Kept(s, Remove(s, id), refs - multiset{id})
  {
    var s', refs' := Remove(s, id), refs - multiset{id};
    forall r | r in refs' ensures r in s.blocks && r in s'.blocks && s'.blocks[r] == s.blocks[r] {
      assert r in refs;
      ReferencedBlock(s, refs, h, r);
      assert r == id ==> refs[id] >= 2;
    }
  }

  predicate ValidIds(s: Store, ids: seq<int>)
  {
    forall k :: 0 <= k < |ids| ==> 1 <= ids[k] <= |s.recs|
  }

  function RemoveAll(s: Store, ids: seq<int>): Store
    requires ValidIds(s, ids)
    decreases |ids|
  {
    if ids == [] then s else RemoveAll(Remove(s, ids[0]), ids[1..])
  }

  lemma RemoveAllNone(s: Store)
    ensures RemoveAll(s, []) == s
  {
  }

  lemma RemoveAllStep(s: Store, ids: seq<int>)
    requires ids != [] && ValidIds(s, ids)
    ensures 1 <= ids[0] <= |s.recs|
    ensures ValidIds(Remove(s, ids[0]), ids[1..])
    ensures RemoveAll(s, ids) == RemoveAll(Remove(s, ids[0]), ids[1..])
  {
  }

  lemma {:induction false} RemoveAllCounts(s: Store, ids: seq<int>, refs: multiset<int>, h: HashFn)
    requires StoreInv(s, refs, h) && multiset(ids) <= refs
    ensures ValidIds(s, ids)
    ensures StoreInv(RemoveAll(s, ids), refs - multiset(ids), h)
    ensures Kept(s, RemoveAll(s, ids), refs - multiset(ids))
    decreases |ids|
  {
    hide StoreInv, Kept, Remove;
    if ids == [] {
      assert refs - multiset([]) == refs;
      ExtendedKeeps(s, s, refs, h);
    } else {
      assert ids == [ids[0]] + ids[1..];
      assert ids[0] in multiset(ids);
      RemoveCounts(s, ids[0], refs, h);
      var s1, refs1 := Remove(s, ids[0]), refs - multiset{ids[0]};
      assert multiset(ids[1..]) <= refs1;
      RemoveAllCounts(s1, ids[1..], refs1, h);
      assert |s1.recs| == |s.recs| by { RemoveSize(s, ids[0]); }
      var refs2 := refs1 - multiset(ids[1..]);
      assert refs2 == refs - multiset(ids);
      assert refs1 == refs2 + multiset(ids[1..]);
      KeptTransitiveDown(s, s1, RemoveAll(s, ids), refs1, refs2);
    }
  }

  lemma RemoveSize(s: Store, id: int)
    requires 1 <= id <= |s.recs|
    ensures |Remove(s, id).recs| == |s.recs|
  {
  }

  lemma KeptTransitiveDown(s: Store, s1: Store, s2: Store, refs1: multiset<int>, refs2: multiset<int>)
    requires Kept(s, s1, refs1) && Kept(s1, s2, refs2) && refs2 <= refs1
    ensures Kept(s, s2, refs2)
  {
    forall id | id in refs2 ensures id in s.blocks && id in s2.blocks && s2.blocks[id] == s.blocks[id] {
      assert id in refs1;
    }
  }
}
