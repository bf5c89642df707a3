/** How the scheduler accounts for the time its tasks are on the processor. */
module SchedAccounts {
  import opened SchedMath
  import opened SchedRing

  const NS_PER_JIFFY := 10_000_000
  const TIMESLICE := 50

  /** hw2/src/sjf picks by the estimate alone, hw2/src/sjf-goodness by the goodness. */
  datatype Policy = Sjf | SjfGoodness

  /** How the time a task was on the processor was accounted for: the bursts schedule() committed when it
      switched the task out, oldest first; all of the time; the part of it that was never charged; and when
      the task last got the processor.  With them, when it was last queued or judged, and the ticks its time
      slice has left. */
  datatype Account = Account(history: seq<int>, held: int, lost: int, cpuOwned: int, queued: int, slice: int)

  /** One call of schedule(): the task it found on the processor, the one it chose, and how many were queued. */
  datatype Turn = NoTurn | Turn(from: Task, to: Task, ready: int)

  /** The account of a task forked at jiffy `at`. */
  ghost function NewAccount(at: int): Account
  {
    Account([], 0, 0, 0, at * NS_PER_JIFFY, TIMESLICE)
  }

  /** What a call of schedule() at jiffy `at` makes of a task's account.  The task that loses the processor is
      charged for the stretch since it got it, modulo 2^32, and gets a new slice, but only if two tasks besides
      init were ready; otherwise the stretch is lost, and so it is when the only task ready gets the processor
      again. */
  ghost function Settle(a: Account, t: Task, turn: Turn, at: int): Account
  {
    var now := at * NS_PER_JIFFY;
    if turn.NoTurn? then a
    else if t == turn.from && turn.ready < 3 then
      a.(lost := a.lost + now - a.cpuOwned, cpuOwned := if t == turn.to then now else a.cpuOwned)
    else if t == turn.from && t != turn.to then
      var burst := (now - a.cpuOwned) % U32;
      a.(history := a.history + [burst], lost := a.lost + now - a.cpuOwned - burst, queued := now, slice := TIMESLICE)
    else if t == turn.from then a.(queued := now)
    else if t == turn.to then a.(cpuOwned := now)
    else a
  }

  ghost function Settled(books: map<Task, Account>, turn: Turn, at: int): map<Task, Account>
  {
    map t | t in books :: Settle(books[t], t, turn, at)
  }

  /** A task's account when it is judged; other tasks have none. */
  ghost function Judged(books: map<Task, Account>, c: Task, at: int): map<Task, Account>
  {
    if c in books then books[c := books[c].(queued := at * NS_PER_JIFFY)] else books
  }

  /** A task's account when its burst is charged. */
  ghost function WithBurst(books: map<Task, Account>, c: Task, at: int): map<Task, Account>
  {
    if c !in books then books
    else
      var a, stretch := books[c], at * NS_PER_JIFFY - books[c].cpuOwned;
      books[c := a.(history := a.history + [stretch % U32], lost := a.lost + stretch - stretch % U32,
                    slice := TIMESLICE)]
  }

  /** A task's account when its stretch begins. */
  ghost function WithStretch(books: map<Task, Account>, c: Task, at: int): map<Task, Account>
  {
    if c in books then books[c := books[c].(cpuOwned := at * NS_PER_JIFFY)] else books
  }

  lemma SettledInSteps(books: map<Task, Account>, c: Task, chosen: Task, ready: int, at: int)
    requires chosen in books && ready >= 3
    ensures Settled(books, Turn(c, chosen, ready), at)
            == if c == chosen then Judged(books, c, at)
               else WithStretch(WithBurst(Judged(books, c, at), c, at), chosen, at)
  {
  }

  /** One jiffy passes while `c` is on the processor. */
  ghost function Clocked(books: map<Task, Account>, c: Task): map<Task, Account>
  {
    if c in books then books[c := books[c].(held := books[c].held + NS_PER_JIFFY)] else books
  }

  /** One tick of c's time slice; a used-up slice is renewed. */
  ghost function CountedDown(books: map<Task, Account>, c: Task): map<Task, Account>
  {
    if c in books
    then books[c := books[c].(slice := if books[c].slice == 1 then TIMESLICE else books[c].slice - 1)]
    else books
  }

  /** The tasks of `l` join the run queue at jiffy `at`. */
  ghost function Woken(books: map<Task, Account>, l: seq<Task>, at: int): map<Task, Account>
  {
    map t | t in books :: if t in l then books[t].(queued := at * NS_PER_JIFFY) else books[t]
  }

  lemma WokenNone(books: map<Task, Account>, at: int)
    ensures Woken(books, [], at) == books
  {
  }

  lemma WokenStep(books: map<Task, Account>, l: seq<Task>, i: int, at: int)
    requires 0 <= i < |l|
    ensures Woken(Woken(books, l[..i], at), [l[i]], at) == Woken(books, l[..i + 1], at)
  {
    assert l[..i + 1] == l[..i] + [l[i]];
  }

  /** The tasks of `l` are forked at jiffy `at`. */
  ghost function Opened(books: map<Task, Account>, l: seq<Task>, at: int): map<Task, Account>
  {
    map t | t in books.Keys + (set t | t in l) :: if t in l then NewAccount(at) else books[t]
  }

  lemma OpenedNone(books: map<Task, Account>, at: int)
    ensures Opened(books, [], at) == books
  {
  }

  lemma OpenedOne(books: map<Task, Account>, t: Task, at: int)
    ensures Opened(books, [t], at) == books[t := NewAccount(at)]
  {
  }

  lemma OpenedTwice(books: map<Task, Account>, l: seq<Task>, m: seq<Task>, at: int)
    ensures Opened(Opened(books, l, at), m, at) == Opened(books, l + m, at)
  {
  }

  /** Time on the processor that is neither charged nor lost nor part of the present stretch. */
  ghost function Unexplained(a: Account, running: bool, at: int): int
  {
    a.held - Total(a.history) - a.lost - if running then at * NS_PER_JIFFY - a.cpuOwned else 0
  }

  /** schedule() explains every stretch it ends. */
  lemma SettleExplains(a: Account, t: Task, turn: Turn, at: int)
    requires turn.Turn?
    ensures Unexplained(Settle(a, t, turn, at), t == turn.to, at) == Unexplained(a, t == turn.from, at)
  {
    TotalStep(a.history, (at * NS_PER_JIFFY - a.cpuOwned) % U32);
  }

  /** When schedule() loses time: exactly when it finds the task on the processor for some time with at most one
      task ready, or takes it off after 2^32 nanoseconds or more. */
  lemma LostIff(a: Account, t: Task, turn: Turn, at: int)
    requires turn.Turn? && a.cpuOwned <= at * NS_PER_JIFFY
    ensures Settle(a, t, turn, at).lost >= a.lost
    ensures Settle(a, t, turn, at).lost > a.lost <==>
              && t == turn.from
              && if turn.ready < 3 then a.cpuOwned < at * NS_PER_JIFFY
                 else t != turn.to && at * NS_PER_JIFFY - a.cpuOwned >= U32
  {
  }

  // ---------- the policy's choice ----------

  /** The estimate schedule() judges a ready task by: the average over its bursts, which for the task it finds
      on the processor include the present stretch. */
  ghost function EstimateIn(books: map<Task, Account>, t: Task, from: Task, at: int): (e: int)
    ensures 0 <= e < U32
  {
    if t !in books || !Bursts(books[t].history) then 0
    else if t == from then Estimate(books[t].history + [(at * NS_PER_JIFFY - books[t].cpuOwned) % U32])
    else Estimate(books[t].history)
  }

  /** How long a ready task has waited; the one on the processor has not. */
  ghost function WaitIn(books: map<Task, Account>, t: Task, from: Task, at: int): (wait: int)
    ensures wait >= 0
  {
    if t !in books || t == from || at * NS_PER_JIFFY < books[t].queued then 0
    else at * NS_PER_JIFFY - books[t].queued
  }

  ghost function GoodnessIn(books: map<Task, Account>, t: Task, from: Task, at: int, minExp: int, maxWait: int): int
    requires 0 <= minExp < U32 && 0 <= maxWait
  {
    Goodness(EstimateIn(books, t, from, at), WaitIn(books, t, from, at), minExp, maxWait)
  }

  /** The `k`-th task of the ring is the first of least estimate. */
  ghost predicate LeastEstimateIn(ring: seq<Task>, books: map<Task, Account>, from: Task, at: int, k: int)
  {
    && 1 <= k < |ring|
    && forall j :: 1 <= j < |ring| ==>
         && EstimateIn(books, ring[k], from, at) <= EstimateIn(books, ring[j], from, at)
         && (j < k ==> EstimateIn(books, ring[k], from, at) < EstimateIn(books, ring[j], from, at))
  }

  /** The least estimate and the longest wait among the ready tasks. */
  ghost predicate ExtremesIn(ring: seq<Task>, books: map<Task, Account>, from: Task, at: int, minExp: int,
                             maxWait: int)
  {
    && 0 <= minExp < U32 && 0 <= maxWait
    && (exists j :: 1 <= j < |ring| && EstimateIn(books, ring[j], from, at) == minExp)
    && (forall j :: 1 <= j < |ring| ==> minExp <= EstimateIn(books, ring[j], from, at))
    && (exists j :: 1 <= j < |ring| && WaitIn(books, ring[j], from, at) == maxWait)
    && (forall j :: 1 <= j < |ring| ==> WaitIn(books, ring[j], from, at) <= maxWait)
  }

  /** The `k`-th task of the ring is the first of least goodness. */
  ghost predicate LeastGoodnessIn(ring: seq<Task>, books: map<Task, Account>, from: Task, at: int, k: int, minExp: int,
                                  maxWait: int)
    requires 0 <= minExp < U32 && 0 <= maxWait
  {
    && 1 <= k < |ring|
    && forall j :: 1 <= j < |ring| ==>
         && GoodnessIn(books, ring[k], from, at, minExp, maxWait)
            <= GoodnessIn(books, ring[j], from, at, minExp, maxWait)
         && (j < k ==> GoodnessIn(books, ring[k], from, at, minExp, maxWait)
                       < GoodnessIn(books, ring[j], from, at, minExp, maxWait))
  }

  /** The policy picks the `k`-th task of the ring. */
  ghost predicate PicksIn(policy: Policy, ring: seq<Task>, books: map<Task, Account>, from: Task, at: int, k: int,
                          minExp: int, maxWait: int)
  {
    if policy == Sjf then LeastEstimateIn(ring, books, from, at, k)
    else ExtremesIn(ring, books, from, at, minExp, maxWait)
         && LeastGoodnessIn(ring, books, from, at, k, minExp, maxWait)
  }

  /** schedule() gives the processor to the right task: to init if nothing else is ready, to the only ready task,
      or to the one the policy picks. */
  ghost predicate Chosen(policy: Policy, ring: seq<Task>, books: map<Task, Account>, turn: Turn, at: int)
  {
    && turn.Turn? && turn.ready == |ring| && ring != []
    && if |ring| == 1 then turn.to == ring[0]
       else if |ring| == 2 then turn.to == ring[1]
       else exists k, minExp, maxWait ::
              PicksIn(policy, ring, books, turn.from, at, k, minExp, maxWait) && turn.to == ring[k]
  }

  lemma ChosenIsReady(policy: Policy, ring: seq<Task>, books: map<Task, Account>, turn: Turn, at: int)
    ensures Chosen(policy, ring, books, turn, at) ==> turn.to in ring
  {
  }

  /** The choice leaves nothing open. */
  lemma OneChoice(policy: Policy, ring: seq<Task>, books: map<Task, Account>, turn: Turn, other: Turn, at: int)
    requires Chosen(policy, ring, books, turn, at) && Chosen(policy, ring, books, other, at)
    requires turn.from == other.from
    ensures turn == other
  {
    hide EstimateIn, WaitIn, GoodnessIn;
    if |ring| >= 3 {
      var k, minExp, maxWait :|
        PicksIn(policy, ring, books, turn.from, at, k, minExp, maxWait) && turn.to == ring[k];
      var k', minExp', maxWait' :|
        PicksIn(policy, ring, books, turn.from, at, k', minExp', maxWait') && other.to == ring[k'];
      assert policy == SjfGoodness ==> minExp == minExp' && maxWait == maxWait';
      assert k == k';
    }
  }
}
