/** What one iteration of the main loop does to the processor, the queues and the accounts, on values. */
module SchedDesk {
  import opened SchedMath
  import opened SchedRing
  import opened SchedAccounts

  const HZ := 100
  const TICKS_PER_MS := 500

  /** The task on the processor, the run queue from its head on, the tasks waiting for IO, the time until the
      running task waits for IO, and the accounts. */
  datatype Desk = Desk(current: Task, ring: seq<Task>, waitlist: seq<Task>, waitTimer: int,
                       accounts: map<Task, Account>)

  /** A list of tasks in the order in which enqueuing them one by one leaves them behind the head. */
  ghost function LastFirst(l: seq<Task>): seq<Task>
  {
    if l == [] then [] else [l[|l| - 1]] + LastFirst(l[..|l| - 1])
  }

  /** The ring after the tasks of `l` joined it one by one. */
  ghost function Joined(ring: seq<Task>, l: seq<Task>): seq<Task>
  {
    if ring == [] then [] else [ring[0]] + LastFirst(l) + ring[1..]
  }

  /** The ring without a task. */
  ghost function Less(ring: seq<Task>, t: Task): seq<Task>
  {
    if ring == [] then [] else if ring[0] == t then ring[1..] else [ring[0]] + Less(ring[1..], t)
  }

  lemma {:induction false} LessAt(ring: seq<Task>, k: int)
    requires NoDup(ring) && 0 <= k < |ring|
    ensures Less(ring, ring[k]) == ring[..k] + ring[k + 1..]
  {
    if k > 0 {
      LessAt(ring[1..], k - 1);
      assert ring[..k] + ring[k + 1..] == [ring[0]] + (ring[1..][..k - 1] + ring[1..][k..]);
    }
  }

  lemma {:induction false} LastFirstTwice(l: seq<Task>, m: seq<Task>)
    ensures LastFirst(l + m) == LastFirst(m) + LastFirst(l)
  {
    if m == [] {
      assert l + m == l;
    } else {
      assert (l + m)[..|l + m| - 1] == l + m[..|m| - 1];
      LastFirstTwice(l, m[..|m| - 1]);
    }
  }

  lemma {:induction false} LastFirstKeeps(l: seq<Task>, t: Task)
    ensures t in LastFirst(l) <==> t in l
  {
    if l != [] {
      LastFirstKeeps(l[..|l| - 1], t);
      assert l == l[..|l| - 1] + [l[|l| - 1]];
    }
  }

  lemma JoinedKeeps(ring: seq<Task>, l: seq<Task>, t: Task)
    requires ring != []
    ensures t in Joined(ring, l) <==> t in ring || t in l
    ensures |Joined(ring, l)| >= |ring| && Joined(ring, l)[0] == ring[0]
  {
    LastFirstKeeps(l, t);
    assert ring == [ring[0]] + ring[1..];
  }

  lemma JoinedNone(ring: seq<Task>)
    ensures Joined(ring, []) == ring
  {
  }

  lemma JoinedOne(ring: seq<Task>, t: Task)
    requires ring != []
    ensures Joined(ring, [t]) == [ring[0], t] + ring[1..]
  {
    assert [t][..0] == [];
    assert LastFirst([t]) == [t];
  }

  lemma JoinedTwice(ring: seq<Task>, l: seq<Task>, m: seq<Task>)
    ensures Joined(Joined(ring, l), m) == Joined(ring, l + m)
  {
    LastFirstTwice(l, m);
  }

  // ---------- cycle() ----------

  /** The running task has to wait for IO after this cycle. */
  ghost predicate Sleeps(d: Desk)
  {
    d.current.info.threadType == Interactive && d.waitTimer in {0, 1}
  }

  /** The running task ends and idle stands in for it; or it goes to the end of the wait list; or, if it is
      interactive, it is one tick closer to waiting. */
  ghost function Ran(d: Desk, idle: Task, ended: bool): Desk
  {
    if ended then
      d.(current := idle, ring := Less(d.ring, d.current), accounts := d.accounts - {d.current})
    else if Sleeps(d) then
      d.(ring := Less(d.ring, d.current), waitlist := d.waitlist + [d.current], waitTimer := -1)
    else if d.current.info.threadType == Interactive && d.waitTimer > 1 then d.(waitTimer := d.waitTimer - 1)
    else d
  }

  /** The tasks forked at jiffy `at` join behind the head. */
  ghost function Spawned(d: Desk, forks: seq<Task>, at: int): Desk
  {
    d.(ring := Joined(d.ring, forks), accounts := Opened(d.accounts, forks, at))
  }

  lemma SpawnedNone(d: Desk, at: int)
    ensures Spawned(d, [], at) == d
  {
    JoinedNone(d.ring);
    OpenedNone(d.accounts, at);
  }

  lemma SpawnedTwice(d: Desk, l: seq<Task>, m: seq<Task>, at: int)
    ensures Spawned(Spawned(d, l, at), m, at) == Spawned(d, l + m, at)
  {
    JoinedTwice(d.ring, l, m);
    OpenedTwice(d.accounts, l, m, at);
  }

  // ---------- schedule() ----------

  /** The wait timer after a context switch; `rnd` is what rand() returns. */
  ghost function SwitchTimer(books: map<Task, Account>, next: Task, timer: int, rnd: nat): int
  {
    if next.info.threadType == Interactive && next in books && books[next].slice >= 0
    then TICKS_PER_MS * (rnd % (books[next].slice * HZ / 1000 + 100) + 5) else timer
  }

  /** What is charged does not matter to the chosen task's wait timer. */
  lemma SettledTimer(books: map<Task, Account>, turn: Turn, timer: int, at: int, rnd: nat)
    requires turn.Turn?
    ensures SwitchTimer(Settled(books, turn, at), turn.to, timer, rnd) == SwitchTimer(books, turn.to, timer, rnd)
  {
  }

  /** After a call of schedule(), or without one. */
  ghost function AfterTurn(d: Desk, turn: Turn, at: int, rnd: nat): Desk
  {
    if turn.NoTurn? then d
    else Desk(turn.to, d.ring, d.waitlist, SwitchTimer(d.accounts, turn.to, d.waitTimer, rnd),
              Settled(d.accounts, turn, at))
  }

  /** schedule() is called if and only if `asked`, and finds and chooses the right tasks. */
  ghost predicate TurnOk(policy: Policy, d: Desk, asked: bool, turn: Turn, at: int)
  {
    if asked then turn.Turn? && turn.from == d.current && Chosen(policy, d.ring, d.accounts, turn, at)
    else turn.NoTurn?
  }

  // ---------- interrupt() ----------

  /** A tick takes the processor from init if anything else is ready, and from another task when its slice has
      one tick left. */
  ghost predicate Expires(d: Desk, init: Task)
  {
    if d.current == init then |d.ring| > 1 else d.current in d.accounts && d.accounts[d.current].slice == 1
  }

  lemma ExpiresAnyway(d: Desk, init: Task)
    ensures Expires(d.(accounts := Clocked(d.accounts, d.current)), init) == Expires(d, init)
    ensures d.current == init ==> (Expires(d, init) <==> |d.ring| > 1)
  {
  }

  /** scheduler_tick up to its call of schedule(). */
  ghost function SliceCounted(d: Desk, init: Task): Desk
  {
    if d.current == init then d else d.(accounts := CountedDown(d.accounts, d.current))
  }

  /** The desk when the tick calls schedule() or does not: if a jiffy passed, it went to the running task, which
      has used one tick of its slice. */
  ghost function BeforeTick(d: Desk, init: Task, passed: bool): Desk
  {
    if !passed then d
    else
      var clocked := d.(accounts := Clocked(d.accounts, d.current));
      if d.current in d.ring then SliceCounted(clocked, init) else clocked
  }

  ghost predicate TickOk(policy: Policy, d: Desk, init: Task, passed: bool, turn: Turn, at: int)
  {
    TurnOk(policy, BeforeTick(d, init, passed), passed && d.current in d.ring && Expires(d, init), turn, at)
  }

  /** The IO interrupt, if there is one: everybody who waits rejoins the run queue. */
  ghost function AfterIo(d: Desk, fired: bool, at: int): Desk
  {
    if fired then d.(ring := Joined(d.ring, d.waitlist), waitlist := [], accounts := Woken(d.accounts, d.waitlist, at))
    else d
  }

  // ---------- the main loop ----------

  /** One iteration: whether the running task ended, which tasks were forked, in order; the jiffies before and
      after; the tick's call of schedule(); whether the IO interrupt came; the main loop's call; and what rand()
      returned for the two calls. */
  datatype Round = Round(ended: bool, forks: seq<Task>, from: int, to: int, tick: Turn, fired: bool, main: Turn,
                         rndTick: nat, rndSwitch: nat)

  ghost function Cycled(d: Desk, idle: Task, r: Round): Desk
  {
    Spawned(Ran(d, idle, r.ended), r.forks, r.from)
  }

  ghost function Ticked(d: Desk, init: Task, r: Round): Desk
  {
    AfterTurn(BeforeTick(d, init, r.from < r.to), r.tick, r.to, r.rndTick)
  }

  /** cycle() asks for schedule() if the running task ended or went to sleep, unless it was the last of all, and
      for every task it forks. */
  ghost predicate CycleAsks(d: Desk, init: Task, ended: bool, forks: seq<Task>)
  {
    if ended then d.current != init else Sleeps(d) || forks != []
  }

  /** The main loop is asked for schedule() if cycle() asked for it and the tick has not answered, or if the IO
      interrupt came. */
  ghost predicate MainAsked(d: Desk, init: Task, r: Round)
  {
    || (r.tick.NoTurn? && CycleAsks(d, init, r.ended, r.forks))
    || r.fired
  }

  /** The desk after the first half of an iteration, up to the main loop's call of schedule(). */
  ghost function HalfWay(init: Task, idle: Task, d: Desk, r: Round): Desk
  {
    AfterIo(Ticked(Cycled(d, idle, r), init, r), r.fired, r.to)
  }

  /** In the first half the tick calls schedule() when it has to and gets the right task. */
  ghost predicate FirstHalf(policy: Policy, init: Task, idle: Task, d: Desk, r: Round, woken: Desk)
  {
    TickOk(policy, Cycled(d, idle, r), init, r.from < r.to, r.tick, r.to) && woken == HalfWay(init, idle, d, r)
  }

  /** In the second half the main loop calls schedule() if asked to, unless the queue is empty. */
  ghost predicate SecondHalf(policy: Policy, woken: Desk, asked: bool, main: Turn, at: int, rnd: nat, after: Desk)
  {
    TurnOk(policy, woken, asked && woken.ring != [], main, at) && after == AfterTurn(woken, main, at, rnd)
  }

  /** One iteration takes the desk `d` to `after`. */
  ghost predicate Iterated(policy: Policy, init: Task, idle: Task, d: Desk, r: Round, after: Desk)
  {
    var woken := HalfWay(init, idle, d, r);
    && FirstHalf(policy, init, idle, d, r, woken)
    && SecondHalf(policy, woken, MainAsked(d, init, r), r.main, r.to, r.rndSwitch, after)
  }

  lemma BothHalves(policy: Policy, init: Task, idle: Task, d: Desk, r: Round, woken: Desk, main: Turn, rnd: nat,
                   after: Desk)
    requires FirstHalf(policy, init, idle, d, r, woken)
    requires SecondHalf(policy, woken, MainAsked(d, init, r), main, r.to, rnd, after)
    ensures Iterated(policy, init, idle, d, r.(main := main, rndSwitch := rnd), after)
  {
  }

  lemma NoTurnTaken(policy: Policy, d: Desk, at: int, rnd: nat)
    ensures TurnOk(policy, d, false, NoTurn, at) && AfterTurn(d, NoTurn, at, rnd) == d
  {
  }

  /** A task that goes to sleep stays off the processor until the IO interrupt. */
  lemma AsleepUntilIo(policy: Policy, init: Task, idle: Task, d: Desk, r: Round, after: Desk)
    requires Iterated(policy, init, idle, d, r, after) && Sleeps(d) && !r.ended && !r.fired
    requires NoDup(d.ring) && |d.ring| >= 2 && d.current in d.ring[1..] && d.current !in r.forks
    ensures after.waitlist == d.waitlist + [d.current] && after.current != d.current && d.current !in after.ring
    ensures r.tick.NoTurn? && r.main.Turn? && r.main.from == d.current
  {
    hide Chosen;
    var k :| 1 <= k < |d.ring| && d.ring[k] == d.current;
    LessAt(d.ring, k);
    var left := Less(d.ring, d.current);
    assert left[0] == d.ring[0];
    JoinedKeeps(left, r.forks, d.current);
    var cycled := Cycled(d, idle, r);
    assert d.current !in cycled.ring && cycled.ring != [];
    hide Cycled, Less, Joined;
    var woken := HalfWay(init, idle, d, r);
    ChosenIsReady(policy, woken.ring, woken.accounts, r.main, r.to);
  }

  lemma {:induction false} LastFirstTasks(l: seq<Task>)
    ensures multiset(LastFirst(l)) == multiset(l)
  {
    if l != [] {
      LastFirstTasks(l[..|l| - 1]);
      assert l == l[..|l| - 1] + [l[|l| - 1]];
    }
  }

  lemma JoinedTasks(ring: seq<Task>, l: seq<Task>)
    requires ring != [] || l == []
    ensures multiset(Joined(ring, l)) == multiset(ring) + multiset(l)
  {
    LastFirstTasks(l);
    if ring != [] { assert ring == [ring[0]] + ring[1..]; }
  }

  lemma {:induction false} LessTasks(ring: seq<Task>, t: Task)
    requires t in ring
    ensures multiset(Less(ring, t)) == multiset(ring) - multiset{t} && |Less(ring, t)| == |ring| - 1
  {
    assert ring == [ring[0]] + ring[1..];
    if ring[0] != t { LessTasks(ring[1..], t); }
  }

  /** Every queued task, as often as it is queued. */
  ghost function Queued(d: Desk): multiset<Task>
  {
    multiset(d.ring) + multiset(d.waitlist)
  }

  lemma RanKeeps(d: Desk, idle: Task, ended: bool)
    requires d.current in d.ring
    ensures Queued(Ran(d, idle, ended)) == Queued(d) - if ended then multiset{d.current} else multiset{}
    ensures |Ran(d, idle, ended).ring| >= |d.ring| - if ended || Sleeps(d) then 1 else 0
  {
    hide Less;
    LessTasks(d.ring, d.current);
  }

  lemma SpawnedKeeps(d: Desk, forks: seq<Task>, at: int)
    requires d.ring != [] || forks == []
    ensures Queued(Spawned(d, forks, at)) == Queued(d) + multiset(forks)
    ensures |Spawned(d, forks, at).ring| >= |d.ring| && Spawned(d, forks, at).waitlist == d.waitlist
  {
    JoinedTasks(d.ring, forks);
    RingGrows(d.ring, forks);
  }

  lemma IoKeeps(d: Desk, fired: bool, at: int)
    requires d.ring != [] || d.waitlist == []
    ensures Queued(AfterIo(d, fired, at)) == Queued(d)
  {
    hide Joined;
    JoinedTasks(d.ring, d.waitlist);
  }

  lemma TurnKeeps(d: Desk, turn: Turn, at: int, rnd: nat)
    ensures AfterTurn(d, turn, at, rnd).ring == d.ring && AfterTurn(d, turn, at, rnd).waitlist == d.waitlist
  {
  }

  lemma TickKeeps(d: Desk, init: Task, passed: bool)
    ensures BeforeTick(d, init, passed).ring == d.ring && BeforeTick(d, init, passed).waitlist == d.waitlist
  {
  }

  /** However tasks sleep, wake up and are switched, none is lost and none is queued twice. */
  lemma TasksKept(policy: Policy, init: Task, idle: Task, d: Desk, r: Round, after: Desk)
    requires Iterated(policy, init, idle, d, r, after) && d.current in d.ring
    requires |d.ring| >= 2 || (r.ended && r.forks == [] && d.waitlist == []) || !(r.ended || Sleeps(d))
    ensures Queued(after)
            == Queued(d) - (if r.ended then multiset{d.current} else multiset{}) + multiset(r.forks)
  {
    var ran := Ran(d, idle, r.ended);
    assert r.ended ==> ran.waitlist == d.waitlist;
    hide Ran, Spawned, AfterIo, BeforeTick, Sleeps, TurnOk, TickOk, AfterTurn;
    var cycled := Spawned(ran, r.forks, r.from);
    var before := BeforeTick(cycled, init, r.from < r.to);
    var ticked := AfterTurn(before, r.tick, r.to, r.rndTick);
    RanKeeps(d, idle, r.ended);
    SpawnedKeeps(ran, r.forks, r.from);
    TickKeeps(cycled, init, r.from < r.to);
    TurnKeeps(before, r.tick, r.to, r.rndTick);
    IoKeeps(ticked, r.fired, r.to);
    TurnKeeps(AfterIo(ticked, r.fired, r.to), r.main, r.to, r.rndSwitch);
  }

  /** The running task joins the wait list exactly if it goes on, is interactive and its wait timer runs out; as
      long as schedule() is not called, the timer counts down. */
  lemma WaitsForIo(policy: Policy, init: Task, idle: Task, d: Desk, r: Round, after: Desk)
    requires Iterated(policy, init, idle, d, r, after)
    ensures after.waitlist == if r.fired then [] else d.waitlist + if !r.ended && Sleeps(d) then [d.current] else []
    ensures !r.ended && |d.ring| >= 2 && r.tick.NoTurn? && r.main.NoTurn? ==>
      !Sleeps(d)
      && after.waitTimer == d.waitTimer - if d.current.info.threadType == Interactive && d.waitTimer > 1 then 1 else 0
  {
  }

  /** Until the tick a task's account only takes in the jiffy that passes. */
  lemma CycleCharges(d: Desk, init: Task, idle: Task, r: Round, t: Task)
    requires t in d.accounts && t !in r.forks && idle !in d.accounts && (r.ended ==> t != d.current)
    ensures var before := BeforeTick(Cycled(d, idle, r), init, r.from < r.to);
            && t in before.accounts && before.accounts[t].history == d.accounts[t].history
            && before.current == (if r.ended then idle else d.current)
            && before.accounts[t].held
               == d.accounts[t].held + if t == d.current && r.from < r.to then NS_PER_JIFFY else 0
  {
  }

  lemma RingGrows(ring: seq<Task>, l: seq<Task>)
    ensures |Joined(ring, l)| >= |ring|
  {
  }

  /** A call of schedule() charges only the task it takes from the processor, and only if two tasks besides init
      are ready. */
  lemma TurnCharges(policy: Policy, d: Desk, asked: bool, turn: Turn, at: int, rnd: nat, t: Task)
    requires TurnOk(policy, d, asked, turn, at) && t in d.accounts
    ensures var after := AfterTurn(d, turn, at, rnd);
            && t in after.accounts && after.accounts[t].held == d.accounts[t].held && after.ring == d.ring
            && (after.accounts[t].history == d.accounts[t].history
                || (t == d.current != after.current && |d.ring| >= 3
                    && exists b :: after.accounts[t].history == d.accounts[t].history + [b]))
  {
  }

  /** A task that is alive before and after is charged at most once, and only if two tasks besides init are
      ready; the time that passes goes to the task that ran. */
  lemma IterationCharges(policy: Policy, init: Task, idle: Task, d: Desk, r: Round, after: Desk, t: Task)
    requires Iterated(policy, init, idle, d, r, after) && t in d.accounts && t !in r.forks && idle !in d.accounts
    requires (r.ended ==> t != d.current) && r.from <= r.to <= r.from + 1
    ensures t in after.accounts
    ensures after.accounts[t].held == d.accounts[t].held + if t == d.current then (r.to - r.from) * NS_PER_JIFFY else 0
    ensures d.accounts[t].history <= after.accounts[t].history
    ensures |after.accounts[t].history| <= |d.accounts[t].history| + 1
    ensures after.accounts[t].history != d.accounts[t].history ==> |after.ring| >= 3
  {
    hide TurnOk, Cycled, BeforeTick, AfterTurn;
    var cycled := Cycled(d, idle, r);
    var before := BeforeTick(cycled, init, r.from < r.to);
    CycleCharges(d, init, idle, r, t);
    TurnCharges(policy, before, r.from < r.to && cycled.current in cycled.ring && Expires(cycled, init), r.tick, r.to,
                r.rndTick, t);
    var ticked := Ticked(cycled, init, r);
    RingGrows(ticked.ring, ticked.waitlist);
    var woken := AfterIo(ticked, r.fired, r.to);
    TurnCharges(policy, woken, MainAsked(d, init, r) && woken.ring != [], r.main, r.to, r.rndSwitch, t);
  }
}
