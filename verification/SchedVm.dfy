/** The CPU virtual machine: the scheduler, the task life cycle and the main loop. */
module SchedVm {
  import opened SchedMath
  import opened SchedRing
  import opened SchedAccounts
  import opened SchedDesk

  /** One line of the timing results: execution, total and waiting time of a finished task. */
  datatype Timing = Timing(xe: int, xd: int, xa: int)

  /** After one iteration of the main loop: go on, stop, or schedule() followed init's null link. */
  datatype Status = Continue | Done | Crash

  ghost function Elems(l: seq<Task>): set<Task>
  {
    set t | t in l
  }

  lemma ModAtMost(x: int, m: int)
    requires x >= 0 && m > 0
    ensures 0 <= x % m <= x
  {
  }

  /** The children of a thread among some tasks. */
  ghost function Kids(th: Thread, among: set<Task>): set<Task>
  {
    set t | t in among && t.info.parent == th
  }

  ghost predicate HasParent(t: Task, among: set<Task>)
  {
    exists u :: u in among && t.info.parent == u.info && t.info.depth == u.info.depth + 1
  }

  predicate Spawnable(th: Thread)
  {
    th.threadType == Interactive || th.threadType == NonInteractive
  }

  /** The threads `th` still has to spawn: distinct children of `th`, none forked before. */
  ghost predicate GoodPending(l: seq<Thread>, th: Thread, threads: set<Thread>, forked: set<Thread>)
  {
    && (forall i, j :: 0 <= i < j < |l| ==> l[i] != l[j])
    && (forall i :: 0 <= i < |l| ==>
         l[i] in threads && l[i] !in forked && l[i].parent == th && l[i].depth == th.depth + 1 && Spawnable(l[i]))
  }

  ghost function Without(l: seq<Thread>, i: int): seq<Thread>
    requires 0 <= i < |l|
  {
    l[..i] + l[i + 1..]
  }

  lemma PendingForked(l: seq<Thread>, th: Thread, threads: set<Thread>, forked: set<Thread>, i: int)
    requires GoodPending(l, th, threads, forked) && 0 <= i < |l|
    ensures GoodPending(l[..i] + l[i + 1..], th, threads, forked + {l[i]})
  {
  }

  lemma PendingParent(l: seq<Thread>, th: Thread, threads: set<Thread>, forked: set<Thread>, i: int)
    requires GoodPending(l, th, threads, forked) && 0 <= i < |l|
    ensures l[i].parent == th
  {
  }

  lemma PendingElsewhere(l: seq<Thread>, th: Thread, threads: set<Thread>, forked: set<Thread>, c: Thread)
    requires GoodPending(l, th, threads, forked) && c.parent != th
    ensures GoodPending(l, th, threads, forked + {c})
  {
  }

  /** The threads of some tasks. */
  ghost function Infos(l: seq<Task>): seq<Thread>
  {
    seq(|l|, i requires 0 <= i < |l| => l[i].info)
  }

  ghost function Members(l: seq<Thread>): set<Thread>
  {
    set th | th in l
  }

  lemma NoInfos()
    ensures Infos([]) == [] && Members([]) == {}
  {
  }

  lemma MoreInfos(l: seq<Task>, m: seq<Task>)
    ensures Infos(l + m) == Infos(l) + Infos(m)
    ensures Members(Infos(l + m)) == Members(Infos(l)) + Members(Infos(m))
  {
    assert Infos(l + m) == Infos(l) + Infos(m);
  }

  /** The time of a thread has come at clock tick `at`. */
  ghost predicate Due(c: Thread, at: int)
  {
    TICKS_PER_MS * c.spawnTime <= at
  }

  /** The threads whose time has not come yet, in order. */
  ghost function Later(l: seq<Thread>, at: int): (r: seq<Thread>)
    ensures forall k :: 0 <= k < |r| ==> !Due(r[k], at)
  {
    if l == [] then [] else Later(l[..|l| - 1], at) + if Due(l[|l| - 1], at) then [] else [l[|l| - 1]]
  }

  /** The others, in order. */
  ghost function DueOf(l: seq<Thread>, at: int): seq<Thread>
  {
    if l == [] then [] else DueOf(l[..|l| - 1], at) + if Due(l[|l| - 1], at) then [l[|l| - 1]] else []
  }

  lemma {:induction false} NoneDue(l: seq<Thread>, at: int)
    requires forall k :: 0 <= k < |l| ==> !Due(l[k], at)
    ensures Later(l, at) == l && DueOf(l, at) == []
  {
    if l != [] {
      NoneDue(l[..|l| - 1], at);
      assert l == l[..|l| - 1] + [l[|l| - 1]];
    }
  }

  lemma LaterStep(l: seq<Thread>, j: int, at: int)
    requires 0 <= j < |l|
    ensures Later(l[..j + 1], at) == Later(l[..j], at) + if Due(l[j], at) then [] else [l[j]]
    ensures DueOf(l[..j + 1], at) == DueOf(l[..j], at) + if Due(l[j], at) then [l[j]] else []
  {
    assert l[..j + 1][..j] == l[..j];
  }

  /** What is left of the list when the first `j` threads were looked at. */
  ghost function Left(l: seq<Thread>, j: int, at: int): seq<Thread>
    requires 0 <= j <= |l|
  {
    Later(l[..j], at) + l[j..]
  }

  lemma LeftStep(l: seq<Thread>, j: int, at: int)
    requires 0 <= j < |l|
    ensures var i := |Later(l[..j], at)|;
            && |Left(l, j, at)| == i + |l| - j && Left(l, j, at)[i] == l[j]
            && Left(l, j + 1, at) == (if Due(l[j], at) then Without(Left(l, j, at), i) else Left(l, j, at))
            && |Later(l[..j + 1], at)| == (if Due(l[j], at) then i else i + 1)
            && |Left(l, j + 1, at)| == |Later(l[..j + 1], at)| + |l| - j - 1
  {
    LaterStep(l, j, at);
  }

  lemma LeftEnds(l: seq<Thread>, at: int)
    ensures Left(l, 0, at) == l && Later(l[..0], at) == [] && DueOf(l[..0], at) == []
    ensures Left(l, |l|, at) == Later(l, at) && l[..|l|] == l
  {
    assert l[..|l|] == l;
  }

  /** Different tasks run different threads. */
  ghost predicate OwnThreads(among: set<Task>)
  {
    forall t, u :: t in among && u in among && t.info == u.info ==> t == u
  }

  class Vm {
    const policy: Policy
    const rq: RunQueue
    const init: Task
    const idle: Task
    var current: Task
    var jiffies: int
    var clocktick: int
    var timer: int
    var intTimer: int
    var intWaitTimer: int
    const endtime: int
    /** The tasks waiting for IO, first come first. */
    var waitlist: seq<Task>
    var results: seq<Timing>
    /** All tasks that were forked and not yet killed. */
    ghost var live: set<Task>
    /** All threads of the profile, and those already forked. */
    ghost const threads: set<Thread>
    ghost var forked: set<Thread>
    /** The accounts of the tasks that are alive. */
    ghost var accounts: map<Task, Account>

    /** __init_sched: init alone on the queue, idle on the processor, nothing forked yet. */
    constructor (policy: Policy, initInfo: Thread, idleInfo: Thread, endtime: int, ghost threads: set<Thread>)
      ensures this.policy == policy && init.info == initInfo && idle.info == idleInfo && this.threads == threads
      ensures fresh(init) && fresh(idle) && fresh(rq) && init != idle
      ensures rq.Valid() && rq.ring == [init] && rq.head == init && idle.next == null
      ensures current == idle && jiffies == 0 && clocktick == 0 && timer == 0 && intTimer == -1 && intWaitTimer == -1
      ensures this.endtime == endtime
      ensures waitlist == [] && results == [] && live == {} && forked == {initInfo}
      ensures !init.needReschedule && !idle.needReschedule
      ensures accounts == map[]
    {
      var i := new Task(initInfo);
      var q := new RunQueue(i);
      var d := new Task(idleInfo);
      this.policy, this.init, this.rq, this.idle, this.current := policy, i, q, d, d;
      jiffies, clocktick, timer, intTimer, intWaitTimer, this.endtime := 0, 0, 0, -1, -1, endtime;
      waitlist, results, live, this.threads, forked := [], [], {}, threads, {initInfo};
      accounts := map[];
    }

    function Now(): int
      reads this`jiffies
    {
      jiffies * NS_PER_JIFFY
    }

    /** A task's line in the results if it ended now: execution time, time since creation, the rest. */
    ghost function Line(t: Task): Timing
      reads this`jiffies, t`xe, t`xd
    {
      Timing(t.xe, Now() - t.xd, Now() - t.xd - t.xe)
    }

    /** The machine as far as one iteration depends on the one before. */
    ghost function Here(): Desk
      reads this`current, this`waitlist, this`intWaitTimer, this`accounts, rq`ring
    {
      Desk(current, rq.ring, waitlist, intWaitTimer, accounts)
    }

    // ---------- invariants ----------

    /** Every live task is in exactly one of the ring and the wait list; the ring is well formed and headed
        by init as long as init runs. */
    ghost predicate QueuesOk()
      reads this`waitlist, this`live, rq, rq.ring`next, rq.ring`prev, waitlist`next, idle`next
    {
      && rq.Valid() && rq.head == init && init != idle && init.info.threadType == Init
      && init !in live && idle !in live && idle !in rq.ring && idle.next == null
      && live == (Elems(rq.ring) - {init}) + Elems(waitlist)
      && Elems(rq.ring) !! Elems(waitlist) && NoDup(waitlist)
      && init !in waitlist && idle !in waitlist
      && (forall t :: t in waitlist ==> t.next == null)
      && (rq.ring == [] ==> live == {})
    }

    /** The running task is queued, or just went to sleep, or is the stand-in for a killed one. */
    ghost predicate CurrentOk()
      reads this`current, this`waitlist, rq`ring
    {
      current in rq.ring || current in waitlist || current == idle
    }

    /** Only the task on the processor may have asked for schedule(). */
    ghost predicate Quiet()
      reads this`current, this`live, live`needReschedule, init`needReschedule, idle`needReschedule
    {
      forall t :: t in live + {init, idle} && t.needReschedule ==> t == current
    }

    /** The accounting of one task at time `now`: its time on the processor is what was charged, what was lost,
        and, while it runs, the time since it got the processor; and it is within the time since the task was
        created. */
    ghost predicate TimeOk(t: Task, running: bool, now: int)
      reads this`accounts, t`lastTimeInRunqueue, t`cpuOwned, t`xd, t`xe
    {
      && (running ==> t.cpuOwned <= now)
      && t in accounts
      && var a := accounts[t];
         && (policy == SjfGoodness ==> a.queued == t.lastTimeInRunqueue <= now)
         && a.cpuOwned == t.cpuOwned && 0 <= a.lost && t.xd + a.held <= now
         && a.held == t.xe + a.lost + if running then now - t.cpuOwned else 0
    }

    ghost predicate TimesOk()
      reads this`accounts, this`live, this`current, this`jiffies
      reads live`lastTimeInRunqueue, live`cpuOwned, live`xd, live`xe
    {
      && 0 <= Now() < U64 && accounts.Keys == live
      && forall t :: t in live ==> TimeOk(t, t == current, Now())
    }

    /** A task's account: its estimate is the average over the bursts schedule() committed, its execution time
        is their sum, and its time slice is the one in the account and not used up. */
    ghost predicate AccountOk(t: Task)
      reads this`accounts, t`expBurst, t`xe, t`timeSlice
    {
      && t in accounts && Bursts(accounts[t].history)
      && t.expBurst == Estimate(accounts[t].history) && t.xe == Total(accounts[t].history)
      && 1 <= t.timeSlice <= TIMESLICE && accounts[t].slice == t.timeSlice
    }

    ghost predicate AccountsOk()
      reads this`accounts, this`live, live`expBurst, live`xe, live`timeSlice
    {
      forall t :: t in live ==> AccountOk(t)
    }

    ghost function Tasks(): set<Task>
      reads this`live
    {
      live + {init}
    }

    /** The process tree: nobody outlives its parent, and every `children` field counts the live children. */
    ghost predicate TreeOk()
      reads this`live, set t | t in live + {init} :: t.info`children
    {
      && OwnThreads(Tasks())
      && init.info.parent == null && init.info.threadType == Init && init.info.killTime == -1
      && (forall t :: t in live ==> HasParent(t, Tasks()) && Spawnable(t.info))
      && (forall t :: t in Tasks() ==> t.info.children == |Kids(t.info, live)|)
    }

    ghost predicate Known(among: set<Task>, known: set<Thread>)
    {
      && (forall t :: t in among ==> t.info in threads && t.info in known)
      && idle.info !in threads && known <= threads
    }

    ghost predicate Unforked()
      reads this`forked, threads`pending
    {
      forall th :: th in threads ==> GoodPending(th.pending, th, threads, forked)
    }

    /** Every thread is forked at most once. */
    ghost predicate PendingOk()
      reads this`live, this`forked, threads`pending
    {
      Known(Tasks(), forked) && Unforked()
    }

    ghost function Balance(): int
      reads this`forked, this`live
    {
      |forked| - |live|
    }

    lemma CountedEnd(before: set<Task>, t: Task, lines: nat)
      requires |forked| == 1 + |before| + lines && live == before - {t}
      requires |results| == lines + if t in before then 1 else 0
      ensures Counted()
    {
      if t in before { assert before == live + {t}; } else { assert before == live; }
    }

    /** Every task ever forked is alive or has its line in the results. */
    ghost predicate Counted()
      reads this`forked, this`live, this`results
    {
      |forked| == 1 + |live| + |results|
    }

    /** The threads still to be forked, with their work. */
    ghost function Backlog(): (backlog: map<Thread, int>)
      reads this`forked, (threads - forked)`workDuration
      ensures backlog.Keys == threads - forked
    {
      map th | th in threads - forked :: th.workDuration
    }

    /** Of a backlog, the threads forked since then have their work in ticks and no kill message, and the
        others are as they were. */
    ghost predicate Forked(backlog: map<Thread, int>)
      reads this`forked, backlog.Keys`kill, backlog.Keys`workDuration
    {
      forall th :: th in backlog ==>
        if th in forked then th.workDuration == InTicks(backlog[th]) && !th.kill else th.workDuration == backlog[th]
    }

    lemma NothingForked()
      ensures Forked(Backlog())
    {
    }

    // ---------- schedule() ----------

    /** context_switch; `rnd` is what rand() returns. */
    method ContextSwitch(next: Task, rnd: nat)
      requires next.info.threadType == Interactive ==> next in accounts && accounts[next].slice == next.timeSlice
      modifies this`current, this`intWaitTimer
      ensures current == next && intWaitTimer == SwitchTimer(accounts, next, old(intWaitTimer), rnd)
    {
      if next.info.threadType == Interactive {
        intWaitTimer := TICKS_PER_MS * (rnd % (next.timeSlice * HZ / 1000 + 100) + 5);
      }
      current := next;
    }

    /** The burst schedule() would commit for the running task: unsigned int arithmetic. */
    ghost function ProvisionalBurst(c: Task): (b: UInt)
      reads this`jiffies, c`cpuOwned
    {
      (Now() - c.cpuOwned) % U32
    }

    /** The estimate a task is judged by: the running task's includes its burst so far. */
    ghost function JudgedEstimate(t: Task): (e: int)
      reads this`jiffies, this`current, t`cpuOwned, t`expBurst
      ensures 0 <= e < U32
    {
      if t == current then
        ExpBurstIs(ProvisionalBurst(t), t.expBurst);
        ExpBurst(ProvisionalBurst(t), t.expBurst)
      else t.expBurst
    }

    /** How long a task has waited; the running task has not. */
    ghost function JudgedWait(t: Task): int
      reads this`jiffies, this`current, t`lastTimeInRunqueue
    {
      if t == current then 0 else Now() - t.lastTimeInRunqueue
    }

    /** The `k`-th ready task is the first of least judged estimate. */
    ghost predicate LeastEstimate(k: int)
      reads this`jiffies, this`current, rq`ring, rq.ring`cpuOwned, rq.ring`expBurst
    {
      && 1 <= k < |rq.ring|
      && forall j :: 1 <= j < |rq.ring| ==>
           && JudgedEstimate(rq.ring[k]) <= JudgedEstimate(rq.ring[j])
           && (j < k ==> JudgedEstimate(rq.ring[k]) < JudgedEstimate(rq.ring[j]))
    }

    /** The least judged estimate and the longest judged wait among the ready tasks. */
    ghost predicate Extremes(minExp: int, maxWait: int)
      reads this`jiffies, this`current, rq`ring, rq.ring`cpuOwned, rq.ring`expBurst, rq.ring`lastTimeInRunqueue
    {
      && 0 <= minExp < U32 && 0 <= maxWait
      && (exists j :: 1 <= j < |rq.ring| && JudgedEstimate(rq.ring[j]) == minExp)
      && (forall j :: 1 <= j < |rq.ring| ==> minExp <= JudgedEstimate(rq.ring[j]))
      && (exists j :: 1 <= j < |rq.ring| && JudgedWait(rq.ring[j]) == maxWait)
      && (forall j :: 1 <= j < |rq.ring| ==> 0 <= JudgedWait(rq.ring[j]) <= maxWait)
    }

    /** A ready task's goodness. */
    ghost function GoodnessOf(t: Task, minExp: int, maxWait: int): int
      requires 0 <= minExp < U32 && 0 <= maxWait
      reads this`jiffies, this`current, t`cpuOwned, t`expBurst, t`lastTimeInRunqueue
    {
      var wait := JudgedWait(t);
      Goodness(JudgedEstimate(t), if wait < 0 then 0 else wait, minExp, maxWait)
    }

    /** The `k`-th ready task is the first of least goodness. */
    ghost predicate LeastGoodness(k: int, minExp: int, maxWait: int)
      requires 0 <= minExp < U32 && 0 <= maxWait
      reads this`jiffies, this`current, rq`ring, rq.ring`cpuOwned, rq.ring`expBurst, rq.ring`lastTimeInRunqueue
    {
      && 1 <= k < |rq.ring|
      && forall j :: 1 <= j < |rq.ring| ==>
           && GoodnessOf(rq.ring[k], minExp, maxWait) <= GoodnessOf(rq.ring[j], minExp, maxWait)
           && (j < k ==> GoodnessOf(rq.ring[k], minExp, maxWait) < GoodnessOf(rq.ring[j], minExp, maxWait))
    }

    /** What the policy picks among two or more ready tasks.  `minExp` and `maxWait` are the bounds of the
        goodness scan. */
    ghost predicate Picks(k: int, minExp: int, maxWait: int)
      reads this`jiffies, this`current, rq`ring, rq.ring`cpuOwned, rq.ring`expBurst, rq.ring`lastTimeInRunqueue
    {
      if policy == Sjf then LeastEstimate(k) else Extremes(minExp, maxWait) && LeastGoodness(k, minExp, maxWait)
    }

    /** A task that has waited longest is overtaken only by tasks that have waited a fair share of its time:
        when `c` is picked over `p`, p's wait is below (g + 1) times c's, where g is p's goodness. */
    lemma BoundedOvertaking(k: int, j: int, minExp: int, maxWait: int)
      requires Extremes(minExp, maxWait) && LeastGoodness(k, minExp, maxWait)
      requires 1 <= j < |rq.ring| && JudgedWait(rq.ring[j]) == maxWait
      requires var p, c := rq.ring[j], rq.ring[k];
               && JudgedEstimate(p) < U32 - 1 && JudgedEstimate(c) < U32 - 1
               && (1 + JudgedEstimate(p)) * (1 + maxWait) < U64 && (1 + JudgedEstimate(c)) * (1 + maxWait) < U64
      ensures var p, c := rq.ring[j], rq.ring[k];
              && GoodnessOf(p, minExp, maxWait) == (1 + JudgedEstimate(p)) / (1 + minExp) >= 1
              && 1 + maxWait < (GoodnessOf(p, minExp, maxWait) + 1) * (1 + JudgedWait(c))
    {
      hide Goodness, ExpBurst, ProvisionalBurst;
      var p, c := rq.ring[j], rq.ring[k];
      var g := GoodnessOf(p, minExp, maxWait);
      OvertakingBound(JudgedEstimate(p), JudgedEstimate(c), JudgedWait(c), minExp, maxWait, g);
      QuotientAtLeastOne(1 + JudgedEstimate(p), 1 + minExp);
    }

    /** schedule.c:136-146: judge the running task by its burst so far. */
    method Judge() returns (savedBurst: UInt, savedEstimate: UInt)
      requires 0 <= Now() < U64
      modifies current`lastTimeInRunqueue, current`burst, current`expBurst, this`accounts
      ensures savedBurst == old(current.burst) && savedEstimate == old(current.expBurst)
      ensures current.burst == ProvisionalBurst(current) && current.expBurst == old(JudgedEstimate(current))
      ensures current.lastTimeInRunqueue == if policy == SjfGoodness then Now() else old(current.lastTimeInRunqueue)
      ensures accounts == Judged(old(accounts), current, jiffies)
      ensures old(TimesOk()) ==> TimesOk()
      ensures forall t :: t in rq.ring ==> t.expBurst == old(JudgedEstimate(t))
      ensures policy == SjfGoodness ==> forall t :: t in rq.ring ==> Now() - t.lastTimeInRunqueue == old(JudgedWait(t))
    {
      hide ExpBurst;
      savedBurst, savedEstimate := current.burst, current.expBurst;
      if policy == SjfGoodness {
        current.lastTimeInRunqueue := Now();
      }
      current.burst := (Now() - current.cpuOwned) % U32;
      ExpBurstIs(current.burst, current.expBurst);
      current.expBurst := ExpBurst(current.burst, current.expBurst);
      accounts := Judged(accounts, current, jiffies);
    }

    /** schedule.c:136-148: judge the running task, then choose. */
    method Choose() returns (chosen: Task, ghost k: int, savedBurst: UInt, savedEstimate: UInt,
        ghost minExp: int, ghost maxWait: int)
      requires rq.Valid() && |rq.ring| >= 2 && 0 <= Now() < U64
      requires policy == SjfGoodness ==> forall j :: 1 <= j < |rq.ring| ==> rq.ring[j].lastTimeInRunqueue <= Now()
      modifies current`lastTimeInRunqueue, current`burst, current`expBurst, this`accounts
      ensures savedBurst == old(current.burst) && savedEstimate == old(current.expBurst)
      ensures current.burst == ProvisionalBurst(current) && current.expBurst == old(JudgedEstimate(current))
      ensures current.lastTimeInRunqueue == if policy == SjfGoodness then Now() else old(current.lastTimeInRunqueue)
      ensures 1 <= k < |rq.ring| && chosen == rq.ring[k] && old(Picks(k, minExp, maxWait))
      ensures accounts == Judged(old(accounts), current, jiffies)
      ensures old(TimesOk()) ==> TimesOk()
    {
      hide Judged, RunQueue.Valid, Goodness, ExpBurst, TimesOk, ProvisionalBurst, JudgedEstimate, JudgedWait;
      savedBurst, savedEstimate := Judge();
      minExp, maxWait := 0, 0;
      if policy == Sjf {
        chosen, k := rq.FindMinExpBurst();
        assert old(LeastEstimate(k));
        hide LeastEstimate;
      } else {
        ghost var b, o;
        chosen, k, b, o := rq.CalculateGoodness(Now());
        minExp, maxWait := rq.ring[b].expBurst, Now() - rq.ring[o].lastTimeInRunqueue;
        forall j | 1 <= j < |rq.ring|
          ensures rq.GoodnessAt(Now(), j, b, o) == old(GoodnessOf(rq.ring[j], minExp, maxWait))
        {
        }
        hide GoodnessOf, RunQueue.GoodnessAt;
        assert old(Extremes(minExp, maxWait));
        hide Extremes;
        assert old(LeastGoodness(k, minExp, maxWait));
        hide LeastGoodness;
      }
    }

    /** schedule(): give the processor to another task.  The ghost results are the place of the picked task
        and the bounds of the goodness scan. */
    method Schedule(rnd: nat) returns (ghost turn: Turn, ghost k: int, ghost minExp: int, ghost maxWait: int)
      requires QueuesOk() && CurrentOk() && TimesOk() && AccountsOk() && Quiet() && rq.ring != []
      modifies this`current, this`intWaitTimer, rq.ring`cpuOwned,
        current`needReschedule, current`lastTimeInRunqueue, current`burst, current`expBurst, current`xe,
        current`timeSlice, this`accounts
      ensures TimesOk() && AccountsOk() && Quiet() && !current.needReschedule
      // init runs exactly when nothing else is ready
      ensures current in rq.ring && (current == init <==> |rq.ring| == 1)
      ensures |rq.ring| == 2 ==> current == rq.ring[1] && current.cpuOwned == Now()
      // with two or more ready tasks the policy decides
      ensures |rq.ring| >= 3 ==> 1 <= k < |rq.ring| && current == rq.ring[k] && old(Picks(k, minExp, maxWait))
      // a task that keeps the processor shows no trace of having been judged
      ensures |rq.ring| < 3 || current == old(current) ==>
        var c := old(current);
        c.burst == old(c.burst) && c.expBurst == old(c.expBurst) && c.xe == old(c.xe)
        && c.timeSlice == old(c.timeSlice)
      // a task that loses it commits its burst
      ensures |rq.ring| >= 3 && current != old(current) ==>
        var c := old(current);
        c.burst == old(ProvisionalBurst(c)) && c.expBurst == old(JudgedEstimate(c))
        && c.xe == (old(c.xe) + c.burst) % U64 && c.timeSlice == TIMESLICE
        && current.cpuOwned == Now()
      // all of this as the accounts have it: who is chosen, which burst is committed, and what is lost
      ensures turn.Turn? && turn.from == old(current) && Chosen(policy, rq.ring, old(accounts), turn, jiffies)
      ensures Here() == AfterTurn(old(Here()), turn, jiffies, rnd)
      ensures forall t :: t in rq.ring && (t != current || (|rq.ring| >= 3 && current == old(current))) ==>
                t.cpuOwned == old(t.cpuOwned)
    {
      hide TimesOk, AccountsOk, QueuesOk, CurrentOk, Picks, JudgedEstimate, ProvisionalBurst, PicksIn, Settled,
           SwitchTimer;
      k, minExp, maxWait := 1, 0, 0;
      ghost var before := current;
      RingHead();
      PickedByAccounts();
      current.needReschedule := false;
      if rq.nrRunning == 1 {
        RunInit(rnd);
      } else if rq.nrRunning == 2 {
        RunOnly(rnd);
      } else {
        k, minExp, maxWait := Dispatch(rnd);
      }
      turn := Turn(before, current, |rq.ring|);
    }

    /** A ready task is judged by its account. */
    lemma JudgedByAccount(t: Task)
      requires TimesOk() && AccountsOk() && t in live
      ensures EstimateIn(accounts, t, current, jiffies) == JudgedEstimate(t)
      ensures policy == SjfGoodness ==> WaitIn(accounts, t, current, jiffies) == JudgedWait(t)
    {
      assert TimeOk(t, t == current, Now()) && AccountOk(t);
      if t == current { CommitOk(t); }
    }

    /** Whatever the policy picks, it picks by the accounts. */
    lemma PickedByAccounts()
      requires QueuesOk() && TimesOk() && AccountsOk()
      ensures forall k, minExp, maxWait :: Picks(k, minExp, maxWait) ==>
                PicksIn(policy, rq.ring, accounts, current, jiffies, k, minExp, maxWait)
    {
      hide EstimateIn, WaitIn, JudgedEstimate, JudgedWait, TimesOk, AccountsOk, Goodness;
      if rq.ring != [] {
        RingHead();
        hide QueuesOk;
        forall j | 1 <= j < |rq.ring|
          ensures EstimateIn(accounts, rq.ring[j], current, jiffies) == JudgedEstimate(rq.ring[j])
          ensures policy == SjfGoodness ==> WaitIn(accounts, rq.ring[j], current, jiffies) == JudgedWait(rq.ring[j])
        {
          JudgedByAccount(rq.ring[j]);
        }
      }
    }

    lemma AccountsKeyed()
      requires TimesOk()
      ensures accounts.Keys == live
    {
    }

    /** schedule.c:114-122. */
    method RunInit(rnd: nat)
      requires QueuesOk() && TimesOk() && AccountsOk() && |rq.ring| == 1
      modifies this`current, this`intWaitTimer, this`accounts
      ensures TimesOk() && AccountsOk() && current == init && init in rq.ring
      ensures Here() == AfterTurn(old(Here()), Turn(old(current), init, 1), jiffies, rnd)
    {
      hide SwitchTimer, Estimate, Total, Bursts, Elems, RunQueue.Valid;
      RingHead();
      ghost var before := current;
      SettledTimer(accounts, Turn(current, init, 1), intWaitTimer, jiffies, rnd);
      accounts := Settled(accounts, Turn(current, init, 1), jiffies);
      ContextSwitch(rq.head, rnd);
      forall t | t in live ensures TimeOk(t, t == current, Now()) && AccountOk(t) {
        assert old(TimeOk(t, t == before, Now()) && AccountOk(t));
      }
    }

    /** schedule.c:123-133: the only ready task runs; its clock starts anew, nobody is charged. */
    method RunOnly(rnd: nat)
      requires QueuesOk() && TimesOk() && AccountsOk() && |rq.ring| == 2
      modifies this`current, this`intWaitTimer, rq.ring`cpuOwned, this`accounts
      ensures TimesOk() && AccountsOk() && current == rq.ring[1] != init && current.cpuOwned == Now()
      ensures Here() == AfterTurn(old(Here()), Turn(old(current), current, 2), jiffies, rnd)
      ensures forall t :: t in rq.ring && t != current ==> t.cpuOwned == old(t.cpuOwned)
    {
      hide SwitchTimer, RunQueue.Valid, Estimate, Total, Bursts, Elems;
      RingHead();
      ghost var before := current;
      SettledTimer(accounts, Turn(current, rq.head.next, 2), intWaitTimer, jiffies, rnd);
      assert AccountOk(rq.head.next);
      accounts := Settled(accounts, Turn(current, rq.head.next, 2), jiffies);
      rq.head.next.cpuOwned := Now();
      ContextSwitch(rq.head.next, rnd);
      forall t | t in live ensures TimeOk(t, t == current, Now()) && AccountOk(t) {
        assert old(TimeOk(t, t == before, Now()) && AccountOk(t));
      }
    }

    /** schedule.c:136-148 on sound accounts: afterwards the running task's burst is ready to be committed, and
        its judgement ready to be undone. */
    method Deliberate() returns (chosen: Task, ghost k: int, savedBurst: UInt, savedEstimate: UInt,
        ghost minExp: int, ghost maxWait: int)
      requires QueuesOk() && CurrentOk() && TimesOk() && AccountsOk() && |rq.ring| >= 3
      modifies current`lastTimeInRunqueue, current`burst, current`expBurst, this`accounts
      ensures TimesOk() && forall t :: t in live && t != current ==> AccountOk(t)
      ensures current in live ==> Committed(current) && AccountBut(current, savedEstimate)
      ensures savedBurst == old(current.burst) && savedEstimate == old(current.expBurst)
      ensures current.burst == old(ProvisionalBurst(current)) && current.expBurst == old(JudgedEstimate(current))
      ensures 1 <= k < |rq.ring| && chosen == rq.ring[k] && old(Picks(k, minExp, maxWait))
      ensures accounts == Judged(old(accounts), current, jiffies)
      ensures chosen in live && chosen != init
    {
      hide JudgedEstimate, ProvisionalBurst, Picks, TimeOk, Estimate, Total, Bursts, Committed, NoDup;
      RingHead();
      if current in live {
        ChargeOk(current);
        CommitOk(current);
      }
      RingTimes();
      chosen, k, savedBurst, savedEstimate, minExp, maxWait := Choose();
      if current in live { ReadyToCommit(current); }
      forall t | t in live && t != current ensures AccountOk(t) {
        assert old(AccountOk(t));
      }
    }

    /** schedule.c:134-169: two or more tasks are ready. */
    method Dispatch(rnd: nat) returns (ghost k: int, ghost minExp: int, ghost maxWait: int)
      requires QueuesOk() && CurrentOk() && TimesOk() && AccountsOk() && |rq.ring| >= 3
      modifies this`current, this`intWaitTimer, rq.ring`cpuOwned, current`lastTimeInRunqueue, current`burst,
        current`expBurst, current`xe, current`timeSlice, this`accounts
      ensures TimesOk() && AccountsOk()
      ensures current in rq.ring && current != init
      ensures 1 <= k < |rq.ring| && current == rq.ring[k] && old(Picks(k, minExp, maxWait))
      ensures current == old(current) ==>
        var c := old(current);
        c.burst == old(c.burst) && c.expBurst == old(c.expBurst) && c.xe == old(c.xe)
        && c.timeSlice == old(c.timeSlice) && c.cpuOwned == old(c.cpuOwned)
      ensures current != old(current) ==>
        var c := old(current);
        c.burst == old(ProvisionalBurst(c)) && c.expBurst == old(JudgedEstimate(c))
        && c.xe == (old(c.xe) + c.burst) % U64 && c.timeSlice == TIMESLICE && current.cpuOwned == Now()
      ensures Here() == AfterTurn(old(Here()), Turn(old(current), current, |rq.ring|), jiffies, rnd)
      ensures forall t :: t in rq.ring && t != current ==> t.cpuOwned == old(t.cpuOwned)
    {
      hide JudgedEstimate, ProvisionalBurst, Picks, TimesOk, AccountsOk, QueuesOk, AccountOk, Settled, AccountBut,
           Committed, Judged, WithBurst, WithStretch, SwitchTimer;
      AccountsKeyed();
      ghost var books := accounts;
      var chosen, savedBurst, savedEstimate;
      chosen, k, savedBurst, savedEstimate, minExp, maxWait := Deliberate();
      SettledInSteps(books, current, chosen, |rq.ring|, jiffies);
      SettledTimer(books, Turn(current, chosen, |rq.ring|), intWaitTimer, jiffies, rnd);
      if current == chosen {
        Restore(savedBurst, savedEstimate, rnd);
      } else {
        SwitchTo(chosen, rnd);
      }
    }

    lemma RingTimes()
      requires QueuesOk() && TimesOk()
      ensures policy == SjfGoodness ==> forall j :: 1 <= j < |rq.ring| ==> rq.ring[j].lastTimeInRunqueue <= Now()
    {
      forall j | 1 <= j < |rq.ring| ensures policy == SjfGoodness ==> rq.ring[j].lastTimeInRunqueue <= Now() {
        assert rq.ring[j] in Elems(rq.ring);
        assert TimeOk(rq.ring[j], rq.ring[j] == current, Now());
      }
    }

    /** schedule.c:154-158: the running task goes on; its judgement is undone. */
    method Restore(savedBurst: UInt, savedEstimate: UInt, rnd: nat)
      requires TimesOk() && current in live
      requires forall t :: t in live && t != current ==> AccountOk(t)
      requires AccountBut(current, savedEstimate)
      modifies this`current, this`intWaitTimer, current`burst, current`expBurst
      ensures TimesOk() && AccountsOk() && current == old(current)
      ensures current.burst == savedBurst && current.expBurst == savedEstimate
      ensures intWaitTimer == SwitchTimer(accounts, current, old(intWaitTimer), rnd)
    {
      hide Estimate;
      current.burst := savedBurst;
      current.expBurst := savedEstimate;
      ContextSwitch(current, rnd);
      forall t | t in live ensures AccountOk(t) {
        if t != current { assert old(AccountOk(t)); }
      }
    }

    /** A task's account is right but for its estimate, which should be `e`. */
    ghost predicate AccountBut(t: Task, e: int)
      reads this`accounts, t`xe, t`timeSlice
    {
      && t in accounts && Bursts(accounts[t].history)
      && e == Estimate(accounts[t].history) && t.xe == Total(accounts[t].history) 
      && 1 <= t.timeSlice <= TIMESLICE && accounts[t].slice == t.timeSlice
    }

    /** schedule.c:161-162: charge and commit the running task's burst. */
    method Charge()
      requires TimesOk() && forall t :: t in live && t != current ==> AccountOk(t)
      requires current in live ==> Committed(current)
      modifies current`xe, current`timeSlice, this`accounts
      ensures AccountsOk() && forall t :: t in live ==> TimeOk(t, false, Now())
      ensures accounts.Keys == live
      ensures current.xe == (old(current.xe) + current.burst) % U64 && current.timeSlice == TIMESLICE
      ensures accounts == WithBurst(old(accounts), current, jiffies)
    {
      hide Estimate, Total, Bursts;
      current.xe := (current.xe + current.burst) % U64;
      current.timeSlice := TIMESLICE;
      if current in accounts { TotalStep(accounts[current].history, current.burst); }
      accounts := WithBurst(accounts, current, jiffies);
      forall t | t in live ensures TimeOk(t, false, Now()) && AccountOk(t) {
        assert old(TimeOk(t, t == current, Now()));
        if t != current { assert old(AccountOk(t)); }
      }
    }

    /** schedule.c:163: the chosen task's stretch begins. */
    method StartStretch(chosen: Task)
      requires AccountsOk() && 0 <= Now() < U64 && accounts.Keys == live && chosen in live
      requires forall t :: t in live ==> TimeOk(t, false, Now())
      modifies chosen`cpuOwned, this`accounts
      ensures AccountsOk() && accounts.Keys == live && chosen.cpuOwned == Now()
      ensures forall t :: t in live ==> TimeOk(t, t == chosen, Now())
      ensures accounts == WithStretch(old(accounts), chosen, jiffies)
    {
      hide Estimate, Total, Bursts;
      chosen.cpuOwned := Now();
      accounts := WithStretch(accounts, chosen, jiffies);
      forall t | t in live ensures TimeOk(t, t == chosen, Now()) && AccountOk(t) {
        assert old(TimeOk(t, false, Now()) && AccountOk(t));
      }
    }

    /** The burst of a task is ready to join its account. */
    ghost predicate Committed(c: Task)
      reads this`accounts, this`jiffies, c`burst, c`expBurst, c`xe, c`cpuOwned
    {
      && c in accounts && c.burst == ProvisionalBurst(c) && accounts[c].cpuOwned == c.cpuOwned && c.xe + c.burst < U64
      && c.burst <= Now() - c.cpuOwned && c.xe == Total(accounts[c].history)
      && Bursts(accounts[c].history + [c.burst]) && Estimate(accounts[c].history + [c.burst]) == c.expBurst
    }

    lemma ReadyToCommit(c: Task)
      requires c in accounts && c.burst == ProvisionalBurst(c) && accounts[c].cpuOwned == c.cpuOwned
      requires c.xe + ProvisionalBurst(c) < U64 && ProvisionalBurst(c) <= Now() - c.cpuOwned
      requires c.xe == Total(accounts[c].history) && Bursts(accounts[c].history + [ProvisionalBurst(c)])
      requires Estimate(accounts[c].history + [ProvisionalBurst(c)]) == c.expBurst
      ensures Committed(c)
    {
    }

    /** schedule.c:161-164: charge and commit the running task's burst, start the chosen one's. */
    method SwitchTo(chosen: Task, rnd: nat)
      requires TimesOk() && chosen in live && chosen != current
      requires forall t :: t in live && t != current ==> AccountOk(t)
      requires current in live ==> Committed(current)
      modifies this`current, this`intWaitTimer, chosen`cpuOwned, current`xe, current`timeSlice, this`accounts
      ensures TimesOk() && AccountsOk() && current == chosen && current.cpuOwned == Now()
      ensures var c := old(current); c.xe == (old(c.xe) + c.burst) % U64 && c.timeSlice == TIMESLICE
      ensures accounts == WithStretch(WithBurst(old(accounts), old(current), jiffies), chosen, jiffies)
      ensures intWaitTimer == SwitchTimer(accounts, chosen, old(intWaitTimer), rnd)
    {
      hide TimeOk, Committed, WithBurst, WithStretch, Estimate, Total, Bursts;
      Charge();
      StartStretch(chosen);
      assert AccountOk(chosen);
      ContextSwitch(chosen, rnd);
    }

    /** A burst lies within the time since the task got the processor, whatever the unsigned arithmetic cuts
        off. */
    lemma ChargeOk(c: Task)
      requires 0 <= Now() < U64 && TimeOk(c, true, Now())
      ensures c in accounts && accounts[c].cpuOwned == c.cpuOwned && c.xe + ProvisionalBurst(c) < U64
      ensures ProvisionalBurst(c) <= Now() - c.cpuOwned
      ensures c.xd + c.xe + ProvisionalBurst(c) <= Now()
    {
      ModAtMost(Now() - c.cpuOwned, U32);
    }

    lemma CommitOk(c: Task)
      requires c == current && AccountOk(c)
      ensures AccountBut(c, c.expBurst) && c in accounts && c.xe == Total(accounts[c].history)
      ensures Bursts(accounts[c].history + [ProvisionalBurst(c)])
      ensures Estimate(accounts[c].history + [ProvisionalBurst(c)]) == JudgedEstimate(c)
    {
      var h := accounts[c].history + [ProvisionalBurst(c)];
      assert h[..|h| - 1] == accounts[c].history;
    }

    lemma RingHead()
      requires QueuesOk() && rq.ring != []
      ensures rq.ring[0] == init == rq.head && rq.nrRunning == |rq.ring| && NoDup(rq.ring)
      ensures |rq.ring| >= 2 ==> rq.head.next == rq.ring[1] && rq.ring[1] in live
      ensures forall j :: 1 <= j < |rq.ring| ==> rq.ring[j] in live && rq.ring[j] != init
    {
      forall j | 1 <= j < |rq.ring| ensures rq.ring[j] in live && rq.ring[j] != init {
        assert rq.ring[j] in Elems(rq.ring);
      }
    }

    // ---------- waking, sleeping, forking, killing ----------

    lemma ElemsInserted(r: seq<Task>, p: Task)
      requires r != []
      ensures Elems([r[0], p] + r[1..]) == Elems(r) + {p}
    {
      assert r == [r[0]] + r[1..];
    }

    lemma ElemsAppended(l: seq<Task>, p: Task)
      ensures Elems(l + [p]) == Elems(l) + {p}
    {
    }

    lemma ElemsRemoved(r: seq<Task>, k: int)
      requires NoDup(r) && 0 <= k < |r|
      ensures Elems(r[..k] + r[k + 1..]) == Elems(r) - {r[k]}
    {
      var s := r[..k] + r[k + 1..];
      assert forall i :: 0 <= i < |s| ==> s[i] == r[if i < k then i else i + 1];
      assert forall i :: 0 <= i < |r| && i != k ==> r[i] == s[if i < k then i else i - 1];
      assert r[k] !in s;
    }

    lemma AppendedNoDup(l: seq<Task>, p: Task)
      requires NoDup(l) && p !in Elems(l)
      ensures NoDup(l + [p])
    {
      assert forall i :: 0 <= i < |l| ==> l[i] in Elems(l);
    }

    lemma WaitersApart()
      requires QueuesOk()
      ensures forall t :: t in waitlist ==> t !in rq.ring
      ensures current in rq.ring ==> current in Elems(rq.ring) && current !in Elems(waitlist)
    {
      forall t | t in waitlist ensures t !in rq.ring {
        assert t in Elems(waitlist);
      }
    }

    /** deactivate_task on a live task: it leaves the ring for the end of the wait list (cpu.c:263-276). */
    method GoToSleep()
      requires QueuesOk() && current in rq.ring && current != init
      modifies this`waitlist, rq`nrRunning, rq`ring, rq.ring`next, rq.ring`prev, current`needReschedule
      ensures QueuesOk() && waitlist == old(waitlist) + [current] && rq.ring == Less(old(rq.ring), current)
      ensures rq.ring != [] && current !in rq.ring && current.needReschedule && (old(Quiet()) ==> Quiet())
    {
      hide RunQueue.Valid, Elems;
      RingHead();
      ghost var k :| 0 <= k < |rq.ring| && rq.ring[k] == current;
      ElemsRemoved(rq.ring, k);
      ElemsAppended(waitlist, current);
      WaitersApart();
      AppendedNoDup(waitlist, current);
      LessAt(rq.ring, k);
      waitlist := waitlist + [current];
      rq.Dequeue(current, k);
      current.needReschedule := true;
    }

    /** The time of queueing, which only the goodness variant keeps. */
    method Stamp(p: Task)
      requires 0 <= Now() < U64
      modifies p`lastTimeInRunqueue, this`accounts
      ensures policy == SjfGoodness ==> p.lastTimeInRunqueue == Now()
      ensures accounts == Woken(old(accounts), [p], jiffies)
      ensures old(TimesOk()) ==> TimesOk()
      ensures old(AccountsOk()) ==> AccountsOk()
    {
      if policy == SjfGoodness {
        p.lastTimeInRunqueue := Now();
      }
      accounts := Woken(accounts, [p], jiffies);
      assert old(AccountsOk()) ==> forall t :: t in live ==> old(AccountOk(t));
    }

    /** activate_task on the first waiting task (cpu.c:347-351). */
    method WakeFirst()
      requires QueuesOk() && rq.ring != [] && waitlist != [] && 0 <= Now() < U64
      modifies this`waitlist, this`accounts, rq, waitlist`next, waitlist`prev, waitlist`lastTimeInRunqueue
      modifies rq.ring`next, rq.ring`prev
      ensures QueuesOk() && rq.ring == [old(rq.ring[0]), old(waitlist[0])] + old(rq.ring[1..])
      ensures waitlist == old(waitlist[1..]) && accounts == Woken(old(accounts), old(waitlist[..1]), jiffies)
      ensures policy == SjfGoodness ==> old(waitlist[0]).lastTimeInRunqueue == Now()
      ensures old(TimesOk()) ==> TimesOk()
      ensures old(AccountsOk()) ==> AccountsOk()
    {
      hide RunQueue.Valid, TimesOk, AccountsOk, Woken;
      RingHead();
      var p := waitlist[0];
      ghost var w := waitlist;
      assert w == [p] + w[1..];
      ElemsInserted(rq.ring, p);
      HeadApart(w);
      assert p in Elems(w) && w[..1] == [p];
      waitlist := waitlist[1..];
      rq.Enqueue(p);
      Stamp(p);
    }

    lemma HeadApart(w: seq<Task>)
      requires w != [] && NoDup(w)
      ensures NoDup(w[1..]) && Elems(w[1..]) == Elems(w) - {w[0]}
      ensures forall t :: t in w[1..] ==> t in w && t != w[0]
    {
      assert w == [w[0]] + w[1..];
      assert w[0] !in w[1..];
    }

    /** A thread's work, given in milliseconds; -1 stands for work without end. */
    ghost function InTicks(work: int): int
    {
      if work == -1 then -1 else TICKS_PER_MS * work
    }

    /** sched_fork; the time of queueing is set with the same clock. */
    method SchedFork(task: Task)
      requires 0 <= Now() < U64
      modifies task`timeSlice, task`burst, task`expBurst, task`cpuOwned, task`xe, task`xd, task`xa
      modifies task`lastTimeInRunqueue
      ensures task.xe == 0 && task.xd == Now() && task.expBurst == 0 && task.burst == 0 && task.timeSlice == TIMESLICE
      ensures task.cpuOwned == 0
      ensures policy == SjfGoodness ==> task.lastTimeInRunqueue == Now()
    {
      task.timeSlice := TIMESLICE;
      task.burst, task.expBurst, task.cpuOwned, task.xe, task.xd, task.xa := 0, 0, 0, 0, Now(), 0;
      if policy == SjfGoodness {
        task.lastTimeInRunqueue := Now();
      }
    }

    /** createTask and sched_fork. */
    method NewTask(thread: Thread) returns (task: Task)
      requires 0 <= Now() < U64
      modifies thread`children, thread`kill, thread`workDuration
      ensures fresh(task) && task.info == thread && task.next == null && !task.needReschedule && thread.children == 0
      ensures task.xe == 0 && task.xd == Now() && task.expBurst == 0 && task.cpuOwned == 0
      ensures task.burst == 0 && task.timeSlice == TIMESLICE && !thread.kill
      ensures thread.workDuration == InTicks(old(thread.workDuration))
      ensures policy == SjfGoodness ==> task.lastTimeInRunqueue == Now()
    {
      task := new Task(thread);
      thread.children := 0;
      thread.kill := false;
      if thread.workDuration != -1 {
        thread.workDuration := TICKS_PER_MS * thread.workDuration;
      }
      SchedFork(task);
    }

    /** The fields of a task just created. */
    ghost predicate Newborn(t: Task)
      reads this`jiffies, t`xe, t`xd, t`cpuOwned, t`expBurst, t`timeSlice, t`lastTimeInRunqueue
    {
      && t.xe == 0 && t.xd == Now() && t.cpuOwned == 0 && t.expBurst == 0 && t.timeSlice == TIMESLICE
      && (policy == SjfGoodness ==> t.lastTimeInRunqueue == Now())
    }

    /** A task comes alive, with an empty account. */
    ghost method Join(task: Task)
      requires TimesOk() && AccountsOk() && Newborn(task) && task !in live && task != current
      modifies this`live, this`accounts
      ensures TimesOk() && AccountsOk() && live == old(live) + {task}
      ensures accounts == old(accounts)[task := NewAccount(jiffies)]
    {
      hide Estimate, Total, Bursts;
      EmptyAccount();
      live := live + {task};
      accounts := accounts[task := NewAccount(jiffies)];
      forall t | t in live ensures TimeOk(t, t == current, Now()) && AccountOk(t) {
        if t != task { assert old(TimeOk(t, t == current, Now()) && AccountOk(t)); }
      }
    }

    lemma EmptyAccount()
      ensures Estimate([]) == 0 && Total([]) == 0 && Bursts([])
    {
    }

    /** A task goes, and its account with it. */
    ghost method Depart(task: Task)
      requires TimesOk() && AccountsOk()
      modifies this`live, this`accounts
      ensures TimesOk() && AccountsOk() && live == old(live) - {task} && accounts == old(accounts) - {task}
    {
      hide Estimate, Total, Bursts;
      live := live - {task};
      accounts := accounts - {task};
      forall t | t in live ensures TimeOk(t, t == current, Now()) && AccountOk(t) {
        assert old(TimeOk(t, t == current, Now()) && AccountOk(t));
      }
    }

    /** wake_up_new_task on a task just created, and the call for schedule() after it. */
    method Admit(task: Task)
      requires QueuesOk() && rq.ring != [] && TimesOk() && AccountsOk() && Quiet()
      requires task !in rq.ring && task !in waitlist && task != init && task != idle && task != current
      requires Newborn(task) && !task.needReschedule
      modifies this`live, this`accounts, rq, rq.ring`next, rq.ring`prev, task`next, task`prev, current`needReschedule
      ensures QueuesOk() && TimesOk() && AccountsOk() && Quiet() && live == old(live) + {task}
      ensures Here() == Spawned(old(Here()), [task], jiffies) && rq.ring != [] && current.needReschedule
    {
      hide Opened, RunQueue.Valid, TimeOk, AccountOk, TimesOk, AccountsOk, Elems;
      RingHead();
      WaitersApart();
      NotElem(waitlist, task);
      NotElem(rq.ring, task);
      ElemsInserted(rq.ring, task);
      JoinedOne(rq.ring, task);
      OpenedOne(accounts, task, jiffies);
      rq.Enqueue(task);
      Join(task);
      current.needReschedule := true;
    }

    lemma ClockOk()
      requires TimesOk()
      ensures 0 <= Now() < U64
    {
    }

    lemma KidsGrown(before: set<Task>, task: Task, th: Thread)
      requires task !in before
      ensures |Kids(th, before + {task})| == |Kids(th, before)| + if task.info.parent == th then 1 else 0
    {
      assert Kids(th, before + {task}) == Kids(th, before) + if task.info.parent == th then {task} else {};
    }

    lemma NoKids(before: set<Task>, among: set<Task>, th: Thread)
      requires forall t :: t in before ==> HasParent(t, among)
      requires forall u :: u in among ==> u.info != th
      ensures Kids(th, before) == {}
    {
    }

    /** The tree after a task joined it. */
    lemma TreeGrown(before: set<Task>, task: Task, parent: Task)
      requires live == before + {task} && task !in before && task != init
      requires parent in before + {init} && task.info.parent == parent.info && task.info.depth == parent.info.depth + 1
      requires Spawnable(task.info) && task.info.children == 0
      requires OwnThreads(before + {init}) && forall t :: t in before + {init} ==> t.info != task.info
      requires init.info.parent == null && init.info.threadType == Init && init.info.killTime == -1
      requires forall t :: t in before ==> HasParent(t, before + {init}) && Spawnable(t.info)
      requires forall t :: t in before + {init} ==>
                 t.info.children == |Kids(t.info, before)| + if t == parent then 1 else 0
      ensures TreeOk()
    {
      hide Kids;
      NoKids(before, before + {init}, task.info);
      forall t | t in Tasks() ensures t.info.children == |Kids(t.info, live)| {
        KidsGrown(before, task, t.info);
        assert t != task ==> (task.info.parent == t.info <==> t == parent);
      }
      forall t | t in live ensures HasParent(t, Tasks()) {
        if t == task { assert parent in Tasks(); } else { assert HasParent(t, before + {init}); }
      }
    }

    /** forktask: a new task for `thread`, a child of `parent`. */
    method ForkTask(thread: Thread, parent: Task) returns (task: Task)
      requires QueuesOk() && CurrentOk() && rq.ring != [] && TimesOk() && AccountsOk() && TreeOk() && Quiet()
      requires parent in Tasks() && thread.parent == parent.info && thread.depth == parent.info.depth + 1
      requires Spawnable(thread) && forall t :: t in Tasks() ==> t.info != thread
      modifies this`live, this`accounts, rq, rq.ring`next, rq.ring`prev, current`needReschedule
      modifies thread`children, thread`kill, thread`workDuration, parent.info`children
      ensures QueuesOk() && CurrentOk() && TimesOk() && AccountsOk() && TreeOk() && Quiet()
      ensures fresh(task) && task.info == thread && live == old(live) + {task}
      ensures Here() == Spawned(old(Here()), [task], jiffies) && rq.ring != [] && current.needReschedule
      ensures task.xe == 0 && task.xd == Now()
      ensures thread.workDuration == InTicks(old(thread.workDuration)) && !thread.kill
    {
      hide Opened, Joined, QueuesOk, TimesOk, AccountsOk, Kids, HasParent, Spawnable, TimeOk, AccountOk, InTicks;
      ghost var before := live;
      ClockOk();
      InfosApart(parent);
      JoinedKeeps(rq.ring, [], current);
      task := NewTask(thread);
      parent.info.children := parent.info.children + 1;
      JoinedKeeps(rq.ring, [task], current);
      Admit(task);
      TreeGrown(before, task, parent);
    }

    lemma InfosApart(parent: Task)
      requires TreeOk() && parent in Tasks()
      ensures forall t :: t in Tasks() && t != parent ==> t.info != parent.info
    {
    }

    ghost function ClockMs(): int
      reads this`clocktick
    {
      clocktick / TICKS_PER_MS
    }

    /** The running task has to end: it was told to or its parent was, or its time is up, or its work is done. */
    ghost predicate Ending()
      reads this`current, this`clocktick, current.info`kill, current.info`workDuration
      reads ParentSet(current.info)`kill
    {
      var th := current.info;
      || th.kill || (th.parent != null && th.parent.kill)
      || (th.killTime >= 0 && ClockMs() >= th.killTime) || th.workDuration == 0
    }

    /** No live task is without a way up to init. */
    lemma Rootless(t: Task)
      requires TreeOk() && t in live
      ensures Kids(init.info, live) != {}
      decreases t.info.depth
    {
      var u :| u in Tasks() && t.info.parent == u.info && t.info.depth == u.info.depth + 1;
      if u == init {
        assert t in Kids(init.info, live);
      } else {
        Rootless(u);
      }
    }

    /** When init has no children left, nothing is alive. */
    lemma InitEndsLast()
      requires TreeOk() && init.info.children == 0
      ensures live == {}
    {
      if live != {} {
        var t :| t in live;
        Rootless(t);
      }
    }

    lemma OnlyInit()
      requires QueuesOk() && live == {} && rq.ring != []
      ensures rq.ring == [init] && waitlist == []
    {
      RingHead();
      NoElems(waitlist);
      HeadApart(rq.ring);
      NoElems(rq.ring[1..]);
    }

    lemma NotElem(l: seq<Task>, t: Task)
      ensures t !in l ==> t !in Elems(l)
    {
    }

    lemma NoElems(l: seq<Task>)
      ensures Elems(l) == {} ==> l == []
    {
      if l != [] { assert l[0] in Elems(l); }
    }

    lemma LiveApart()
      requires QueuesOk()
      ensures init !in live && idle !in live
    {
    }

    /** The tree after a task without children left it. */
    lemma TreeShrunk(before: set<Task>, task: Task, parent: Task)
      requires live == before - {task} && task in before && task != init && init !in before
      requires parent in before + {init} && task.info.parent == parent.info
      requires OwnThreads(before + {init}) && Kids(task.info, before) == {}
      requires init.info.parent == null && init.info.threadType == Init && init.info.killTime == -1
      requires forall t :: t in before ==> HasParent(t, before + {init}) && Spawnable(t.info)
      requires forall t :: t in before + {init} && t != task ==>
        t.info.children == |Kids(t.info, before)| - if t == parent then 1 else 0
      ensures TreeOk()
    {
      forall t | t in Tasks() ensures t.info.children == |Kids(t.info, live)| {
        KidsGrown(live, task, t.info);
        assert live + {task} == before;
      }
      forall t | t in live ensures HasParent(t, Tasks()) {
        var u :| u in before + {init} && t.info.parent == u.info && t.info.depth == u.info.depth + 1;
        assert t in Kids(u.info, before);
        assert u != task;
      }
    }

    /** killtask on a task that is off the queue: its line in the results, and idle in its place. */
    method HandToIdle()
      requires QueuesOk() && TimesOk() && AccountsOk() && Quiet() && current !in live && current !in {init, idle}
      requires rq.nrRunning != 0 && 0 <= current.xd + current.xe <= Now()
      modifies this`current, this`results, current`xd, current`xa, idle`needReschedule
      ensures QueuesOk() && TimesOk() && AccountsOk() && Quiet() && current == idle && idle.needReschedule
      // execution and waiting time add up to the time since the task was created
      ensures results == old(results) + [old(Line(current))] && old(Line(current)).xa >= 0
    {
      hide QueuesOk, Estimate, AccountOk;
      LiveApart();
      var j, now := current, Now();
      j.xd := now - j.xd;
      j.xa := j.xd - j.xe;
      results := results + [Timing(j.xe, j.xd, j.xa)];
      current := idle;
      if rq.nrRunning != 0 {
        idle.needReschedule := true;
      }
    }

    /** deactivate_task and killtask (cpu.c:508-509, 554-589). */
    method KillCurrent(ghost parent: Task)
      requires QueuesOk() && TimesOk() && AccountsOk() && Quiet() && TreeOk()
      requires current in live && current in rq.ring && current.info.children == 0
      requires parent in Tasks() && parent.info == current.info.parent
      modifies this`current, this`live, this`accounts, this`results, rq`nrRunning, rq`ring, rq.ring`next, rq.ring`prev
      modifies current`xd, current`xa, parent.info`children, idle`needReschedule
      ensures QueuesOk() && TimesOk() && AccountsOk() && Quiet() && TreeOk()
      ensures live == old(live) - {old(current)} && rq.ring != [] && idle.needReschedule
      ensures results == old(results) + [old(Line(current))] && old(Line(current)).xa >= 0
      ensures Here() == Ran(old(Here()), idle, true)
    {
      hide Less, QueuesOk, TimesOk, AccountsOk, Quiet, Kids, HasParent, Spawnable, Line;
      LiveApart();
      RingMember();
      var j := current;
      ghost var before := live;
      InfosApart(parent);
      InfosApart(j);
      NoOwnKids(j);
      Charged(j);
      Unlist();
      HandToIdle();
      var p := j.info.parent;
      p.children := p.children - 1;
      TreeShrunk(before, j, parent);
    }

    lemma Charged(t: Task)
      requires TimesOk() && t in live
      ensures 0 <= t.xd + t.xe <= Now() < U64
    {
      assert TimeOk(t, t == current, Now());
    }

    lemma NoOwnKids(t: Task)
      requires TreeOk() && t in Tasks() && t.info.children == 0
      ensures Kids(t.info, live) == {}
    {
    }

    /** deactivate_task on a task that is about to go. */
    method Unlist()
      requires QueuesOk() && TimesOk() && AccountsOk() && Quiet() && current in rq.ring && current in live
      modifies this`live, this`accounts, rq`nrRunning, rq`ring, rq.ring`next, rq.ring`prev
      ensures QueuesOk() && TimesOk() && AccountsOk() && Quiet()
      ensures live == old(live) - {current} && rq.ring != [] && rq.nrRunning != 0
      ensures rq.ring == Less(old(rq.ring), current) && accounts == old(accounts) - {current}
    {
      hide RunQueue.Valid, TimesOk, AccountsOk;
      RingHead();
      ghost var k :| 0 <= k < |rq.ring| && rq.ring[k] == current;
      ElemsRemoved(rq.ring, k);
      LessAt(rq.ring, k);
      assert current in Elems(rq.ring);
      Depart(current);
      rq.Dequeue(current, k);
      RingHead();
    }

    lemma NobodyOk()
      requires live == {} == accounts.Keys && 0 <= Now() < U64
      ensures TimesOk() && AccountsOk()
    {
    }

    /** init ends last: nothing is alive, and the run queue becomes empty. */
    method KillInit()
      requires QueuesOk() && TimesOk() && AccountsOk() && Quiet() && TreeOk()
      requires current == init && init in rq.ring && init.info.children == 0 && !init.needReschedule
      modifies this`current, rq`nrRunning, rq`ring, rq.ring`next, rq.ring`prev, init`xd, init`xa
      ensures QueuesOk() && TimesOk() && AccountsOk() && Quiet() && TreeOk()
      ensures live == {} && waitlist == [] && rq.ring == []
      ensures Here() == Ran(old(Here()), idle, true)
      ensures init.xd == (Now() - old(init.xd)) % U64 && init.xa == (init.xd - init.xe) % U64
    {
      hide TimesOk, AccountsOk, TreeOk;
      AccountsKeyed();
      ClockOk();
      InitEndsLast();
      OnlyInit();
      rq.Dequeue(init, 0);
      assert rq.ring == [] && accounts - {init} == accounts;
      assert QueuesOk();
      hide QueuesOk, Elems, NoDup, RunQueue.Valid;
      // killtask
      init.xd := (Now() - init.xd) % U64;
      init.xa := (init.xd - init.xe) % U64;
      current := idle;
      assert rq.nrRunning == 0;  // so idle does not ask for a reschedule
      NobodyOk();
    }

    /** taskEnd's deactivate_task and killtask (cpu.c:506-511). */
    method EndTask()
      requires QueuesOk() && TimesOk() && AccountsOk() && Quiet() && TreeOk() && PendingOk() && Counted()
      requires current in rq.ring && current.info.children == 0 && !current.needReschedule
      modifies this`current, this`live, this`accounts, this`results, rq`nrRunning, rq`ring, rq.ring`next, rq.ring`prev
      modifies current`xd, current`xa, idle`needReschedule, ParentSet(current.info)`children
      ensures QueuesOk() && TimesOk() && AccountsOk() && Quiet() && TreeOk() && PendingOk() && Counted()
      ensures Here() == Ran(old(Here()), idle, true) && live == old(live) - {old(current)}
      ensures idle.needReschedule == (old(current) != init)
      ensures old(current) == init ==> live == {} && waitlist == [] && rq.ring == [] && results == old(results)
      ensures old(current) != init ==> rq.ring != []
      ensures old(current) != init ==>
        results == old(results) + [old(Line(current))] && old(Line(current)).xa >= 0
    {
      hide Ran, QueuesOk, TimesOk, AccountsOk, TreeOk, PendingOk, Known, Unforked, Counted, Elems;
      RingMember();
      if current == init {
        KillInit();
      } else {
        Retire();
      }
    }

    /** The same for any task but init. */
    method Retire()
      requires QueuesOk() && TimesOk() && AccountsOk() && Quiet() && TreeOk() && PendingOk() && Counted()
      requires current in rq.ring && current in live && current.info.children == 0
      modifies this`current, this`live, this`accounts, this`results, rq`nrRunning, rq`ring, rq.ring`next, rq.ring`prev
      modifies current`xd, current`xa, idle`needReschedule, ParentSet(current.info)`children
      ensures QueuesOk() && TimesOk() && AccountsOk() && Quiet() && TreeOk() && PendingOk() && Counted()
      ensures Here() == Ran(old(Here()), idle, true) && live == old(live) - {old(current)}
      ensures rq.ring != [] && idle.needReschedule
      ensures results == old(results) + [old(Line(current))] && old(Line(current)).xa >= 0
    {
      hide Ran, QueuesOk, TimesOk, AccountsOk, Quiet, TreeOk, PendingOk, Known, Unforked, Counted, Elems;
      PendingParts();
      CountedParts();
      ghost var before, lines, c := live, |results|, current;
      ghost var parent := ParentOf(current);
      KillCurrent(parent);
      KnownShrunk(before);
      CountedEnd(before, c, lines);
    }

    /** taskEnd: note that the running task has to end, and end it once it has no live children. */
    method TaskEnd(ghost backlog: map<Thread, int>) returns (ended: bool)
      requires QueuesOk() && TimesOk() && AccountsOk() && Quiet() && TreeOk() && PendingOk() && Counted()
      requires current in rq.ring && !current.needReschedule && Forked(backlog) && current.info !in backlog
      modifies this`current, this`live, this`accounts, this`results, rq`nrRunning, rq`ring, rq.ring`next, rq.ring`prev
      modifies current.info`kill, current`xd, current`xa, idle`needReschedule
      modifies ParentSet(current.info)`children
      ensures QueuesOk() && TimesOk() && AccountsOk() && Quiet() && TreeOk() && PendingOk() && Counted()
      ensures ended <==> old(Ending()) && old(current.info.children) == 0
      // nobody outlives a parent that was told to end
      ensures old(current.info.children == 0 && current.info.parent != null && current.info.parent.kill) ==> ended
      ensures !ended ==> Here() == old(Here()) && live == old(live) && results == old(results)
      ensures !ended ==> idle.needReschedule == old(idle.needReschedule)
      ensures !ended ==> current.info.children == old(current.info.children) && current.xd == old(current.xd)
      ensures !ended && current.info.children == 0 ==> !Ending()
      ensures old(current).info.kill == (old(current.info.kill) || old(Ending()))
      ensures ended ==> Here() == Ran(old(Here()), idle, true) && live == old(live) - {old(current)}
      ensures ended ==> idle.needReschedule == (old(current) != init)
      ensures ended && old(current) == init ==>
                live == {} && waitlist == [] && rq.ring == [] && results == old(results)
      ensures ended && old(current) != init ==> rq.ring != []
      ensures ended && old(current) != init ==>
        results == old(results) + [old(Line(current))] && old(Line(current)).xa >= 0
      ensures Forked(backlog)
    {
      hide Ran, QueuesOk, TimesOk, AccountsOk, Quiet, TreeOk, PendingOk, Counted;
      ended := false;
      var thread, now := current.info, clocktick / TICKS_PER_MS;
      if thread.kill || (thread.parent != null && thread.parent.kill)
         || (thread.killTime >= 0 && now >= thread.killTime) || thread.workDuration == 0 {
        if !current.info.kill {
          current.info.kill := true;
        }
        if current.info.children == 0 {
          EndTask();
          ended := true;
        }
      }
    }

    lemma PendingParts()
      requires PendingOk()
      ensures Known(Tasks(), forked) && Unforked()
    {
    }

    lemma PendingWhole()
      requires Known(Tasks(), forked) && Unforked()
      ensures PendingOk()
    {
    }

    lemma KnownShrunk(before: set<Task>)
      requires Known(before + {init}, forked) && Unforked() && live <= before
      ensures PendingOk()
    {
      hide Unforked;
    }

    lemma CountedParts()
      requires Counted()
      ensures |forked| == 1 + |live| + |results|
    {
    }

    ghost function ParentSet(th: Thread): set<Thread>
    {
      if th.parent != null then {th.parent} else {}
    }

    lemma RingMember()
      requires QueuesOk() && current in rq.ring
      ensures current == init || current in live
      ensures init !in live && current != idle
    {
      assert current in Elems(rq.ring);
    }

    lemma ParentOf(t: Task) returns (u: Task)
      requires TreeOk() && t in live
      ensures u in Tasks() && t.info.parent == u.info && u != t
    {
      u :| u in Tasks() && t.info.parent == u.info && t.info.depth == u.info.depth + 1;
    }

    lemma BalanceKept(f: set<Thread>, thread: Thread, ts: set<Task>, task: Task)
      requires forked == f + {thread} && thread !in f && live == ts + {task} && task !in ts
      ensures Balance() == |f| - |ts|
    {
    }

    lemma BalanceIs()
      ensures Balance() == |forked| - |live|
    {
    }

    lemma CountedAgain()
      requires Balance() == 1 + |results|
      ensures Counted()
    {
    }

    lemma KnownInfos()
      requires PendingOk()
      ensures forall t :: t in Tasks() ==> t.info in threads && t.info in forked
    {
    }

    lemma CurrentInfo()
      requires QueuesOk() && TreeOk() && PendingOk() && current in rq.ring
      ensures current in Tasks() && current.info in threads && ParentSet(current.info) <= threads
      ensures current == init <==> current.info.threadType == Init
      ensures current != init ==> Spawnable(current.info)
      ensures current != idle && rq.ring != []
    {
      RingMember();
    }

    // ---------- spawning ----------

    /** One turn of spawnChildren's loop: fork the `i`-th pending thread and take it off the list. */
    method ForkPending(parent: Task, i: int) returns (task: Task)
      requires QueuesOk() && CurrentOk() && rq.ring != [] && TimesOk() && AccountsOk() && Quiet()
      requires TreeOk() && PendingOk() && parent in Tasks() && 0 <= i < |parent.info.pending|
      modifies this`live, this`accounts, this`forked, rq, rq.ring`next, rq.ring`prev, current`needReschedule
      modifies threads`children, {parent.info.pending[i]}`kill, {parent.info.pending[i]}`workDuration
      modifies parent.info`pending
      ensures QueuesOk() && CurrentOk() && rq.ring != [] && TimesOk() && AccountsOk() && Quiet()
      ensures TreeOk() && Unforked()
      ensures parent.info.pending == Without(old(parent.info.pending), i)
      ensures fresh(task) && task.info == old(parent.info.pending[i]) && live == old(live) + {task}
      ensures forked == old(forked) + {task.info} && task.info in threads && task.info !in old(forked)
      ensures Here() == Spawned(old(Here()), [task], jiffies) && current.needReschedule
      ensures task.info.workDuration == InTicks(old(parent.info.pending[i].workDuration)) && !task.info.kill
    {
      hide Spawned, QueuesOk, TimesOk, AccountsOk, Quiet, TreeOk, CurrentOk, PendingOk, Unforked, Known, Spawnable,
           Elems, Without;
      var th := parent.info;
      PendingParts();
      KnownInfos();
      NotYetForked(th, i);
      task := ForkTask(th.pending[i], parent);
      StrikeOff(th, i);
    }

    /** The same, with what it means for the thread table. */
    method SpawnOne(parent: Task, i: int) returns (task: Task)
      requires QueuesOk() && CurrentOk() && rq.ring != [] && TimesOk() && AccountsOk() && Quiet()
      requires TreeOk() && PendingOk() && parent in Tasks() && 0 <= i < |parent.info.pending|
      modifies this`live, this`accounts, this`forked, rq, rq.ring`next, rq.ring`prev, current`needReschedule
      modifies threads`children, {parent.info.pending[i]}`kill, {parent.info.pending[i]}`workDuration
      modifies parent.info`pending
      ensures QueuesOk() && CurrentOk() && rq.ring != [] && TimesOk() && AccountsOk() && Quiet()
      ensures TreeOk() && PendingOk()
      ensures parent.info.pending == Without(old(parent.info.pending), i)
      ensures fresh(task) && task.info == old(parent.info.pending[i]) && live == old(live) + {task}
      ensures Here() == Spawned(old(Here()), [task], jiffies) && current.needReschedule
      ensures forked == old(forked) + {task.info}
      ensures Balance() == old(Balance())
      ensures task.info.workDuration == InTicks(old(parent.info.pending[i].workDuration)) && !task.info.kill
    {
      hide Spawned, QueuesOk, TimesOk, AccountsOk, Quiet, TreeOk, CurrentOk, PendingOk, Unforked, Known, Balance,
           Elems, Without;
      ghost var f, ts := forked, live;
      BalanceIs();
      PendingParts();
      task := ForkPending(parent, i);
      BalanceKept(f, task.info, ts, task);
      KnownGrown(ts + {init}, f, task);
      assert ts + {init} + {task} == Tasks();
      PendingWhole();
    }

    /** A forked thread leaves its parent's list for good. */
    method StrikeOff(th: Thread, i: int)
      requires Unforked() && th in threads && 0 <= i < |th.pending|
      modifies this`forked, th`pending
      ensures Unforked() && th.pending == Without(old(th.pending), i)
      ensures forked == old(forked) + {old(th.pending[i])}
    {
      hide GoodPending;
      ghost var l, f := th.pending, forked;
      assert GoodPending(l, th, threads, f);
      PendingForked(l, th, threads, f, i);
      PendingParent(l, th, threads, f, i);
      th.pending := th.pending[..i] + th.pending[i + 1..];
      forked := forked + {l[i]};
      forall x | x in threads ensures GoodPending(x.pending, x, threads, forked) {
        if x != th {
          assert old(GoodPending(x.pending, x, threads, forked));
          PendingElsewhere(x.pending, x, threads, f, l[i]);
        }
      }
    }

    lemma KnownGrown(before: set<Task>, f: set<Thread>, task: Task)
      requires Known(before, f) && task.info in threads && forked == f + {task.info}
      ensures Known(before + {task}, forked)
    {
    }

    lemma NotYetForked(th: Thread, i: int)
      requires PendingOk() && th in threads && 0 <= i < |th.pending|
      ensures var c := th.pending[i];
              c in threads && c !in forked && c.parent == th && c.depth == th.depth + 1 && Spawnable(c)
      ensures forall t :: t in Tasks() ==> t.info != th.pending[i]
    {
      assert GoodPending(th.pending, th, threads, forked);
    }

    /** What holds between two forks. */
    ghost predicate CanFork()
      reads this`current, this`jiffies, this`waitlist, this`live, this`forked
      reads rq, rq.ring`next, rq.ring`prev, waitlist`next, idle`next
      reads live`lastTimeInRunqueue, live`cpuOwned, live`xd, live`xe
      reads this`accounts, live`expBurst, live`timeSlice
      reads live`needReschedule, init`needReschedule, idle`needReschedule
      reads set t | t in live + {init} :: t.info`children
      reads threads`pending
    {
      QueuesOk() && CurrentOk() && rq.ring != [] && TimesOk() && AccountsOk() && Quiet() && TreeOk() && PendingOk()
    }

    /** spawnChildren's loop is at index `i` and has looked at `j` threads of the list `l`. */
    ghost predicate Looked(th: Thread, l: seq<Thread>, j: int, i: int)
      reads this`clocktick, th`pending
    {
      && 0 <= j <= |l| && th.pending == Left(l, j, clocktick)
      && i == |Later(l[..j], clocktick)| && |th.pending| == i + |l| - j
    }

    /** One turn of spawnChildren's loop. */
    method SpawnTurn(parent: Task, i: int, ghost l: seq<Thread>, ghost j: int, ghost backlog: map<Thread, int>)
        returns (next: int, ghost fork: seq<Task>)
      requires CanFork() && parent in Tasks() && Looked(parent.info, l, j, i) && j < |l| && Forked(backlog)
      modifies this`live, this`accounts, this`forked, rq, live`next, live`prev, init`next, init`prev
      modifies current`needReschedule
      modifies threads`children, (threads - forked)`kill, (threads - forked)`workDuration, parent.info`pending
      ensures CanFork() && Looked(parent.info, l, j + 1, next) && Forked(backlog)
      ensures Infos(fork) == if Due(l[j], clocktick) then [l[j]] else []
      ensures forked == old(forked) + Members(Infos(fork))
      ensures Here() == Spawned(old(Here()), fork, jiffies)
      ensures old(live) <= live && fresh(live - old(live)) && Balance() == old(Balance())
      ensures current.needReschedule == (old(current.needReschedule) || fork != [])
    {
      hide Spawned, QueuesOk, TimesOk, AccountsOk, TreeOk, CurrentOk, PendingOk, Quiet, Balance, Left, Later, Without;
      LeftStep(l, j, clocktick);
      KnownInfos();
      RingLive();
      NotYetForked(parent.info, i);
      next, fork := i, [];
      SpawnedNone(Here(), jiffies);
      if TICKS_PER_MS * parent.info.pending[i].spawnTime <= clocktick {
        var task := SpawnOne(parent, i);
        fork := [task];
      } else {
        next := i + 1;
      }
    }

    /** spawnChildren: fork every pending child whose time has come, and no other. */
    method SpawnChildren(parent: Task, ghost backlog: map<Thread, int>) returns (ghost forks: seq<Task>)
      requires CanFork() && parent in Tasks() && Forked(backlog)
      modifies this`live, this`accounts, this`forked, rq, live`next, live`prev, init`next, init`prev
      modifies current`needReschedule
      modifies threads`children, (threads - forked)`kill, (threads - forked)`workDuration, parent.info`pending
      ensures CanFork() && Forked(backlog)
      ensures old(live) <= live && fresh(live - old(live)) && Balance() == old(Balance())
      ensures Infos(forks) == old(DueIn(parent.info)) && Here() == Spawned(old(Here()), forks, jiffies)
      ensures parent.info.pending == old(LaterOf(parent.info)) && forked == old(forked) + Members(Infos(forks))
      ensures current.needReschedule == (old(current.needReschedule) || forks != [])
    {
      hide CanFork, Balance, Left, Later, DueOf, Due, Forked, Spawned, Infos, Members;
      forks := [];
      ghost var d := Here();
      SpawnedNone(d, jiffies);
      NoInfos();
      if parent.info.spawns {
        ghost var l, j := parent.info.pending, 0;
        LeftEnds(l, clocktick);
        var i := 0;
        while i < |parent.info.pending|
          invariant CanFork() && Looked(parent.info, l, j, i) && Forked(backlog)
          invariant old(live) <= live && fresh(live - old(live)) && Balance() == old(Balance())
          invariant Here() == Spawned(d, forks, jiffies)
          invariant Infos(forks) == DueOf(l[..j], clocktick) && forked == old(forked) + Members(Infos(forks))
          invariant current.needReschedule == (old(current.needReschedule) || forks != [])
          decreases |l| - j
        {
          LaterStep(l, j, clocktick);
          ghost var fork;
          i, fork := SpawnTurn(parent, i, l, j, backlog);
          SpawnedTwice(d, forks, fork, jiffies);
          MoreInfos(forks, fork);
          forks := forks + fork;
          j := j + 1;
        }
      }
    }

    /** What spawnChildren leaves pending, and what it forks. */
    ghost function LaterOf(th: Thread): seq<Thread>
      reads this`clocktick, th`pending
    {
      if th.spawns then Later(th.pending, clocktick) else th.pending
    }

    ghost function DueIn(th: Thread): seq<Thread>
      reads this`clocktick, th`pending
    {
      if th.spawns then DueOf(th.pending, clocktick) else []
    }

    // ---------- clocks ----------

    lemma RingLive()
      requires QueuesOk()
      ensures forall k :: 0 <= k < |rq.ring| ==> rq.ring[k] == init || rq.ring[k] in live
      ensures forall k :: 0 <= k < |waitlist| ==> waitlist[k] in live
    {
      assert forall k :: 0 <= k < |rq.ring| ==> rq.ring[k] in Elems(rq.ring);
      assert forall k :: 0 <= k < |waitlist| ==> waitlist[k] in Elems(waitlist);
    }

    /** The IO interrupt: every waiting task rejoins the run queue (cpu.c:335-357). */
    method WakeAll()
      requires QueuesOk() && TimesOk() && AccountsOk() && Quiet()
      modifies this`waitlist, this`accounts, rq, live`next, live`prev, live`lastTimeInRunqueue, init`next, init`prev
      ensures QueuesOk() && TimesOk() && AccountsOk() && Quiet()
      ensures Here() == AfterIo(old(Here()), true, jiffies)
    {
      hide QueuesOk, TimesOk, AccountsOk, Quiet, Woken, Joined;
      WokenNone(accounts, jiffies);
      JoinedNone(rq.ring);
      if rq.nrRunning == 0 {
        NobodyWaits();
        return;
      }
      ghost var w, r, i, books := waitlist, rq.ring, 0, accounts;
      Nonempty();
      assert w[..0] == [];
      while waitlist != []
        invariant QueuesOk() && TimesOk() && AccountsOk() && Quiet() && live == old(live)
        invariant 0 <= i <= |w| && waitlist == w[i..] && rq.ring != []
        invariant rq.ring == Joined(r, w[..i]) && accounts == Woken(books, w[..i], jiffies)
        decreases |w| - i
      {
        RingLive();
        ClockOk();
        assert w[..i] + [w[i]] == w[..i + 1] && w[i..][..1] == [w[i]];
        WokenStep(books, w, i, jiffies);
        JoinedTwice(r, w[..i], [w[i]]);
        JoinedOne(rq.ring, w[i]);
        WakeFirst();
        i := i + 1;
      }
      assert w[..i] == w;
    }

    lemma NobodyWaits()
      requires QueuesOk() && rq.nrRunning == 0
      ensures waitlist == [] && rq.ring == []
    {
      NoElems(waitlist);
    }

    lemma Nonempty()
      requires QueuesOk()
      ensures rq.nrRunning == |rq.ring|
    {
    }

    /** One jiffy passes, and the task on the processor has it. */
    method Advance()
      requires TimesOk() && Now() + NS_PER_JIFFY < U64
      modifies this`jiffies, this`accounts
      ensures TimesOk() && (old(AccountsOk()) ==> AccountsOk()) && jiffies == old(jiffies) + 1
      ensures accounts == Clocked(old(accounts), current)
    {
      jiffies := jiffies + 1;
      accounts := Clocked(accounts, current);
      forall t | t in live ensures TimeOk(t, t == current, Now()) && (old(AccountsOk()) ==> AccountOk(t)) {
        assert old(TimeOk(t, t == current, Now()));
        assert old(AccountsOk()) ==> old(AccountOk(t));
      }
    }

    /** scheduler_tick: init gives way to anything ready; other tasks run out of their time slice.  The ghost
        results are those of schedule(). */
    method SchedulerTick(rnd: nat) returns (ghost turn: Turn)
      requires QueuesOk() && TimesOk() && AccountsOk() && Quiet() && current in rq.ring
      modifies this`current, this`intWaitTimer, rq.ring`cpuOwned,
        current`needReschedule, current`lastTimeInRunqueue, current`burst, current`expBurst, current`xe,
        current`timeSlice, this`accounts
      ensures QueuesOk() && TimesOk() && AccountsOk() && Quiet() && current in rq.ring
      ensures TurnOk(policy, SliceCounted(old(Here()), init), Expires(old(Here()), init), turn, jiffies)
      ensures Here() == AfterTurn(SliceCounted(old(Here()), init), turn, jiffies, rnd)
      ensures turn.Turn? ==> current != init && !current.needReschedule
      ensures turn.NoTurn? ==> current == old(current) && current.needReschedule == old(current.needReschedule)
      ensures old(current != init && current.timeSlice == 1) ==> old(current).timeSlice == TIMESLICE
    {
      hide QueuesOk, TimesOk, AccountsOk, Quiet, Picks, JudgedEstimate, ProvisionalBurst, Settled, Chosen,
           CountedDown;
      ghost var k, minExp, maxWait;
      turn := NoTurn;
      RingHead();
      InRing();
      SliceLeft();
      if current == rq.head && rq.nrRunning > 1 {
        turn, k, minExp, maxWait := Schedule(rnd);
      } else if current != rq.head {
        var expired := CountDown();
        if expired {
          turn, k, minExp, maxWait := Schedule(rnd);
        }
      }
    }

    /** schedule.c:207-213: one tick of the slice; a used-up slice is renewed. */
    method CountDown() returns (expired: bool)
      requires AccountsOk() && 1 <= current.timeSlice <= TIMESLICE
      requires current in accounts && accounts[current].slice == current.timeSlice
      modifies current`timeSlice, this`accounts
      ensures AccountsOk() && (old(TimesOk()) ==> TimesOk()) && (expired <==> old(current.timeSlice) == 1)
      ensures current.timeSlice == if expired then TIMESLICE else old(current.timeSlice) - 1
      ensures accounts == CountedDown(old(accounts), current)
    {
      hide Estimate, Total;
      current.timeSlice := (current.timeSlice - 1) % U32;
      expired := current.timeSlice <= 0;
      if expired {
        current.timeSlice := TIMESLICE;
      }
      accounts := CountedDown(accounts, current);
      forall t | t in live ensures AccountOk(t) {
        assert old(AccountOk(t));
      }
    }

    lemma SliceLeft()
      requires QueuesOk() && AccountsOk() && current in rq.ring
      ensures current != init ==>
                && 1 <= current.timeSlice <= TIMESLICE
                && current in accounts && accounts[current].slice == current.timeSlice
    {
      RingMember();
      if current != init { assert AccountOk(current); }
    }

    lemma InRing()
      requires QueuesOk() && current in rq.ring
      ensures CurrentOk() && (current != init ==> |rq.ring| > 1)
    {
      RingHead();
      var k :| 0 <= k < |rq.ring| && rq.ring[k] == current;
    }

    /** What cycle() leaves to interrupt(): a task on the processor, or one that just left it and asks to be
        replaced, or nothing at all. */
    ghost predicate Handover()
      reads this`current, this`waitlist, rq`ring, current`needReschedule
    {
      || (current in rq.ring && (current == init && |rq.ring| > 1 ==> current.needReschedule))
      || (rq.ring != [] && current in waitlist && current.needReschedule)
      || (rq.ring != [] && current == idle && current.needReschedule)
      || (rq.ring == [] && current == idle && !current.needReschedule)
    }

    lemma WhereCurrent()
      requires QueuesOk() && Handover()
      ensures current in live || current == init || current == idle
      ensures current.next != null <==> current in rq.ring
      ensures idle !in live && idle != init && CurrentOk()
    {
      RingLive();
    }

    /** The timer part of interrupt(): a jiffy every ten milliseconds, and the scheduler's tick. */
    method Tick(rnd: nat) returns (ghost turn: Turn)
      requires QueuesOk() && TimesOk() && AccountsOk() && Quiet() && Handover() && Now() + NS_PER_JIFFY < U64
      modifies this`current, this`intWaitTimer, this`jiffies, this`timer
      modifies this`accounts, live`cpuOwned, live`needReschedule, live`lastTimeInRunqueue, live`burst, live`expBurst,
        live`xe, live`timeSlice
      modifies init`cpuOwned, init`needReschedule, init`lastTimeInRunqueue, init`burst, init`expBurst, init`xe,
        init`timeSlice
      ensures QueuesOk() && TimesOk() && AccountsOk() && Quiet() && Handover()
      ensures jiffies == NextJiffies(old(jiffies), old(timer)) && timer == NextTick(old(timer))
      ensures TickOk(policy, old(Here()), init, old(jiffies) < jiffies, turn, jiffies)
      ensures Here() == AfterTurn(BeforeTick(old(Here()), init, old(jiffies) < jiffies), turn, jiffies, rnd)
      ensures current.needReschedule == (turn.NoTurn? && old(current.needReschedule))
      ensures turn.Turn? ==> old(current in rq.ring) && jiffies > old(jiffies)
      // the slice of a task other than init goes down by one, and is renewed at its end
      ensures old(timer <= 1 && current in rq.ring && current != init && current.timeSlice == 1) ==>
        old(current).timeSlice == TIMESLICE
    {
      hide QueuesOk, TimesOk, AccountsOk, Quiet, Settled, Clocked, Chosen, SliceCounted, Expires, SwitchTimer;
      turn := NoTurn;
      WhereCurrent();
      RingLive();
      ExpiresAnyway(Here(), init);
      if timer > 0 {
        timer := timer - 1;
      }
      if timer <= 0 {
        Advance();
        timer := TICKS_PER_MS * 10;
        if current.next != null {
          turn := SchedulerTick(rnd);
        }
      }
    }

    /** The IO part of interrupt(): when the timer runs out, everybody wakes. */
    method FireIo()
      requires QueuesOk() && TimesOk() && AccountsOk() && Quiet() && Handover() && (intTimer == -1 || intTimer > 0)
      modifies this`intTimer, this`waitlist, this`accounts, rq
      modifies live`next, live`prev, live`lastTimeInRunqueue, live`needReschedule
      modifies init`next, init`prev, init`needReschedule, idle`needReschedule
      ensures QueuesOk() && TimesOk() && AccountsOk() && Quiet() && CurrentOk()
      ensures !current.needReschedule && rq.ring != [] ==> current in rq.ring && (current == init ==> |rq.ring| == 1)
      ensures intTimer == NextTimer(old(intTimer)) && (intTimer == -1 || intTimer > 0)
      ensures Here() == AfterIo(old(Here()), old(intTimer) == 1, jiffies)
      ensures current.needReschedule == (old(current.needReschedule) || old(intTimer) == 1)
      ensures rq.ring == [] <==> old(rq.ring) == []
    {
      hide QueuesOk, TimesOk, AccountsOk, Quiet, Joined, Woken;
      WhereCurrent();
      if rq.ring != [] { JoinedKeeps(rq.ring, waitlist, current); }
      assert rq.ring == [] ==> Joined(rq.ring, waitlist) == [] by { EmptyJoined(); }
      if intTimer > 0 {
        intTimer := intTimer - 1;
      }
      if intTimer == 0 {
        intTimer := -1;
        WakeAll();
        AskAgain();
      }
    }

    /** The interrupt asks for schedule(). */
    method AskAgain()
      requires Quiet()
      modifies current`needReschedule
      ensures Quiet() && current.needReschedule
    {
      current.needReschedule := true;
    }

    lemma EmptyJoined()
      ensures Joined([], waitlist) == []
    {
    }

    lemma DeadRing()
      requires QueuesOk()
      ensures rq.ring == [] ==> live == {} && waitlist == []
    {
      NoElems(waitlist);
    }

    /** interrupt(): the tick and the IO timer.  True asks for schedule(). */
    method Interrupt(rnd: nat) returns (reschedule: bool, ghost turn: Turn)
      requires QueuesOk() && TimesOk() && AccountsOk() && Quiet() && Handover()
      requires Now() + NS_PER_JIFFY < U64 && (intTimer == -1 || intTimer > 0)
      modifies this`current, this`accounts, this`intWaitTimer, this`jiffies, this`timer, this`intTimer, this`waitlist
      modifies rq, live, init, idle`needReschedule
      ensures QueuesOk() && TimesOk() && AccountsOk() && Quiet() && CurrentOk()
      ensures !reschedule && rq.ring != [] ==> current in rq.ring && (current == init ==> |rq.ring| == 1)
      ensures jiffies == NextJiffies(old(jiffies), old(timer)) && timer == NextTick(old(timer))
      ensures intTimer == NextTimer(old(intTimer)) && (intTimer == -1 || intTimer > 0)
      ensures TickOk(policy, old(Here()), init, old(jiffies) < jiffies, turn, jiffies)
      ensures Here() == AfterIo(AfterTurn(BeforeTick(old(Here()), init, old(jiffies) < jiffies), turn, jiffies, rnd),
                                old(intTimer) == 1, jiffies)
      ensures reschedule <==> current.needReschedule
      ensures reschedule <==> (turn.NoTurn? && old(current.needReschedule)) || old(intTimer) == 1
      ensures turn.Turn? ==> old(current in rq.ring) && jiffies > old(jiffies)
      ensures rq.ring == [] <==> old(rq.ring) == []
    {
      hide QueuesOk, TimesOk, AccountsOk, Quiet, TickOk, BeforeTick, AfterTurn, AfterIo;
      WhereCurrent();
      SameRing(old(Here()));
      turn := Tick(rnd);
      FireIo();
      reschedule := current.needReschedule;
    }

    /** The ring does not change in a tick. */
    lemma SameRing(d: Desk)
      ensures forall passed, turn, at, rnd: nat :: AfterTurn(BeforeTick(d, init, passed), turn, at, rnd).ring == d.ring
    {
    }

    /** A jiffy passes when the tick timer runs out, which is every ten milliseconds. */
    ghost function NextJiffies(jiffies: int, timer: int): int
    {
      jiffies + if timer <= 1 then 1 else 0
    }

    ghost function NextTick(timer: int): int
    {
      if timer <= 1 then TICKS_PER_MS * 10 else timer - 1
    }

    /** What interrupt() makes of the IO timer. */
    ghost function NextTimer(timer: int): int
    {
      if timer == 1 then -1 else if timer > 0 then timer - 1 else timer
    }

    // ---------- the main loop ----------

    /** The machine between two iterations of the main loop.  The processor is never left to init while
        another task is ready. */
    ghost predicate Running()
      reads this, rq, rq.ring`next, rq.ring`prev, waitlist`next, idle`next
      reads live`lastTimeInRunqueue, live`cpuOwned, live`xd, live`xe
      reads live`expBurst, live`timeSlice
      reads current`needReschedule, live`needReschedule, init`needReschedule, idle`needReschedule
      reads set t | t in live + {init} :: t.info`children
      reads threads`pending
    {
      && QueuesOk() && TimesOk() && AccountsOk() && Quiet() && TreeOk() && PendingOk() && Counted()
      && current in rq.ring && !current.needReschedule && (intTimer == -1 || intTimer > 0)
      && (current == init ==> |rq.ring| == 1)
    }

    /** The running task ends in this cycle: it has to, or its work is done now, and no child of it is alive. */
    ghost predicate EndsNow()
      reads this`current, this`clocktick, current.info`kill, current.info`workDuration, current.info`children
      reads ParentSet(current.info)`kill
    {
      current.info.children == 0 && (Ending() || (current != init && current.info.workDuration == 1))
    }

    /** The running task's parent was told to end, and no child of the task is alive. */
    ghost predicate Orphaned()
      reads this`current, current.info`children, ParentSet(current.info)`kill
    {
      current.info.parent != null && current.info.parent.kill && current.info.children == 0
    }

    /** init has the message to end, or gets it in this cycle. */
    ghost predicate InitTold()
      reads this`current, this`clocktick, init.info`kill, current.info`kill, current.info`workDuration
      reads ParentSet(current.info)`kill
    {
      init.info.kill || (current == init && Ending())
    }

    /** One cycle of work, after which the task may be done (cpu.c:244-252, 280-289). */
    method WorkOff(ghost backlog: map<Thread, int>) returns (ended: bool)
      requires QueuesOk() && TimesOk() && AccountsOk() && Quiet() && TreeOk() && PendingOk() && Counted()
      requires current in rq.ring && current != init && !current.needReschedule
      requires (current.info.children == 0 ==> !Ending()) && Forked(backlog) && current.info !in backlog
      modifies this`current, this`live, this`accounts, this`results, rq`nrRunning, rq`ring, rq.ring`next, rq.ring`prev
      modifies current.info`kill, current.info`workDuration, current`xd, current`xa, idle`needReschedule
      modifies ParentSet(current.info)`children
      ensures QueuesOk() && TimesOk() && AccountsOk() && Quiet() && TreeOk() && PendingOk() && Counted()
      ensures rq.ring != [] && Forked(backlog)
      ensures ended <==> old(current.info.children == 0 && current.info.workDuration == 1)
      ensures ended ==> Here() == Ran(old(Here()), idle, true)
      ensures ended ==> idle.needReschedule && live == old(live) - {old(current)}
      ensures ended ==> results == old(results) + [old(Line(current))] && old(Line(current)).xa >= 0
      ensures !ended ==> Here() == old(Here()) && live == old(live) && results == old(results)
      ensures !ended ==> current.info.workDuration == old(WorkLeft(current))
      ensures !ended && old(current.info.workDuration) !in {0, 1} ==> current.info.kill == old(current.info.kill)
    {
      hide Ran, QueuesOk, TimesOk, AccountsOk, Quiet, TreeOk, PendingOk, Counted, Line;
      CurrentInfo();
      ended := false;
      if current.info.workDuration > 0 {
        current.info.workDuration := current.info.workDuration - 1;
      }
      if current.info.workDuration == 0 {
        ended := TaskEnd(backlog);
      }
    }

    /** The part of cycle() that depends on the type of the task: work, and waiting for IO (cpu.c:235-290). */
    method Work(ghost backlog: map<Thread, int>) returns (ended: bool)
      requires QueuesOk() && TimesOk() && AccountsOk() && Quiet() && TreeOk() && PendingOk() && Counted()
      requires current in rq.ring && !current.needReschedule
      requires (current.info.children == 0 ==> !Ending()) && Forked(backlog) && current.info !in backlog
      modifies this`current, this`live, this`accounts, this`results, this`waitlist, this`intWaitTimer
      modifies rq, live, init, idle`needReschedule, current.info`kill, current.info`workDuration
      modifies ParentSet(current.info)`children
      ensures QueuesOk() && TimesOk() && AccountsOk() && Quiet() && TreeOk() && PendingOk() && Counted()
      ensures rq.ring != [] && Forked(backlog)
      ensures ended <==> old(current != init && current.info.children == 0 && current.info.workDuration == 1)
      ensures ended ==> idle.needReschedule && live == old(live) - {old(current)}
      ensures ended ==> results == old(results) + [old(Line(current))] && old(Line(current)).xa >= 0
      // an interactive task whose wait timer runs out goes to the end of the wait list, and nothing else does
      ensures Here() == Ran(old(Here()), idle, ended)
      ensures !ended ==>
        if old(current.info.threadType == Interactive && intWaitTimer in {0, 1})
        then waitlist == old(waitlist) + [current] && current !in rq.ring && current.needReschedule
        else waitlist == old(waitlist) && current in rq.ring && !current.needReschedule
      ensures !ended ==> live == old(live) && results == old(results)
      ensures !ended ==> current.info.workDuration == old(WorkLeft(current))
      ensures !ended && (current == init || old(current.info.workDuration) !in {0, 1}) ==>
        current.info.kill == old(current.info.kill)
    {
      hide Less, Forked, Ending, Line, QueuesOk, TimesOk, AccountsOk, Quiet, TreeOk, PendingOk, Counted;
      CurrentInfo();
      RingLive();
      ended := false;
      if current.info.threadType != Init {
        ended := WorkOff(backlog);
        if ended { return; }
      }
      if current.info.threadType == Interactive {
        WaitForIo();
      }
    }

    /** The work a task has left after one cycle; -1 stands for work without end, and init has none. */
    ghost function WorkLeft(t: Task): int
      reads t.info`workDuration
    {
      if t != init && t.info.workDuration > 0 then t.info.workDuration - 1 else t.info.workDuration
    }

    /** cpu.c:253-277: when the wait timer runs out, the task sleeps. */
    method WaitForIo()
      requires QueuesOk() && TimesOk() && AccountsOk() && Quiet()
      requires current in rq.ring && current != init && !current.needReschedule
      requires current.info.threadType == Interactive
      modifies this`waitlist, this`intWaitTimer, rq, rq.ring`next, rq.ring`prev, current`needReschedule
      ensures QueuesOk() && TimesOk() && AccountsOk() && Quiet() && rq.ring != []
      ensures if old(intWaitTimer) in {0, 1}
              then waitlist == old(waitlist) + [current] && current !in rq.ring && current.needReschedule
              else waitlist == old(waitlist) && current in rq.ring && !current.needReschedule
      ensures Here() == Ran(old(Here()), idle, false)
    {
      hide Less, QueuesOk, TimesOk, AccountsOk, Quiet;
      if intWaitTimer > 0 {
        intWaitTimer := intWaitTimer - 1;
      }
      if intWaitTimer == 0 {
        intWaitTimer := -1;
        GoToSleep();
      }
    }

    /** cpu.c:230-290: end the running task if it has to, otherwise let it work. */
    method RunCurrent(ghost backlog: map<Thread, int>) returns (gone: bool)
      requires QueuesOk() && TimesOk() && AccountsOk() && Quiet() && TreeOk() && PendingOk() && Counted()
      requires current in rq.ring && !current.needReschedule && (current == init ==> |rq.ring| == 1)
      requires Forked(backlog) && backlog.Keys !! forked
      modifies this`current, this`live, this`accounts, this`results, this`waitlist, this`intWaitTimer
      modifies rq, live, init, idle`needReschedule, current.info`kill, current.info`workDuration
      modifies ParentSet(current.info)`children
      ensures QueuesOk() && TimesOk() && AccountsOk() && Quiet() && TreeOk() && PendingOk() && Counted()
      ensures Handover() && Forked(backlog)
      ensures gone <==> old(EndsNow())
      // who is on the processor, in the ring and on the wait list afterwards, and whether schedule() is asked for
      ensures Here() == Ran(old(Here()), idle, gone)
      ensures current.needReschedule <==> if gone then old(current) != init else old(Sleeps(Here()))
      ensures !gone ==>
        if old(current.info.threadType == Interactive && intWaitTimer in {0, 1})
        then waitlist == old(waitlist) + [current] && current !in rq.ring
        else waitlist == old(waitlist) && current in rq.ring
      ensures rq.ring == [] <==> old(current == init && EndsNow())
      ensures !gone ==> current == old(current) && current in Tasks() && current != idle
      ensures live == old(live) - if gone then {old(current)} else {}
      ensures old(live) - live == if old(EndsNow() && current != init) then {old(current)} else {}
      ensures old(Orphaned()) ==> old(current) !in live
      ensures old(EndsNow() && current != init) ==>
        results == old(results) + [old(Line(current))] && old(Reported(current))
      ensures !old(EndsNow() && current != init) ==> results == old(results)
      ensures init.info in forked && old(current).info in forked
      ensures old(current) != init ==> old(current).info != init.info
      ensures !gone ==> current.info.workDuration == old(WorkLeft(current))
      ensures !gone && old(!Ending() && current != init && current.info.workDuration > 1) ==> !current.info.kill
      ensures init.info.kill == old(InitTold())
      ensures init.info.workDuration == old(init.info.workDuration)
    {
      hide Orphaned, Reported, Less, Forked, QueuesOk, TimesOk, AccountsOk, Quiet, TreeOk, PendingOk, Counted, Ending,
           Line, Spawnable, InTicks, Kids;
      CycleFacts();
      RingLive();
      NotKilled();
      gone := TaskEnd(backlog);
      if !gone {
        gone := Work(backlog);
      }
    }

    lemma NotKilled()
      ensures !Ending() ==> !current.info.kill
    {
    }

    /** The threads the next cycle() forks, in order: every child of the running task or of init whose time has
        come, unless it ends the running task. */
    ghost function NextForks(): seq<Thread>
      reads this`current, this`clocktick, init.info`pending, current.info`pending
      reads current.info`kill, current.info`workDuration, current.info`children, ParentSet(current.info)`kill
    {
      if EndsNow() then [] else DueIn(current.info) + if current == init then [] else DueIn(init.info)
    }

    /** The threads that are forked after the next cycle(). */
    ghost function NextForked(): set<Thread>
      reads this`current, this`clocktick, this`forked, init.info`pending, current.info`pending
      reads current.info`kill, current.info`workDuration, current.info`children, ParentSet(current.info)`kill
    {
      forked + Members(NextForks())
    }

    /** What init's or the running task's thread has pending after the next cycle(). */
    ghost function NextPending(th: Thread): seq<Thread>
      reads this`current, this`clocktick, th`pending
      reads current.info`kill, current.info`workDuration, current.info`children, ParentSet(current.info)`kill
    {
      if EndsNow() then th.pending else LaterOf(th)
    }

    /** What cycle() makes of the IO timer: armed anew unless the cycle ended a task. */
    ghost function Armed(timer: int, ended: bool, rnd: nat): (armed: int)
      ensures timer == -1 || timer > 0 ==> armed == -1 || armed > 0
    {
      if timer < 0 && !ended then TICKS_PER_MS * (rnd % 1000 + 50) else timer
    }

    /** cycle(): run the current task for one tick. */
    method Cycle(rnd: nat) returns (ghost ended: bool, ghost forks: seq<Task>)
      requires Running()
      modifies this`current, this`live, this`accounts, this`forked, this`results, this`waitlist, this`intTimer
      modifies this`intWaitTimer
      modifies rq, live, init, idle`needReschedule, threads`children, (threads - forked)`kill
      modifies (threads - forked)`workDuration, current.info`kill, current.info`workDuration
      modifies init.info`pending, current.info`pending
      ensures QueuesOk() && TimesOk() && AccountsOk() && Quiet() && TreeOk() && PendingOk() && Counted()
      ensures Handover() && ended == old(EndsNow())
      // who ends, who goes to sleep, and who is forked; and whether schedule() is asked for
      ensures Here() == Spawned(Ran(old(Here()), idle, ended), forks, jiffies)
      ensures Infos(forks) == old(NextForks())
      ensures current.needReschedule <==> CycleAsks(old(Here()), init, ended, forks)
      ensures !ended ==>
        if old(current.info.threadType == Interactive && intWaitTimer in {0, 1})
        then waitlist == old(waitlist) + [current] else waitlist == old(waitlist)
      ensures rq.ring == [] <==> old(current == init && EndsNow())
      ensures old(live) - live == if old(EndsNow() && current != init) then {old(current)} else {}
      ensures fresh(live - old(live)) && (old(Orphaned()) ==> old(current) !in live)
      ensures old(EndsNow() && current != init) ==>
        results == old(results) + [old(Line(current))] && old(Reported(current))
      ensures !old(EndsNow() && current != init) ==> results == old(results)
      ensures intTimer == Armed(old(intTimer), ended, rnd) && (intTimer == -1 || intTimer > 0)
      // every child of init or of the running task whose time has come was forked, and nothing else
      ensures forked == old(NextForked()) && Forked(old(Backlog()))
      ensures init.info.pending == old(NextPending(init.info))
      ensures old(current).info.pending == old(NextPending(current.info))
      ensures init.info in old(forked) && (old(current) != init ==> old(current).info != init.info)
      ensures init.info.workDuration == old(init.info.workDuration)
      ensures !ended ==> old(current).info.workDuration == old(WorkLeft(current))
      ensures init.info.kill == old(InitTold())
      ensures !ended && old(!Ending() && current != init && current.info.workDuration > 1) ==>
        !old(current).info.kill
    {
      hide Orphaned, Reported, InitTold, Ran, Spawned, Sleeps, QueuesOk, TimesOk, AccountsOk, Quiet, TreeOk,
           PendingOk, Counted, Ending, EndsNow, LaterOf, DueIn, Line, Handover, WorkLeft, Backlog, Forked, NextForks,
           NextForked, NextPending, Armed, CycleAsks, Infos, Members;
      NothingForked();
      CurrentInfo();
      ended, forks := RunAndSpawn(rnd, Backlog());
    }

    lemma CycleFacts()
      requires QueuesOk() && TimesOk() && AccountsOk() && TreeOk() && PendingOk() && current in rq.ring
      ensures current in Tasks() && current != idle && rq.ring != []
      ensures current.info in threads && current.info in forked && init.info in threads && init.info in forked
      ensures ParentSet(current.info) <= threads && (current != init ==> current.info != init.info)
      ensures current == init && EndsNow() ==> live == {}
      ensures init !in live && (current == init || current in live) && (current != init ==> Reported(current))
      ensures Orphaned() ==> EndsNow() && current in live
    {
      InitEndsAlone();
      CurrentInfo();
      RingMember();
      KnownInfos();
      InfosApart(init);
      LineMeans();
    }

    /** The same, with the threads that were still to be forked given. */
    method RunAndSpawn(rnd: nat, ghost backlog: map<Thread, int>) returns (ghost ended: bool, ghost forks: seq<Task>)
      requires QueuesOk() && TimesOk() && AccountsOk() && Quiet() && TreeOk() && PendingOk() && Counted()
      requires current in rq.ring && !current.needReschedule && (current == init ==> |rq.ring| == 1)
      requires Forked(backlog) && backlog.Keys !! forked && ParentSet(current.info) <= threads
      modifies this`current, this`live, this`accounts, this`forked, this`results, this`waitlist, this`intTimer
      modifies this`intWaitTimer
      modifies rq, live, init, idle`needReschedule, threads`children, (threads - forked)`kill
      modifies (threads - forked)`workDuration, current.info`kill, current.info`workDuration
      modifies init.info`pending, current.info`pending
      ensures QueuesOk() && TimesOk() && AccountsOk() && Quiet() && TreeOk() && PendingOk() && Counted()
      ensures Handover() && ended == old(EndsNow()) && Forked(backlog)
      ensures Here() == Spawned(Ran(old(Here()), idle, ended), forks, jiffies)
      ensures current.needReschedule <==> CycleAsks(old(Here()), init, ended, forks)
      ensures !ended ==>
        if old(current.info.threadType == Interactive && intWaitTimer in {0, 1})
        then waitlist == old(waitlist) + [current] else waitlist == old(waitlist)
      ensures rq.ring == [] <==> old(current == init && EndsNow())
      ensures old(live) - live == if old(EndsNow() && current != init) then {old(current)} else {}
      ensures fresh(live - old(live)) && (old(Orphaned()) ==> old(current) !in live)
      ensures init.info in old(forked) && (old(current) != init ==> old(current).info != init.info)
      ensures old(EndsNow() && current != init) ==>
        results == old(results) + [old(Line(current))] && old(Reported(current))
      ensures !old(EndsNow() && current != init) ==> results == old(results)
      ensures intTimer == Armed(old(intTimer), ended, rnd)
      ensures Infos(forks) == old(NextForks()) && forked == old(NextForked())
      ensures init.info.pending == old(NextPending(init.info))
      ensures old(current).info.pending == old(NextPending(current.info))
      ensures init.info.workDuration == old(init.info.workDuration)
      ensures !ended ==> old(current).info.workDuration == old(WorkLeft(current))
      ensures init.info.kill == old(InitTold())
      ensures !ended && old(!Ending() && current != init && current.info.workDuration > 1) ==>
        !old(current).info.kill
    {
      hide Orphaned, Reported, InitTold, Ran, Spawned, Sleeps, QueuesOk, TimesOk, AccountsOk, Quiet, TreeOk,
           PendingOk, Counted, Ending, EndsNow, Later, DueOf, Line, Handover, WorkLeft, Forked, Kids, InTicks, Infos,
           Members;
      NoInfos();
      SpawnedNone(Ran(Here(), idle, true), jiffies);
      var gone := RunCurrent(backlog);
      ended, forks := gone, [];
      if gone { return; }
      forks := SpawnRound(rnd, backlog);
    }

    /** spawnChildren as cycle() calls it: a new task makes init give up the processor. */
    method SpawnFor(parent: Task, ghost backlog: map<Thread, int>) returns (ghost forks: seq<Task>)
      requires QueuesOk() && TimesOk() && AccountsOk() && Quiet() && TreeOk() && PendingOk() && Counted()
      requires Handover() && rq.ring != [] && parent in Tasks() && current != idle && Forked(backlog)
      modifies this`live, this`accounts, this`forked, rq, live, init
      modifies threads`children, (threads - forked)`kill, (threads - forked)`workDuration, parent.info`pending
      ensures QueuesOk() && TimesOk() && AccountsOk() && Quiet() && TreeOk() && PendingOk() && Counted()
      ensures Handover() && rq.ring != [] && Forked(backlog)
      ensures old(live) <= live && fresh(live - old(live))
      ensures Infos(forks) == old(DueIn(parent.info)) && Here() == Spawned(old(Here()), forks, jiffies)
      ensures parent.info.pending == old(LaterOf(parent.info)) && forked == old(forked) + Members(Infos(forks))
      ensures forall th :: th in old(forked) ==> th.kill == old(th.kill) && th.workDuration == old(th.workDuration)
      ensures current.needReschedule == (old(current.needReschedule) || forks != [])
    {
      hide QueuesOk, TimesOk, AccountsOk, Quiet, TreeOk, PendingOk, Counted, Balance, LaterOf, DueIn, Forked, Joined,
           Infos, Members;
      WhereCurrent();
      RingLive();
      CountedParts();
      BalanceIs();
      ghost var r := rq.ring;
      forks := SpawnChildren(parent, backlog);
      CountedAgain();
      JoinedKeeps(r, forks, current);
      JoinedNone(r);
    }

    /** cpu.c:292-301: arm the IO timer if it is not, and spawn the running task's children. */
    method SpawnOwn(rnd: nat, ghost backlog: map<Thread, int>) returns (ghost forks: seq<Task>)
      requires QueuesOk() && TimesOk() && AccountsOk() && Quiet() && TreeOk() && PendingOk() && Counted()
      requires Handover() && rq.ring != [] && current in Tasks() && current != idle && Forked(backlog)
      modifies this`live, this`accounts, this`forked, this`intTimer, rq, live, init
      modifies threads`children, (threads - forked)`kill, (threads - forked)`workDuration, current.info`pending
      ensures QueuesOk() && TimesOk() && AccountsOk() && Quiet() && TreeOk() && PendingOk() && Counted()
      ensures Handover() && rq.ring != []
      ensures old(live) <= live && fresh(live - old(live))
      ensures Infos(forks) == old(DueIn(current.info)) && Here() == Spawned(old(Here()), forks, jiffies)
      ensures current.info.pending == old(LaterOf(current.info)) && forked == old(forked) + Members(Infos(forks))
      ensures forall th :: th in old(forked) ==> th.kill == old(th.kill) && th.workDuration == old(th.workDuration)
      ensures current.needReschedule == (old(current.needReschedule) || forks != [])
      ensures Forked(backlog) && intTimer == Armed(old(intTimer), false, rnd)
    {
      hide QueuesOk, TimesOk, AccountsOk, Quiet, TreeOk, PendingOk, Counted, Handover, LaterOf, DueIn, Forked,
           Spawned, Infos, Members;
      if intTimer < 0 {
        intTimer := TICKS_PER_MS * (rnd % 1000 + 50);
      }
      forks := SpawnFor(current, backlog);
    }

    /** The end of cycle() (cpu.c:292-304): arm the IO timer if it is not, and call spawnChildren. */
    method SpawnRound(rnd: nat, ghost backlog: map<Thread, int>) returns (ghost forks: seq<Task>)
      requires QueuesOk() && TimesOk() && AccountsOk() && Quiet() && TreeOk() && PendingOk() && Counted()
      requires Handover() && rq.ring != [] && current in Tasks() && current != idle && Forked(backlog)
      modifies this`live, this`accounts, this`forked, this`intTimer, rq, live, init, threads`children
      modifies (threads - forked)`kill, (threads - forked)`workDuration, init.info`pending, current.info`pending
      ensures QueuesOk() && TimesOk() && AccountsOk() && Quiet() && TreeOk() && PendingOk() && Counted()
      ensures Handover() && rq.ring != []
      ensures old(live) <= live && fresh(live - old(live))
      ensures Infos(forks) == old(DueIn(current.info)) + if current == init then [] else old(DueIn(init.info))
      ensures Here() == Spawned(old(Here()), forks, jiffies)
      ensures current.needReschedule == (old(current.needReschedule) || forks != [])
      ensures init.info.pending == old(LaterOf(init.info)) && current.info.pending == old(LaterOf(current.info))
      ensures forked == old(forked) + Members(Infos(forks)) && Forked(backlog)
      ensures intTimer == Armed(old(intTimer), false, rnd)
      ensures forall th :: th in old(forked) ==> th.kill == old(th.kill) && th.workDuration == old(th.workDuration)
    {
      hide QueuesOk, TimesOk, AccountsOk, Quiet, TreeOk, PendingOk, Counted, Handover, Later, DueOf, Forked, Spawned,
           Infos, Members;
      KnownInfos();
      InfosApart(init);
      ghost var d := Here();
      ghost var own := SpawnOwn(rnd, backlog);
      if current == init { NothingDue(init.info, old(init.info.pending)); }
      else { assert DueIn(init.info) == old(DueIn(init.info)) && LaterOf(init.info) == old(LaterOf(init.info)); }
      ghost var more := SpawnFor(init, backlog);
      SpawnedTwice(d, own, more, jiffies);
      MoreInfos(own, more);
      forks := own + more;
    }

    /** A second look at a list forks nothing more. */
    lemma NothingDue(th: Thread, l: seq<Thread>)
      requires th.pending == if th.spawns then Later(l, clocktick) else l
      ensures LaterOf(th) == th.pending && DueIn(th) == []
    {
      NoneDue(Later(l, clocktick), clocktick);
    }

    lemma Resume()
      requires QueuesOk() && TimesOk() && AccountsOk() && Quiet() && TreeOk() && PendingOk() && Counted()
      requires current in rq.ring && !current.needReschedule && (intTimer == -1 || intTimer > 0)
      requires current == init ==> |rq.ring| == 1
      ensures Running()
    {
    }

    /** schedule() as runcpu's loop calls it, on a queue that is not empty. */
    method Redispatch(rnd: nat) returns (ghost turn: Turn)
      requires QueuesOk() && TimesOk() && AccountsOk() && Quiet() && TreeOk() && PendingOk() && Counted()
      requires CurrentOk() && rq.ring != []
      modifies this`current, this`accounts, this`intWaitTimer
      modifies live, init, idle
      ensures QueuesOk() && TimesOk() && AccountsOk() && Quiet() && TreeOk() && PendingOk() && Counted()
      ensures current in rq.ring && (current == init <==> |rq.ring| == 1) && !current.needReschedule
      ensures TurnOk(policy, old(Here()), true, turn, jiffies)
      ensures Here() == AfterTurn(old(Here()), turn, jiffies, rnd)
    {
      hide AfterTurn, Chosen, QueuesOk, TimesOk, AccountsOk, Quiet, TreeOk, PendingOk, Counted, Picks;
      RingLive();
      IdleApart();
      ghost var k, minExp, maxWait;
      turn, k, minExp, maxWait := Schedule(rnd);
    }

    /** The end of an iteration: when time is up, init gets the message to end (cpu.c:195-219). */
    method EndCycle(ghost backlog: map<Thread, int>) returns (status: Status)
      requires QueuesOk() && TimesOk() && AccountsOk() && Quiet() && TreeOk() && PendingOk() && Counted()
      requires rq.ring != [] ==> current in rq.ring && !current.needReschedule && (current == init ==> |rq.ring| == 1)
      requires (intTimer == -1 || intTimer > 0) && Forked(backlog) && init.info !in backlog
      modifies init.info`kill
      ensures status == if rq.ring == [] then Done else Continue
      ensures Counted() && (status == Continue ==> Running())
      ensures Forked(backlog) && init.info.kill == (old(init.info.kill) || ClockMs() >= endtime)
    {
      hide Forked, QueuesOk, TimesOk, AccountsOk, Quiet, TreeOk, PendingOk, Counted, Running;
      Nonempty();
      if !init.info.kill && clocktick / TICKS_PER_MS >= endtime {
        init.info.kill := true;
      }
      status := if rq.nrRunning == 0 then Done else Continue;
      if status == Continue { Resume(); }
    }

    /** runcpu's loop after interrupt(): schedule() if asked for, and the kill message when time is up. */
    method Finish(reschedule: bool, rnd: nat, ghost backlog: map<Thread, int>)
        returns (status: Status, ghost turn: Turn)
      requires QueuesOk() && TimesOk() && AccountsOk() && Quiet() && TreeOk() && PendingOk() && Counted()
      requires CurrentOk() && (intTimer == -1 || intTimer > 0) && reschedule == current.needReschedule
      requires !reschedule && rq.ring != [] ==> current in rq.ring && (current == init ==> |rq.ring| == 1)
      requires Forked(backlog) && init.info !in backlog
      modifies this`current, this`accounts, this`clocktick, this`intWaitTimer
      modifies live, init, idle, init.info`kill
      ensures status == Continue ==> Running()
      ensures status == Crash <==> reschedule && rq.ring == []
      ensures status == Done <==> !reschedule && rq.ring == []
      ensures status != Continue ==> Counted()
      ensures clocktick == old(clocktick) + 1
      ensures status != Crash ==> init.info.kill == (old(init.info.kill) || ClockMs() >= endtime)
      ensures SecondHalf(policy, old(Here()), reschedule, turn, jiffies, rnd, Here())
      ensures Forked(backlog)
    {
      hide Forked, TurnOk, AfterTurn, QueuesOk, TimesOk, AccountsOk, Quiet, TreeOk, PendingOk, Counted, Running;
      Nonempty();
      turn := NoTurn;
      NoTurnTaken(policy, Here(), jiffies, rnd);
      RingLive();
      IdleApart();
      clocktick := clocktick + 1;
      if reschedule {
        if rq.nrRunning == 0 {
          return Crash, NoTurn;
        }
        turn := Redispatch(rnd);
      }
      status := EndCycle(backlog);
    }

    lemma IdleApart()
      requires QueuesOk()
      ensures idle !in rq.ring && idle !in live
    {
    }

    /** interrupt(), which has nothing to do with the process tree. */
    method InterruptOnly(rnd: nat, ghost backlog: map<Thread, int>) returns (reschedule: bool, ghost turn: Turn)
      requires QueuesOk() && TimesOk() && AccountsOk() && Quiet() && TreeOk() && PendingOk() && Counted()
      requires Handover() && Now() + NS_PER_JIFFY < U64 && (intTimer == -1 || intTimer > 0) && Forked(backlog)
      modifies this`current, this`accounts, this`intWaitTimer, this`jiffies, this`timer, this`intTimer, this`waitlist
      modifies rq, live, init, idle`needReschedule
      ensures QueuesOk() && TimesOk() && AccountsOk() && Quiet() && TreeOk() && PendingOk() && Counted()
      ensures CurrentOk() && Forked(backlog)
      ensures !reschedule && rq.ring != [] ==> current in rq.ring && (current == init ==> |rq.ring| == 1)
      ensures jiffies == NextJiffies(old(jiffies), old(timer)) && timer == NextTick(old(timer))
      ensures intTimer == NextTimer(old(intTimer)) && (intTimer == -1 || intTimer > 0)
      ensures TickOk(policy, old(Here()), init, old(jiffies) < jiffies, turn, jiffies)
      ensures Here() == AfterIo(AfterTurn(BeforeTick(old(Here()), init, old(jiffies) < jiffies), turn, jiffies, rnd),
                                old(intTimer) == 1, jiffies)
      ensures reschedule == current.needReschedule
      ensures reschedule <==> (turn.NoTurn? && old(current.needReschedule)) || old(intTimer) == 1
      ensures turn.Turn? ==> old(current in rq.ring) && jiffies > old(jiffies)
      ensures (rq.ring == [] <==> old(rq.ring) == []) && (rq.ring == [] ==> live == {} && waitlist == [])
    {
      hide NextJiffies, NextTick, TickOk, BeforeTick, AfterTurn, AfterIo, NextTimer, QueuesOk, TimesOk, AccountsOk,
           Quiet, TreeOk, PendingOk, CurrentOk, Counted, Handover;
      reschedule, turn := Interrupt(rnd);
      DeadRing();
    }

    /** What the line of the running task says if it ends now.  The execution time is what it was charged; it
        is all of its time on the processor exactly if nothing was lost and no stretch is under way. */
    ghost predicate Reported(t: Task)
      reads this`jiffies, this`accounts, t`xe, t`xd
    {
      t in accounts &&
      var line, a := Line(t), accounts[t];
      && line.xe == Total(a.history) == a.held - a.lost - (Now() - a.cpuOwned)
      && 0 <= a.lost && a.cpuOwned <= Now() && line.xe <= a.held <= line.xd <= Now()
      && (line.xe == a.held <==> a.lost == 0 && a.cpuOwned == Now())
      && line.xa == line.xd - line.xe
    }

    lemma LineMeans()
      requires QueuesOk() && TimesOk() && AccountsOk() && current in rq.ring
      ensures current != init ==> Reported(current)
    {
      RingMember();
      if current != init { assert AccountOk(current) && TimeOk(current, true, Now()); }
    }

    /** When init ends, it is the last. */
    lemma InitEndsAlone()
      requires QueuesOk() && TreeOk()
      ensures current == init && EndsNow() ==> live == {}
      ensures init !in live
    {
      if current == init && EndsNow() { InitEndsLast(); }
    }

    /** The first half of an iteration: cycle() and interrupt() (cpu.c:174-183). */
    method CycleAndInterrupt(rndIo: nat, rndTick: nat) returns (reschedule: bool, ghost half: Round)
      requires Running() && Now() + NS_PER_JIFFY < U64
      modifies this`current, this`live, this`accounts, this`forked, this`results, this`waitlist, this`intTimer
      modifies this`intWaitTimer, this`jiffies, this`timer
      modifies rq, live, init, idle`needReschedule, threads`children, (threads - forked)`kill
      modifies (threads - forked)`workDuration, current.info`kill, current.info`workDuration
      modifies init.info`pending, current.info`pending
      // what Finish needs
      ensures QueuesOk() && TimesOk() && AccountsOk() && Quiet() && TreeOk() && PendingOk() && Counted()
      ensures CurrentOk() && (intTimer == -1 || intTimer > 0) && reschedule == current.needReschedule
      ensures init.info in old(forked) && (old(current) != init ==> old(current).info != init.info)
      ensures !reschedule && rq.ring != [] ==> current in rq.ring && (current == init ==> |rq.ring| == 1)
      // what the iteration does
      ensures rq.ring == [] <==> old(current == init && EndsNow())
      ensures rq.ring == [] ==> live == {} && waitlist == [] && (reschedule <==> old(intTimer) == 1)
      ensures old(live) - live == if old(EndsNow() && current != init) then {old(current)} else {}
      ensures fresh(live - old(live)) && (old(Orphaned()) ==> old(current) !in live)
      ensures old(EndsNow() && current != init) ==>
        results == old(results) + [old(Line(current))] && old(Reported(current))
      ensures !old(EndsNow() && current != init) ==> results == old(results)
      ensures forked == old(NextForked()) && Forked(old(Backlog()))
      ensures init.info.pending == old(NextPending(init.info))
      ensures old(current).info.pending == old(NextPending(current.info))
      ensures init.info.workDuration == old(init.info.workDuration)
      ensures old(!EndsNow()) ==> old(current).info.workDuration == old(WorkLeft(current))
      ensures FirstHalf(policy, init, idle, old(Here()), half, Here())
      ensures half == Round(old(EndsNow()), half.forks, old(jiffies), jiffies, half.tick,
                            old(Armed(intTimer, EndsNow(), rndIo)) == 1, NoTurn, rndTick, 0)
      ensures Infos(half.forks) == old(NextForks())
      ensures reschedule <==> MainAsked(old(Here()), init, half)
      ensures intTimer == NextTimer(old(Armed(intTimer, EndsNow(), rndIo)))
      ensures jiffies == NextJiffies(old(jiffies), old(timer)) && timer == NextTick(old(timer))
      ensures init.info.kill == old(InitTold())
      ensures old(!EndsNow() && !Ending() && current != init && current.info.workDuration > 1) ==>
        !old(current).info.kill
    {
      hide Orphaned, InitTold, NextJiffies, NextTick, QueuesOk, TimesOk, AccountsOk, Quiet, TreeOk, PendingOk,
           Counted, CurrentOk, Handover, Running, Ending, EndsNow, NextForks, NextForked, NextPending, Backlog,
           Forked, WorkLeft, Line, Reported, Ran, Spawned, CycleAsks, Sleeps, TickOk, BeforeTick, AfterTurn, AfterIo,
           Infos;
      ghost var from := jiffies;
      ghost var ended, forks := Cycle(rndIo);
      NothingAsks(old(Here()), forks);
      ghost var tick, fired := NoTurn, intTimer == 1;
      reschedule, tick := InterruptOnly(rndTick, old(Backlog()));
      half := Round(ended, forks, from, jiffies, tick, fired, NoTurn, rndTick, 0);
    }

    /** The end of init does not ask for schedule(). */
    lemma NothingAsks(d: Desk, forks: seq<Task>)
      ensures d.current == init ==> !CycleAsks(d, init, true, forks)
    {
    }

    lemma InfosKnown()
      requires Running()
      ensures current.info in threads && init.info in threads && init.info in forked
      ensures current != init ==> current in accounts
      ensures current != init ==> current.info != init.info
    {
      CurrentInfo();
      RingMember();
      AccountsKeyed();
      KnownInfos();
      InfosApart(init);
    }

    /** One iteration of runcpu's loop.  The parameters are the values rand() returns. */
    method Step(rndIo: nat, rndTick: nat, rndSwitch: nat) returns (status: Status, ghost round: Round)
      requires Running() && Now() + NS_PER_JIFFY < U64
      modifies this`current, this`live, this`accounts, this`forked, this`results, this`waitlist, this`intTimer
      modifies this`intWaitTimer, this`jiffies, this`timer, this`clocktick
      modifies rq, live, init, idle, threads`children, (threads - forked)`kill, (threads - forked)`workDuration
      modifies current.info`kill, current.info`workDuration, current.info`pending, init.info`kill, init.info`pending
      ensures status == Continue ==> Running()
      // schedule() finds the queue empty exactly when init ends in the cycle in which the IO timer runs out
      ensures status == Crash <==> old(current == init && EndsNow() && intTimer == 1)
      ensures status == Done <==> old(current == init && EndsNow() && intTimer != 1)
      ensures status != Continue ==> live == {} && waitlist == [] && rq.ring == [] && Counted()
      // the processor, the ring, the wait list and the accounts: who sleeps, who joins, whom the policy picks
      ensures Iterated(policy, init, idle, old(Here()), round, Here())
      ensures round == Round(old(EndsNow()), round.forks, old(jiffies), jiffies, round.tick,
                             old(Armed(intTimer, EndsNow(), rndIo)) == 1, round.main, rndTick, rndSwitch)
      ensures Infos(round.forks) == old(NextForks())
      // only the running task can end, with no child alive; its line says how much of its time was charged
      ensures old(live) - live == if old(EndsNow() && current != init) then {old(current)} else {}
      ensures fresh(live - old(live))
      // a task whose parent was told to end goes with it
      ensures old(Orphaned()) ==> old(current) !in live
      ensures old(EndsNow() && current != init) ==>
        results == old(results) + [old(Line(current))] && old(Reported(current))
      ensures !old(EndsNow() && current != init) ==> results == old(results)
      // what is forked, how far the work and the timers have got
      ensures forked == old(NextForked()) && Forked(old(Backlog()))
      ensures init.info.pending == old(NextPending(init.info))
      ensures old(current).info.pending == old(NextPending(current.info))
      ensures init.info.workDuration == old(init.info.workDuration)
      ensures old(!EndsNow()) ==> old(current).info.workDuration == old(WorkLeft(current))
      ensures intTimer == NextTimer(old(Armed(intTimer, EndsNow(), rndIo)))
      ensures clocktick == old(clocktick) + 1
      ensures jiffies == NextJiffies(old(jiffies), old(timer)) && timer == NextTick(old(timer))
      ensures status == Continue ==>
        init.info.kill == (old(InitTold()) || ClockMs() >= endtime)
      ensures old(!EndsNow() && !Ending() && current != init && current.info.workDuration > 1) ==>
        !old(current).info.kill
    {
      hide InitTold, Orphaned, NextJiffies, NextTick, QueuesOk, TimesOk, AccountsOk, Quiet, TreeOk, PendingOk,
           Counted, Running, CurrentOk, Armed, NextTimer, Ending, EndsNow, NextForks, NextForked, NextPending,
           Backlog, Forked, WorkLeft, Line, Reported, Infos, TurnOk, FirstHalf, SecondHalf, Iterated, MainAsked;
      var reschedule;
      ghost var half;
      reschedule, half := CycleAndInterrupt(rndIo, rndTick);
      ghost var woken, main := Here(), NoTurn;
      status, main := Finish(reschedule, rndSwitch, old(Backlog()));
      BothHalves(policy, init, idle, old(Here()), half, woken, main, rndSwitch, Here());
      round := half.(main := main, rndSwitch := rndSwitch);
    }

    /** What main() hands to the scheduler: the state after __init_sched, and a process tree in which every
        thread is to be spawned once, by its parent. */
    ghost predicate Booted()
      reads this, rq, rq.ring`next, rq.ring`prev, idle`next, idle`needReschedule, init`needReschedule, init.info
      reads threads`pending
    {
      && rq.Valid() && rq.ring == [init] && rq.head == init && init != idle && idle.next == null
      && !init.needReschedule && !idle.needReschedule
      && current == idle && jiffies == 0 && intTimer == -1 && waitlist == [] && results == [] && live == {}
      && accounts == map[]
      && init.info.parent == null && init.info.threadType == Init && init.info.killTime == -1 && init.info.children == 0
      && init.info in threads && idle.info !in threads && forked == {init.info}
      && forall th :: th in threads ==> GoodPending(th.pending, th, threads, forked)
    }

    /** main(): the first schedule() puts init on the processor. */
    method Start(rnd: nat)
      requires Booted()
      modifies this`current, this`accounts, this`intWaitTimer, this`timer, init`cpuOwned
      modifies init`needReschedule, idle`needReschedule, idle`lastTimeInRunqueue, idle`burst, idle`expBurst, idle`xe
      modifies idle`timeSlice
      ensures Running() && current == init && timer == TICKS_PER_MS * 10 && intWaitTimer == old(intWaitTimer)
    {
      hide Chosen, QueuesOk, TimesOk, AccountsOk, TreeOk, PendingOk, CurrentOk, Counted, Running, Picks, GoodPending;
      BootedOk();
      ghost var turn, k, minExp, maxWait := Schedule(rnd);
      timer := TICKS_PER_MS * 10;
      Resume();
    }

    lemma BootedOk()
      requires Booted()
      ensures QueuesOk() && CurrentOk() && TimesOk() && AccountsOk() && Quiet() && TreeOk() && PendingOk() && Counted()
    {
      BootedTree();
      hide GoodPending, TreeOk, PendingOk, Spawnable, HasParent;
    }

    lemma BootedTree()
      requires Booted()
      ensures TreeOk() && PendingOk()
    {
      hide GoodPending, RunQueue.Valid;
    }

    /** One iteration in a run: at most one line joins the results. */
    method Iterate(rndIo: nat, rndTick: nat, rndSwitch: nat) returns (status: Status, ghost helds: seq<int>)
      requires Running() && Now() + NS_PER_JIFFY < U64
      modifies this, rq, live, init, idle, threads
      ensures status == Continue ==> Running()
      ensures status != Continue ==> live == {} && waitlist == [] && rq.ring == [] && Counted()
      ensures fresh(live - old(live)) && clocktick == old(clocktick) + 1
      ensures jiffies <= old(jiffies) + 1
      ensures old(results) <= results && LinesOk(results[|old(results)|..], helds)
    {
      hide Running, Iterated, NextForked, NextPending, Backlog, Forked, EndsNow, Ending, Counted;
      InfosKnown();
      helds := if EndsNow() && current != init then [accounts[current].held] else [];
      ghost var round;
      status, round := Step(rndIo, rndTick, rndSwitch);
    }

    /** A prefix of a run: the main loop for at most `limit` iterations, `rand` giving the values of rand().
        The ghost result is the time on the processor of each task that ended. */
    method Run(limit: nat, rand: nat -> nat) returns (status: Status, steps: nat, ghost helds: seq<int>)
      requires Running() && (jiffies + limit + 1) * NS_PER_JIFFY < U64
      modifies this, rq, live, init, idle, threads
      ensures steps <= limit && clocktick == old(clocktick) + steps
      ensures status == Continue ==> Running() && steps == limit
      ensures status != Continue ==>
        live == {} && waitlist == [] && rq.ring == [] && |results| == |forked| - 1
      // no task is charged more than the time it held the processor
      ensures old(results) <= results && LinesOk(results[|old(results)|..], helds)
    {
      hide Running, LinesOk;
      status, steps, helds := Continue, 0, [];
      NoLines();
      ghost var before := results;
      assert results[|before|..] == [];
      while status == Continue && steps < limit
        invariant steps <= limit && clocktick == old(clocktick) + steps && jiffies <= old(jiffies) + steps
        invariant status == Continue ==> Running()
        invariant status != Continue ==> live == {} && waitlist == [] && rq.ring == [] && Counted()
        invariant fresh(live - old(live))
        invariant before <= results && LinesOk(results[|before|..], helds)
        decreases status == Continue, limit - steps
      {
        ghost var sofar, more := results, [];
        status, more := Iterate(rand(3 * steps), rand(3 * steps + 1), rand(3 * steps + 2));
        MoreLines(before, sofar, results, helds, more);
        helds := helds + more;
        steps := steps + 1;
      }
    }
  }

  /** Lines of the results, with the time each task was on the processor. */
  ghost predicate LinesOk(lines: seq<Timing>, helds: seq<int>)
  {
    |lines| == |helds| && forall i :: 0 <= i < |lines| ==>
      lines[i].xe <= helds[i] <= lines[i].xd && lines[i].xa == lines[i].xd - lines[i].xe
  }

  lemma NoLines()
    ensures LinesOk([], [])
  {
  }

  lemma MoreLines(a: seq<Timing>, b: seq<Timing>, c: seq<Timing>, helds: seq<int>, more: seq<int>)
    requires a <= b <= c && LinesOk(b[|a|..], helds) && LinesOk(c[|b|..], more)
    ensures LinesOk(c[|a|..], helds + more)
  {
    assert c[|a|..] == b[|a|..] + c[|b|..];
  }
}
