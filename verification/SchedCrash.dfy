/** A run of the virtual machine from boot to the last iteration before the null link, with one child. */
module SchedCrash {
  import opened SchedMath
  import opened SchedRing
  import opened SchedAccounts
  import opened SchedDesk
  import opened SchedVm

  /** The IO delay when rand() returns a multiple of 1000, which is also the child's work in cycles. */
  const DELAY := 25_000

  const JIFFY_TICKS := 5_000

  /** The child's line: it had the processor for five jiffies, all its life, and was charged nothing. */
  const CHILD_HELD := 50_000_000
  const CHILD_LINE := Timing(0, CHILD_HELD, CHILD_HELD)

  /** What stays the same all along: init's and the child's threads are the only ones, nothing is left to fork. */
  ghost predicate OneChild(vm: Vm, child: Thread)
    reads vm, vm.init.info, child
  {
    && vm.threads == {vm.init.info, child} == vm.forked && child != vm.init.info
    && vm.init.info.pending == [] && child.pending == [] && vm.waitlist == [] && vm.endtime == 100
    && vm.init.info.parent == null && vm.init.info.threadType == Init && vm.init.info.killTime == -1
    && vm.init.info.workDuration == -1
    && child.parent == vm.init.info && child.threadType == NonInteractive && child.killTime == -1
  }

  /** Jiffies and the tick timer after `s` iterations. */
  predicate Clock(jiffies: int, timer: int, s: int)
  {
    jiffies == s / JIFFY_TICKS && timer == JIFFY_TICKS - s % JIFFY_TICKS
  }

  lemma ClockTicks(jiffies: int, timer: int, s: int)
    requires Clock(jiffies, timer, s) && s >= 0
    ensures 0 <= jiffies <= s
    ensures Clock(jiffies + if timer <= 1 then 1 else 0, if timer <= 1 then TICKS_PER_MS * 10 else timer - 1, s + 1)
  {
  }

  /** After `s` iterations the child is running. */
  ghost predicate ChildActs(vm: Vm, child: Thread, s: int)
    reads vm, vm.init.info, child
  {
    && OneChild(vm, child) && 1 <= s <= DELAY && vm.clocktick == s
    && vm.live == {vm.current} && vm.current != vm.init && vm.current.info == child && vm.results == []
    && child.workDuration == DELAY + 1 - s && !child.kill && !vm.init.info.kill
    && vm.intTimer == if s == DELAY then -1 else DELAY - s
  }

  /** ... and it has not been charged anything of its time. */
  ghost predicate ChildRuns(vm: Vm, child: Thread, s: int)
    reads vm, vm.init.info, child
  {
    && ChildActs(vm, child, s) && Clock(vm.jiffies, vm.timer, s) && vm.current in vm.accounts
    && vm.accounts[vm.current].held == vm.Now() && Total(vm.accounts[vm.current].history) == 0
  }

  /** After `s` iterations the child has ended with the line `line`; the cycle in which it did shifted the IO
      timer by one. */
  ghost predicate InitActs(vm: Vm, child: Thread, s: int, line: Timing)
    reads vm, vm.init.info, child
  {
    && OneChild(vm, child) && DELAY < s <= 2 * DELAY && vm.clocktick == s
    && vm.live == {} && vm.current == vm.init && vm.results == [line]
    && vm.init.info.kill == (s == 2 * DELAY)
    && vm.intTimer == if s == DELAY + 1 then -1 else 2 * DELAY + 1 - s
  }

  ghost predicate InitRuns(vm: Vm, child: Thread, s: int)
    reads vm, vm.init.info, child
  {
    InitActs(vm, child, s, CHILD_LINE) && Clock(vm.jiffies, vm.timer, s)
  }

  /** With one task alive and nobody waiting, that task runs. */
  lemma OnlyOneRuns(vm: Vm, child: Thread)
    requires vm.Running() && OneChild(vm, child) && |vm.live| == 1
    ensures vm.live == {vm.current} && vm.current != vm.init && vm.current.info == child
  {
    hide Vm.TimesOk, Vm.AccountsOk, Vm.Counted, RunQueue.Valid, HasParent, Kids, GoodPending;
    var t :| t in vm.live;
    assert vm.live == {t} by { Single(vm.live, t); }
    vm.RingMember();
    vm.RingHead();
    assert t in Elems(vm.rq.ring);
    vm.KnownInfos();
    vm.InfosApart(vm.init);
  }

  lemma Single<T>(s: set<T>, x: T)
    requires |s| == 1 && x in s
    ensures s == {x}
  {
    assert |s - {x}| == 0;
  }

  /** With nobody alive, init runs. */
  lemma NobodyElseRuns(vm: Vm)
    requires vm.Running() && vm.live == {}
    ensures vm.current == vm.init
  {
    vm.RingMember();
  }

  lemma NoChildren(vm: Vm, among: set<Task>)
    requires vm.Running() && vm.live == among
    requires forall t :: t in among ==> t.info.parent != vm.current.info
    ensures vm.current.info.children == 0
  {
    vm.RingMember();
    assert Kids(vm.current.info, vm.live) == {};
  }

  lemma NothingPends(vm: Vm, th: Thread)
    requires th.pending == []
    ensures vm.DueIn(th) == [] && vm.LaterOf(th) == []
  {
  }

  lemma {:induction false} SizeOfElems(l: seq<Task>)
    requires NoDup(l)
    ensures |Elems(l)| == |l|
  {
    if l != [] {
      var n := |l| - 1;
      SizeOfElems(l[..n]);
      assert Elems(l) == Elems(l[..n]) + {l[n]};
      assert l[n] !in Elems(l[..n]);
    }
  }

  lemma RingWithin(vm: Vm, t: Task)
    requires vm.Running() && vm.live == {t}
    ensures NoDup(vm.rq.ring) && Elems(vm.rq.ring) <= {vm.init, t}
  {
    vm.RingHead();
  }

  /** With one task alive, the run queue is too short for anybody to be charged. */
  lemma ShortRing(vm: Vm)
    requires vm.Running() && |vm.live| == 1
    ensures |vm.rq.ring| <= 2
  {
    hide Vm.Running, NoDup, Elems;
    var t :| t in vm.live;
    Single(vm.live, t);
    RingWithin(vm, t);
    SizeOfElems(vm.rq.ring);
    var rest := {vm.init, t} - Elems(vm.rq.ring);
    assert {vm.init, t} == Elems(vm.rq.ring) + rest;
  }

  /** At time 0 nobody has an account. */
  lemma NoTimeYet(vm: Vm)
    requires vm.Running() && vm.jiffies == 0 && vm.current in vm.live
    ensures vm.current in vm.accounts
    ensures vm.accounts[vm.current].held == 0 && Total(vm.accounts[vm.current].history) == 0
  {
    assert vm.TimeOk(vm.current, true, 0) && vm.AccountOk(vm.current);
  }

  lemma CountedLive(vm: Vm)
    requires vm.Running()
    ensures |vm.forked| == 1 + |vm.live| + |vm.results|
  {
  }

  /** idle is not alive, and the wait list stays empty as long as nobody interactive runs. */
  lemma StillNobodyWaits(vm: Vm, d: Desk, r: Round)
    requires Iterated(vm.policy, vm.init, vm.idle, d, r, vm.Here())
    requires d.waitlist == [] && d.current.info.threadType != Interactive
    ensures vm.waitlist == []
  {
    WaitsForIo(vm.policy, vm.init, vm.idle, d, r, vm.Here());
  }

  lemma IdleHasNoAccount(vm: Vm)
    requires vm.Running()
    ensures vm.idle !in vm.accounts && (vm.current != vm.init ==> vm.current in vm.accounts)
  {
    vm.RingMember();
  }

  lemma NoForks(forks: seq<Task>)
    requires Infos(forks) == []
    ensures forks == [] && Members([]) == {}
  {
  }

  /** One iteration in which the child works on, without its account. */
  method ChildTurn(vm: Vm, child: Thread, s: int) returns (ghost round: Round)
    requires vm.Running() && ChildActs(vm, child, s) && s < DELAY && 0 <= vm.jiffies <= s
    modifies vm, vm.rq, vm.live, vm.init, vm.idle, vm.threads`children, child`kill, child`workDuration, child`pending
    modifies vm.init.info`kill, vm.init.info`pending
    ensures vm.Running() && ChildActs(vm, child, s + 1) && vm.live == old(vm.live)
    ensures vm.jiffies == old(vm.jiffies) + if old(vm.timer) <= 1 then 1 else 0
    ensures vm.timer == if old(vm.timer) <= 1 then TICKS_PER_MS * 10 else old(vm.timer) - 1
    ensures Iterated(vm.policy, vm.init, vm.idle, old(vm.Here()), round, vm.Here())
    ensures !round.ended && round.forks == [] && round.from == old(vm.jiffies) && round.to == vm.jiffies
  {
    hide Vm.Running, Vm.LaterOf, Vm.DueIn, Vm.Counted, Iterated, Infos, Members;
    NoChildren(vm, vm.live);
    NothingPends(vm, child);
    NothingPends(vm, vm.init.info);
    assert vm.threads - vm.forked == {};
    CountedLive(vm);
    var status;
    status, round := vm.Step(0, 0, 0);
    NoForks(round.forks);
    StillNobodyWaits(vm, old(vm.Here()), round);
    CountedLive(vm);
    Single(vm.live, old(vm.current));
    OnlyOneRuns(vm, child);
  }

  /** One iteration in which the child works on. */
  method ChildWorks(vm: Vm, child: Thread, s: int)
    requires vm.Running() && ChildRuns(vm, child, s) && s < DELAY
    modifies vm, vm.rq, vm.live, vm.init, vm.idle, vm.threads`children, child`kill, child`workDuration, child`pending
    modifies vm.init.info`kill, vm.init.info`pending
    ensures vm.Running() && ChildRuns(vm, child, s + 1) && vm.live == old(vm.live)
  {
    hide Clock, Vm.Running, OneChild, Iterated, Total;
    ghost var c, d := vm.current, vm.Here();
    IdleHasNoAccount(vm);
    ClockTicks(vm.jiffies, vm.timer, s);
    ghost var round := ChildTurn(vm, child, s);
    ShortRing(vm);
    IterationCharges(vm.policy, vm.init, vm.idle, d, round, vm.Here(), c);
  }

  method EndTurn(vm: Vm, child: Thread)
    requires vm.Running() && ChildActs(vm, child, DELAY) && 0 <= vm.jiffies <= DELAY
    modifies vm, vm.rq, vm.live, vm.init, vm.idle, vm.threads`children, child`kill, child`workDuration, child`pending
    modifies vm.init.info`kill, vm.init.info`pending
    ensures vm.Running() && InitActs(vm, child, DELAY + 1, old(vm.Line(vm.current))) && old(vm.Reported(vm.current))
    ensures vm.jiffies == old(vm.jiffies) + if old(vm.timer) <= 1 then 1 else 0
    ensures vm.timer == if old(vm.timer) <= 1 then TICKS_PER_MS * 10 else old(vm.timer) - 1
  {
    hide Vm.Running, Vm.LaterOf, Vm.DueIn, Vm.Counted, Iterated, Vm.Reported, Vm.Line, Infos, Members;
    NoChildren(vm, vm.live);
    assert vm.threads - vm.forked == {};
    CountedLive(vm);
    var status, round := vm.Step(0, 0, 0);
    NoForks(round.forks);
    StillNobodyWaits(vm, old(vm.Here()), round);
    CountedLive(vm);
    NobodyElseRuns(vm);
  }

  /** The iteration right after the IO timer ran out, in which the child's work is done. */
  method ChildEnds(vm: Vm, child: Thread)
    requires vm.Running() && ChildRuns(vm, child, DELAY)
    modifies vm, vm.rq, vm.live, vm.init, vm.idle, vm.threads`children, child`kill, child`workDuration, child`pending
    modifies vm.init.info`kill, vm.init.info`pending
    ensures vm.Running() && InitRuns(vm, child, DELAY + 1)
  {
    hide Clock, Vm.Running, OneChild, Vm.Reported, Vm.Line;
    ClockTicks(vm.jiffies, vm.timer, DELAY);
    AllLost(vm, child);
    EndTurn(vm, child);
  }

  /** Charged nothing, the child ends with a line that calls all of its time waiting. */
  lemma AllLost(vm: Vm, child: Thread)
    requires vm.Running() && ChildRuns(vm, child, DELAY)
    ensures vm.Reported(vm.current) ==> vm.Line(vm.current) == CHILD_LINE
  {
    hide Vm.Running;
  }

  method InitTurn(vm: Vm, child: Thread, s: int, line: Timing)
    requires vm.Running() && InitActs(vm, child, s, line) && s < 2 * DELAY && 0 <= vm.jiffies <= s
    modifies vm, vm.rq, vm.live, vm.init, vm.idle, vm.threads`children, vm.init.info`workDuration
    modifies vm.init.info`kill, vm.init.info`pending
    ensures vm.Running() && InitActs(vm, child, s + 1, line)
    ensures vm.jiffies == old(vm.jiffies) + if old(vm.timer) <= 1 then 1 else 0
    ensures vm.timer == if old(vm.timer) <= 1 then TICKS_PER_MS * 10 else old(vm.timer) - 1
  {
    hide Vm.Running, Vm.LaterOf, Vm.DueIn, Vm.Counted, Iterated, Infos, Members;
    NothingPends(vm, vm.init.info);
    assert vm.threads - vm.forked == {};
    CountedLive(vm);
    var status, round := vm.Step(0, 0, 0);
    NoForks(round.forks);
    StillNobodyWaits(vm, old(vm.Here()), round);
    CountedLive(vm);
    NobodyElseRuns(vm);
  }

  /** One iteration in which init waits for its time to be up. */
  method InitWaits(vm: Vm, child: Thread, s: int)
    requires vm.Running() && InitRuns(vm, child, s) && s < 2 * DELAY
    modifies vm, vm.rq, vm.live, vm.init, vm.idle, vm.threads`children, vm.init.info`workDuration
    modifies vm.init.info`kill, vm.init.info`pending
    ensures vm.Running() && InitRuns(vm, child, s + 1)
  {
    hide Clock, Vm.Running, OneChild;
    ClockTicks(vm.jiffies, vm.timer, s);
    InitTurn(vm, child, s, CHILD_LINE);
  }

  /** A thread that is due at once. */
  lemma OneDue(vm: Vm, th: Thread, child: Thread)
    requires th.pending == [child] && th.spawns && Due(child, vm.clocktick)
    ensures vm.DueIn(th) == [child] && vm.LaterOf(th) == []
  {
    assert [child][..0] == [];
    assert DueOf([child][..0], vm.clocktick) == [] && Later([child][..0], vm.clocktick) == [];
  }

  /** init's first iteration forks the child. */
  method FirstStep(vm: Vm, child: Thread)
    requires vm.Running() && vm.current == vm.init && vm.live == {} && vm.waitlist == [] && vm.results == []
    requires vm.threads == {vm.init.info, child} && vm.forked == {vm.init.info} && child != vm.init.info
    requires vm.init.info.pending == [child] && vm.init.info.spawns && child.pending == []
    requires vm.clocktick == 0 && Clock(vm.jiffies, vm.timer, 0) && vm.intTimer == -1 && vm.endtime == 100
    requires !vm.init.info.kill && vm.init.info.workDuration == -1
    requires vm.init.info.parent == null && vm.init.info.threadType == Init && vm.init.info.killTime == -1
    requires child.parent == vm.init.info && child.threadType == NonInteractive && child.killTime == -1
    requires child.spawnTime == 0 && child.workDuration == 50
    modifies vm, vm.rq, vm.live, vm.init, vm.idle, vm.threads`children, child`kill, child`workDuration
    modifies vm.init.info`kill, vm.init.info`workDuration, vm.init.info`pending
    ensures vm.Running() && ChildRuns(vm, child, 1) && fresh(vm.live)
  {
    hide Vm.Running, Vm.LaterOf, Vm.DueIn, Vm.Counted, Iterated;
    OneDue(vm, vm.init.info, child);
    assert vm.threads - vm.forked == {child};
    CountedLive(vm);
    ClockTicks(vm.jiffies, vm.timer, 0);
    var status, round := vm.Step(0, 0, 0);
    StillNobodyWaits(vm, old(vm.Here()), round);
    CountedLive(vm);
    OnlyOneRuns(vm, child);
    NoTimeYet(vm);
  }

  /** __init_sched for a profile with one child, due at once, that never waits for IO. */
  method Build(policy: Policy) returns (vm: Vm, child: Thread)
    ensures fresh(vm) && fresh(vm.rq) && fresh(vm.init) && fresh(vm.idle) && fresh(vm.init.info) && fresh(child)
    ensures vm.Booted() && vm.threads == {vm.init.info, child} && child != vm.init.info
    ensures vm.init.info.pending == [child] && vm.init.info.spawns && child.pending == []
    ensures vm.clocktick == 0 && vm.endtime == 100 && !vm.init.info.kill && vm.init.info.workDuration == -1
    ensures child.parent == vm.init.info && child.threadType == NonInteractive && child.killTime == -1
    ensures child.spawnTime == 0 && child.workDuration == 50 && vm.policy == policy
  {
    hide Vm.Running;
    var initInfo := new Thread(0, -1, true, Init, null, 0, -1);
    child := new Thread(0, -1, false, NonInteractive, initInfo, 1, 50);
    var idleInfo := new Thread(0, -1, false, Idle, null, 0, -1);
    initInfo.pending := [child];
    vm := new Vm(policy, initInfo, idleInfo, 100, {initInfo, child});
  }

  lemma AsBooted(vm: Vm)
    requires vm.Booted()
    ensures vm.forked == {vm.init.info} && vm.live == {} && vm.waitlist == [] && vm.results == []
    ensures vm.jiffies == 0 && vm.intTimer == -1
    ensures vm.init.info.parent == null && vm.init.info.threadType == Init && vm.init.info.killTime == -1
  {
  }

  /** main() on it. */
  method Boot(policy: Policy) returns (vm: Vm, child: Thread)
    ensures fresh(vm) && fresh(vm.rq) && fresh(vm.init) && fresh(vm.idle) && fresh(vm.init.info) && fresh(child)
    ensures vm.Running() && vm.current == vm.init && vm.live == {} && vm.waitlist == [] && vm.results == []
    ensures vm.threads == {vm.init.info, child} && vm.forked == {vm.init.info} && child != vm.init.info
    ensures vm.init.info.pending == [child] && vm.init.info.spawns && child.pending == []
    ensures vm.clocktick == 0 && Clock(vm.jiffies, vm.timer, 0) && vm.intTimer == -1 && vm.endtime == 100
    ensures !vm.init.info.kill && vm.init.info.workDuration == -1
    ensures vm.init.info.parent == null && vm.init.info.threadType == Init && vm.init.info.killTime == -1
    ensures child.parent == vm.init.info && child.threadType == NonInteractive && child.killTime == -1
    ensures child.spawnTime == 0 && child.workDuration == 50 && vm.policy == policy
  {
    hide Vm.Running;
    vm, child := Build(policy);
    AsBooted(vm);
    hide Vm.Booted;
    vm.Start(0);
  }

  method ChildLoop(vm: Vm, child: Thread)
    requires vm.Running() && ChildRuns(vm, child, 1)
    modifies vm, vm.rq, vm.live, vm.init, vm.idle, vm.threads`children, child`kill, child`workDuration, child`pending
    modifies vm.init.info`kill, vm.init.info`pending
    ensures vm.Running() && ChildRuns(vm, child, DELAY) && vm.live == old(vm.live)
  {
    hide Vm.Running;
    var s := 1;
    while s < DELAY
      invariant 1 <= s <= DELAY && vm.Running() && ChildRuns(vm, child, s) && vm.live == old(vm.live)
    {
      ChildWorks(vm, child, s);
      s := s + 1;
    }
  }

  method InitLoop(vm: Vm, child: Thread)
    requires vm.Running() && InitRuns(vm, child, DELAY + 1)
    modifies vm, vm.rq, vm.init, vm.idle, vm.threads`children, vm.init.info`workDuration
    modifies vm.init.info`kill, vm.init.info`pending
    ensures vm.Running() && InitRuns(vm, child, 2 * DELAY)
  {
    hide Vm.Running;
    var s := DELAY + 1;
    while s < 2 * DELAY
      invariant DELAY < s <= 2 * DELAY && vm.Running() && InitRuns(vm, child, s)
    {
      InitWaits(vm, child, s);
      s := s + 1;
    }
  }

  /** From boot, under either policy, with one child whose work takes exactly the first IO delay: after 50000
      iterations init ends in the cycle in which the IO timer runs out, which is Step's case of a crash.  The
      child's line reports no execution time at all. */
  method CrashRun(policy: Policy) returns (vm: Vm)
    ensures fresh(vm) && vm.policy == policy && vm.Running() && vm.clocktick == 2 * DELAY
    ensures vm.current == vm.init && vm.EndsNow() && vm.intTimer == 1 && vm.jiffies == 10
    ensures vm.results == [CHILD_LINE]
  {
    hide Vm.Running;
    var child;
    vm, child := Boot(policy);
    FirstStep(vm, child);
    ChildLoop(vm, child);
    ChildEnds(vm, child);
    InitLoop(vm, child);
    NoChildren(vm, {});
  }
}
