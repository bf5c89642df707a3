/** Tasks, and the run queue: a circular doubly linked list headed by the init task. */
module SchedRing {
  import opened SchedMath

  datatype ThreadType = Init | Interactive | NonInteractive | Idle

  /** thread_info.  `pending` is the list of threads still to be spawned. */
  class Thread {
    const spawnTime: int
    const killTime: int
    const spawns: bool
    const threadType: ThreadType
    const parent: Thread?
    /** Distance from the root of the process tree. */
    ghost const depth: nat
    var pending: seq<Thread>
    var children: int
    var kill: bool
    var workDuration: int

    constructor (spawnTime: int, killTime: int, spawns: bool, threadType: ThreadType, parent: Thread?,
                 ghost depth: nat, workDuration: int)
      ensures this.spawnTime == spawnTime && this.killTime == killTime && this.spawns == spawns
      ensures this.threadType == threadType && this.parent == parent && this.depth == depth
      ensures pending == [] && children == 0 && !kill && this.workDuration == workDuration
    {
      this.spawnTime, this.killTime, this.spawns, this.threadType := spawnTime, killTime, spawns, threadType;
      this.parent, this.depth, this.workDuration := parent, depth, workDuration;
      pending, children, kill := [], 0, false;
    }
  }

  /** unsigned int and unsigned long long. */
  type UInt = x: int | 0 <= x < U32
  type ULong = x: int | 0 <= x < U64

  /** task_struct. */
  class Task {
    const info: Thread
    var timeSlice: UInt
    var needReschedule: bool
    var prev: Task?
    var next: Task?
    var burst: UInt
    var expBurst: UInt
    var cpuOwned: ULong
    var lastTimeInRunqueue: ULong
    var xe: ULong
    var xd: ULong
    var xa: ULong

    /** createTask: the scheduler's own fields are left uninitialised. */
    constructor (info: Thread)
      ensures this.info == info && prev == null && next == null && !needReschedule
    {
      this.info := info;
      prev, next, needReschedule := null, null, false;
      timeSlice, burst, expBurst, cpuOwned, lastTimeInRunqueue, xe, xd, xa := *, *, *, *, *, *, *, *;
    }
  }

  predicate NoDup(l: seq<Task>)
  {
    forall i, j :: 0 <= i < j < |l| ==> l[i] != l[j]
  }

  function Succ(i: int, n: int): int { if i + 1 == n then 0 else i + 1 }

  function Pred(i: int, n: int): int { if i == 0 then n - 1 else i - 1 }

  class RunQueue {
    var nrRunning: int
    var head: Task
    /** The tasks in `next` order, the head first. */
    ghost var ring: seq<Task>

    /** A circular list of `nrRunning` distinct tasks in which `prev` undoes `next`. */
    ghost predicate Valid()
      reads this, ring`next, ring`prev
    {
      && nrRunning == |ring| && NoDup(ring)
      && (ring != [] ==> head == ring[0])
      && (forall i {:trigger ring[i].next} :: 0 <= i < |ring| ==> ring[i].next == ring[Succ(i, |ring|)])
      && (forall i {:trigger ring[i].prev} :: 0 <= i < |ring| ==> ring[i].prev == ring[Pred(i, |ring|)])
    }

    /** initschedule. */
    constructor (seed: Task)
      modifies seed`next, seed`prev
      ensures Valid() && ring == [seed] && head == seed
    {
      nrRunning := 1;
      head := seed;
      ring := [seed];
      new;
      seed.next := seed;
      seed.prev := seed;
    }

    /** wake_up_new_task and activate_task: insert behind the head. */
    method Enqueue(p: Task)
      requires Valid() && ring != [] && p !in ring
      modifies this, p`next, p`prev, head`next, ring`prev
      ensures Valid() && ring == [old(ring[0]), p] + old(ring[1..]) && head == old(head)
    {
      p.next := head.next;
      p.prev := head;
      p.next.prev := p;
      p.prev.next := p;
      nrRunning := nrRunning + 1;
      ring := [ring[0], p] + ring[1..];
    }

    /** deactivate_task: unlink, and mark the task as off the queue. */
    method Dequeue(p: Task, ghost k: int)
      requires Valid() && 0 <= k < |ring| && ring[k] == p && (k == 0 ==> |ring| == 1)
      modifies this`nrRunning, this`ring, ring`next, ring`prev
      ensures Valid() && ring == old(ring[..k] + ring[k + 1..]) && head == old(head)
      ensures p.next == null && p.prev == null
    {
      ghost var r := ring;
      assert p.next == r[Succ(k, |r|)] && p.prev == r[Pred(k, |r|)];
      p.prev.next := p.next;
      p.next.prev := p.prev;
      p.next, p.prev := null, null;
      nrRunning := nrRunning - 1;
      ring := r[..k] + r[k + 1..];
      forall i | 0 <= i < |ring| ensures ring[i].next == ring[Succ(i, |ring|)] {
        var j := if i < k then i else i + 1;
        UnlinkedNeighbours(r, k, i);
        if Succ(j, |r|) != k {
          assert ring[i].next == old(r[j].next) == r[Succ(j, |r|)];
        } else {
          assert ring[i].next == r[Succ(k, |r|)];
        }
      }
      forall i | 0 <= i < |ring| ensures ring[i].prev == ring[Pred(i, |ring|)] {
        var j := if i < k then i else i + 1;
        UnlinkedNeighbours(r, k, i);
        if Pred(j, |r|) != k {
          assert ring[i].prev == old(r[j].prev) == r[Pred(j, |r|)];
        } else {
          assert ring[i].prev == r[Pred(k, |r|)];
        }
      }
      UnlinkedNoDup(r, k);
    }

    // ---------- the scans ----------

    /** find_minExpBurst: the first task behind the head with the least estimate. */
    method FindMinExpBurst() returns (min: Task, ghost k: int)
      requires Valid() && |ring| >= 2
      ensures 1 <= k < |ring| && min == ring[k]
      ensures forall j :: 1 <= j < |ring| ==>
                min.expBurst <= ring[j].expBurst && (j < k ==> min.expBurst < ring[j].expBurst)
    {
      var minimum := head.next.expBurst;
      min := head.next;
      k := 1;
      ghost var i := 1;
      var temp := head.next;
      while temp != head
        invariant 1 <= i <= |ring| && 1 <= k < |ring| && min == ring[k]
        invariant i < |ring| ==> temp == ring[i]
        invariant i == |ring| ==> temp == ring[0]
        invariant minimum == min.expBurst && (k < i || k == 1)
        invariant forall j :: 1 <= j < i ==> minimum <= ring[j].expBurst && (j < k ==> minimum < ring[j].expBurst)
        decreases |ring| - i
      {
        if temp.expBurst < minimum {
          minimum := temp.expBurst;
          min := temp;
          k := i;
        }
        temp := temp.next;
        i := i + 1;
      }
    }

    /** find_maxWaitingInRQ: the earliest queueing time behind the head. */
    method FindMaxWaiting() returns (oldest: ULong, ghost k: int)
      requires Valid() && |ring| >= 2
      ensures 1 <= k < |ring| && oldest == ring[k].lastTimeInRunqueue
      ensures forall j :: 1 <= j < |ring| ==> oldest <= ring[j].lastTimeInRunqueue
    {
      oldest := head.next.lastTimeInRunqueue;
      k := 1;
      ghost var i := 1;
      var temp := head.next;
      while temp != head
        invariant 1 <= i <= |ring| && 1 <= k < |ring| && oldest == ring[k].lastTimeInRunqueue
        invariant i < |ring| ==> temp == ring[i]
        invariant i == |ring| ==> temp == ring[0]
        invariant forall j :: 1 <= j < i ==> oldest <= ring[j].lastTimeInRunqueue
        decreases |ring| - i
      {
        if temp.lastTimeInRunqueue < oldest {
          oldest := temp.lastTimeInRunqueue;
          k := i;
        }
        temp := temp.next;
        i := i + 1;
      }
    }

    /** Nobody behind the head queued up in the future. */
    ghost predicate QueuedBy(now: int)
      reads this, ring
    {
      forall j :: 1 <= j < |ring| ==> ring[j].lastTimeInRunqueue <= now
    }

    /** The goodness of the `j`-th task when `b` has the least estimate and `o` has waited longest. */
    ghost function GoodnessAt(now: int, j: int, b: int, o: int): int
      requires 1 <= j < |ring| && 1 <= b < |ring| && 1 <= o < |ring| && QueuedBy(now)
      reads this, ring
    {
      Goodness(ring[j].expBurst, now - ring[j].lastTimeInRunqueue, ring[b].expBurst, now - ring[o].lastTimeInRunqueue)
    }

    /** calculate_goodness: the first task behind the head of least goodness.  `b` and `o` are a task of
        least estimate and one that has waited longest. */
    method CalculateGoodness(now: ULong) returns (chosen: Task, ghost k: int, ghost b: int, ghost o: int)
      requires Valid() && |ring| >= 2 && QueuedBy(now)
      ensures 1 <= k < |ring| && chosen == ring[k] && 1 <= b < |ring| && 1 <= o < |ring|
      ensures forall j :: 1 <= j < |ring| ==>
                ring[b].expBurst <= ring[j].expBurst && ring[o].lastTimeInRunqueue <= ring[j].lastTimeInRunqueue
      ensures forall j :: 1 <= j < |ring| ==>
                && GoodnessAt(now, k, b, o) <= GoodnessAt(now, j, b, o)
                && (j < k ==> GoodnessAt(now, k, b, o) < GoodnessAt(now, j, b, o))
    {
      var minTask, oldest;
      minTask, b := FindMinExpBurst();
      var minExp: int := minTask.expBurst;
      oldest, o := FindMaxWaiting();
      var maxWaiting: int := now - oldest;
      chosen := head.next;
      k := 1;
      var exp: int, wait: int := chosen.expBurst, now - chosen.lastTimeInRunqueue;
      var least := ((1 + exp) % U32 / (1 + minExp)) * ((1 + maxWaiting) / (1 + wait)) % U64;
      ghost var i := 1;
      var p := head.next;
      while p != head
        invariant 1 <= i <= |ring| && 1 <= k < |ring| && chosen == ring[k]
        invariant i < |ring| ==> p == ring[i]
        invariant i == |ring| ==> p == ring[0]
        invariant least == GoodnessAt(now, k, b, o) && (k < i || k == 1)
        invariant forall j :: 1 <= j < i ==>
          least <= GoodnessAt(now, j, b, o) && (j < k ==> least < GoodnessAt(now, j, b, o))
        decreases |ring| - i
      {
        exp, wait := p.expBurst, now - p.lastTimeInRunqueue;
        var goodness := ((1 + exp) % U32 / (1 + minExp)) * ((1 + maxWaiting) / (1 + wait)) % U64;
        assert goodness == GoodnessAt(now, i, b, o);
        if goodness < least {
          least := goodness;
          chosen := p;
          k := i;
        }
        p := p.next;
        i := i + 1;
      }
    }
  }

  lemma UnlinkedNeighbours(r: seq<Task>, k: int, i: int)
    requires NoDup(r) && 0 <= k < |r| && 0 <= i < |r| - 1 && (k == 0 ==> |r| == 1)
    ensures var s := r[..k] + r[k + 1..];
            var j := if i < k then i else i + 1;
            && s[Succ(i, |s|)] == (if Succ(j, |r|) == k then r[Succ(k, |r|)] else r[Succ(j, |r|)])
            && s[Pred(i, |s|)] == (if Pred(j, |r|) == k then r[Pred(k, |r|)] else r[Pred(j, |r|)])
            && s[i] == r[j] != r[k]
            && (Succ(j, |r|) == k <==> r[j] == r[Pred(k, |r|)]) && (Pred(j, |r|) == k <==> r[j] == r[Succ(k, |r|)])
  {
  }

  lemma UnlinkedNoDup(r: seq<Task>, k: int)
    requires NoDup(r) && 0 <= k < |r|
    ensures NoDup(r[..k] + r[k + 1..])
    ensures forall t :: t in r[..k] + r[k + 1..] <==> t in r && t != r[k]
  {
  }
}
