/** The scheduler's own data: task pool, circular run queues and current-task registers, refining SchedSpec. */
module Scheduler {
  import opened SchedSpec
  import opened SchedInvariant

  // ----- one circular buffer

  /** The `size` elements from `head` on, wrapping around. */
  function Ring(row: seq<nat>, head: nat, size: nat): (q: seq<nat>)
    requires |row| == MAX_TASKS && head < MAX_TASKS && size <= MAX_TASKS
    ensures |q| == size && forall i :: 0 <= i < size ==> q[i] == row[(head + i) % MAX_TASKS]
  {
    seq(size, i requires 0 <= i < size => row[(head + i) % MAX_TASKS])
  }

  lemma RingPush(row: seq<nat>, head: nat, size: nat, t: nat)
    requires |row| == MAX_TASKS && head < MAX_TASKS && size < MAX_TASKS
    ensures Ring(row[(head + size) % MAX_TASKS := t], head, size + 1) == Ring(row, head, size) + [t]
  {
    var row' := row[(head + size) % MAX_TASKS := t];
    forall i | 0 <= i < size ensures Ring(row', head, size + 1)[i] == Ring(row, head, size)[i] {
      assert (head + i) % MAX_TASKS != (head + size) % MAX_TASKS;
    }
  }

  lemma RingPop(row: seq<nat>, head: nat, size: nat)
    requires |row| == MAX_TASKS && head < MAX_TASKS && 0 < size <= MAX_TASKS
    ensures Ring(row, head, size)[0] == row[head]
    ensures Ring(row, (head + 1) % MAX_TASKS, size - 1) == Ring(row, head, size)[1..]
  {
    forall i | 0 <= i < size - 1 ensures Ring(row, (head + 1) % MAX_TASKS, size - 1)[i] ==
      Ring(row, head, size)[1..][i] {
      assert ((head + 1) % MAX_TASKS + i) % MAX_TASKS == (head + i + 1) % MAX_TASKS;
    }
  }

  class Kernel {
    const pool: array<Task>
    const rqBuf: array<nat>        // rq_buf[p] is the 32 elements from 32 * p on
    const rqHead: array<nat>
    const rqTail: array<nat>
    const rqSize: array<nat>
    var count: nat                 // highest slot ever used, plus one
    var cur: int
    var idleRsp: nat
    var want: bool
    var active: bool
    var loadedCr3: nat
    var rsp0: nat
    var stacks: nat                // user_stack_next

    /** Each level's head, tail and size describe one circular buffer. */
    ghost predicate QueuesValid()
      reads rqHead, rqTail, rqSize
    {
      && rqBuf.Length == PRIO_LEVELS * MAX_TASKS
      && rqHead.Length == rqTail.Length == rqSize.Length == PRIO_LEVELS
      && rqHead != rqTail && rqHead != rqSize && rqTail != rqSize && rqBuf != rqHead && rqBuf != rqTail
         && rqBuf != rqSize
      && (forall p :: 0 <= p < PRIO_LEVELS ==>
           rqHead[p] < MAX_TASKS && rqSize[p] <= MAX_TASKS && rqTail[p] == (rqHead[p] + rqSize[p]) % MAX_TASKS)
    }

    ghost predicate Valid()
      reads this, rqHead, rqTail, rqSize
    {
      QueuesValid() && pool.Length == MAX_TASKS && count <= MAX_TASKS && IDLE <= cur < count
    }

    /** The slots of level `p` from head to tail. */
    ghost function Queue(p: nat): (q: seq<nat>)
      requires QueuesValid() && p < PRIO_LEVELS
      reads rqBuf, rqHead, rqTail, rqSize
      ensures |q| == rqSize[p]
    {
      Ring(rqBuf[MAX_TASKS * p..MAX_TASKS * p + MAX_TASKS], rqHead[p], rqSize[p])
    }

    ghost function Abs(): (s: Sched)
      requires Valid()
      reads this, pool, rqBuf, rqHead, rqTail, rqSize
      ensures Shape(s)
    {
      Sched(pool[..], [Queue(0), Queue(1), Queue(2), Queue(3)], cur, idleRsp, count, want, active, loadedCr3, rsp0,
            stacks)
    }

    /** sched_init */
    constructor ()
      ensures Valid() && Abs() == Init()
    {
      pool := new Task[MAX_TASKS](_ => FreeTask());
      rqBuf := new nat[PRIO_LEVELS * MAX_TASKS](_ => 0);
      rqHead := new nat[PRIO_LEVELS](_ => 0);
      rqTail := new nat[PRIO_LEVELS](_ => 0);
      rqSize := new nat[PRIO_LEVELS](_ => 0);
      count, cur, idleRsp, want, active, loadedCr3, rsp0, stacks := 0, IDLE, 0, false, false, MASTER_CR3, 0, 0;
      new;
      hide Queue, Ring;
      assert pool[..] == Init().pool;
    }

    /** rq_push */
    method RqPush(p: nat, t: nat)
      requires Valid() && p < PRIO_LEVELS
      modifies rqBuf, rqTail, rqSize
      ensures Valid() && Abs() == old(Abs()).(queues := old(Abs()).queues[p := SchedSpec.Push(old(Abs()).queues[p], t)])
    {
      hide Queue;
      if rqSize[p] < MAX_TASKS {
        RqStore(p, t);
      }
      assert Abs().queues == old(Abs()).queues[p := SchedSpec.Push(old(Abs()).queues[p], t)];
    }

    /** The three stores of rq_push. */
    method RqStore(p: nat, t: nat)
      requires Valid() && p < PRIO_LEVELS && rqSize[p] < MAX_TASKS
      modifies rqBuf, rqTail, rqSize
      ensures Valid()
      ensures forall r: nat :: r < PRIO_LEVELS ==> Queue(r) == if r == p then old(Queue(p)) + [t] else old(Queue(r))
    {
      hide Ring;
      ghost var row, lo := rqBuf[MAX_TASKS * p..MAX_TASKS * p + MAX_TASKS], MAX_TASKS * p;
      RingPush(row, rqHead[p], rqSize[p], t);
      rqBuf[MAX_TASKS * p + rqTail[p]] := t;
      rqTail[p] := (rqTail[p] + 1) % MAX_TASKS;
      rqSize[p] := rqSize[p] + 1;
      assert rqBuf[lo..lo + MAX_TASKS] == row[old(rqTail[p]) := t];
    }

    /** rq_pop on a level known not to be empty */
    method RqPop(p: nat) returns (t: nat)
      requires Valid() && p < PRIO_LEVELS && rqSize[p] > 0
      modifies rqHead, rqSize
      ensures Valid() && t == old(Queue(p))[0]
      ensures Abs() == old(Abs()).(queues := old(Abs()).queues[p := old(Abs()).queues[p][1..]])
    {
      hide Ring;
      RingPop(rqBuf[MAX_TASKS * p..MAX_TASKS * p + MAX_TASKS], rqHead[p], rqSize[p]);
      t := rqBuf[MAX_TASKS * p + rqHead[p]];
      rqHead[p] := (rqHead[p] + 1) % MAX_TASKS;
      rqSize[p] := rqSize[p] - 1;
      assert forall r: nat :: r < PRIO_LEVELS && r != p ==> Queue(r) == old(Queue(r));
      assert Abs().queues == old(Abs()).queues[p := old(Abs()).queues[p][1..]];
    }

    /** sched_run */
    method SchedRun()
      requires Valid()
      modifies this
      ensures Valid() && Abs() == Start(old(Abs()))
    {
      hide Queue;
      active := true;
    }

    /** sched_tick */
    method SchedTick()
      requires Valid()
      modifies this
      ensures Valid() && Abs() == Tick(old(Abs()))
    {
      hide Queue;
      if active {
        want := true;
      }
    }

    /** sched_want_reschedule */
    method WantReschedule()
      requires Valid()
      modifies this, pool
      ensures Valid() && Abs() == Yield(old(Abs()))
    {
      hide Queue;
      if cur != IDLE && pool[cur].state == Running {
        pool[cur] := pool[cur].(timeslice := 1);
      }
      want := true;
    }

    /** sched_kill_current */
    method KillCurrent()
      requires Valid()
      modifies this, pool
      ensures Valid() && Abs() == Kill(old(Abs()))
    {
      hide Queue;
      if cur != IDLE {
        pool[cur] := pool[cur].(state := Done);
        want := true;
      }
    }

    /** sched_exit up to its software interrupt; the idle thread's own state field is never read */
    method SchedExit()
      requires Valid()
      modifies this, pool
      ensures Valid() && Abs() == Exit(old(Abs()))
    {
      hide Queue;
      if cur != IDLE {
        pool[cur] := pool[cur].(state := Done);
      }
      want := true;
    }

    /** find_free_slot; -1 when the pool is full */
    method FindFreeSlot() returns (slot: int)
      requires Valid()
      modifies this`count
      ensures Valid()
      ensures Abs() == old(Abs()).(count := if FreeSlot(old(Abs()), 0) == old(count) < MAX_TASKS then old(count) + 1
        else old(count))
      ensures slot == (if FreeSlot(old(Abs()), 0) < MAX_TASKS then FreeSlot(old(Abs()), 0) else -1)
    {
      hide Queue;
      ghost var s := Abs();
      for i := 0 to count
        invariant FreeSlot(s, 0) == FreeSlot(s, i)
      {
        if pool[i].state == Free || pool[i].state == Done {
          return i;
        }
      }
      if count >= MAX_TASKS {
        return -1;
      }
      slot := count;
      count := count + 1;
    }

    /** The slot a submission ends up in, -1 if it is turned away. */
    ghost function SlotFor(s: Sched, sub: Submission): int
      requires Shape(s)
    {
      if Accepted(s, sub) then FreeSlot(s, 0) else -1
    }

    /** sched_submit_prio; a stack of 0 stands for a failed allocation. */
    method SubmitPrio(level: nat, stack: nat, rsp: nat) returns (slot: int)
      requires Valid() && Inv(Abs())
      modifies this, pool, rqBuf, rqTail, rqSize
      ensures var sub := Submission(KernelTask(level), stack, rsp);
              Valid() && Abs() == Submit(old(Abs()), sub) && slot == SlotFor(old(Abs()), sub)
    {
      hide Queue, Inv;
      if level >= PRIO_LEVELS {
        return -1;
      }
      slot := FindFreeSlot();
      if slot < 0 {
        return -1;
      }
      if stack == 0 {
        return -1;
      }
      var q := Quantum(level);
      pool[slot] := Task(Ready, level, rsp, q, q, false, stack, 0);
      RqPush(level, slot);
    }

    /** sched_submit_user: takes one of the pooled ring-3 stacks, which are never given back. */
    method SubmitUser(stack: nat, rsp: nat) returns (slot: int)
      requires Valid() && Inv(Abs())
      modifies this, pool, rqBuf, rqTail, rqSize
      ensures var sub := Submission(SharedTask, stack, rsp);
              Valid() && Abs() == Submit(old(Abs()), sub) && slot == SlotFor(old(Abs()), sub)
    {
      hide Queue, Inv;
      if stacks >= MAX_USER_TASKS {
        return -1;
      }
      slot := FindFreeSlot();
      if slot < 0 {
        return -1;
      }
      if stack == 0 {
        return -1;
      }
      stacks := stacks + 1;
      var q := Quantum(PRIO_NORMAL);
      pool[slot] := Task(Ready, PRIO_NORMAL, rsp, q, q, true, stack, 0);
      RqPush(PRIO_NORMAL, slot);
    }

    /** sched_submit_user_as: a process in its own address space. */
    method SubmitUserAs(cr3: nat, stack: nat, rsp: nat) returns (slot: int)
      requires Valid() && Inv(Abs())
      modifies this, pool, rqBuf, rqTail, rqSize
      ensures var sub := Submission(PrivateTask(cr3), stack, rsp);
              Valid() && Abs() == Submit(old(Abs()), sub) && slot == SlotFor(old(Abs()), sub)
    {
      hide Queue, Inv;
      if cr3 == 0 {
        return -1;
      }
      slot := FindFreeSlot();
      if slot < 0 {
        return -1;
      }
      if stack == 0 {
        return -1;
      }
      var q := Quantum(PRIO_NORMAL);
      pool[slot] := Task(Ready, PRIO_NORMAL, rsp, q, q, true, stack, cr3);
      RqPush(PRIO_NORMAL, slot);
    }

    method SaveContext(rsp: nat)
      requires Valid()
      modifies this, pool
      ensures Valid() && Abs() == Save(old(Abs()), rsp)
    {
      hide Queue;
      want := false;
      if cur == IDLE {
        idleRsp := rsp;
      } else {
        pool[cur] := pool[cur].(rsp := rsp);
      }
    }

    method RequeueCurrent()
      requires Valid() && cur != IDLE && pool[cur].priority < PRIO_LEVELS
      modifies pool, rqBuf, rqTail, rqSize
      ensures Valid() && Abs() == Requeue(old(Abs()))
    {
      hide Queue;
      pool[cur] := pool[cur].(timeslice := pool[cur].quantum);
      pool[cur] := pool[cur].(state := Ready);
      RqPush(pool[cur].priority, cur);
    }

    /** The level scan and the switch at the end of sched_irq_end. */
    method PickAndSwitch(rsp: nat) returns (r: nat)
      requires Valid() && QueuesInRange(Abs())
      modifies this, pool, rqHead, rqSize
      ensures Valid() && Abs() == Dispatch(old(Abs()))
      ensures r == if cur == old(cur) then rsp else SavedRsp(Abs(), cur)
    {
      hide Queue;
      ghost var s := Abs();
      var p := 0;
      while p < PRIO_LEVELS && rqSize[p] == 0
        invariant p <= PRIO_LEVELS && TopLevel(s.queues, 0) == TopLevel(s.queues, p)
      {
        assert s.queues[p] == Queue(p);
        p := p + 1;
      }
      assert p < PRIO_LEVELS ==> s.queues[p] == Queue(p);
      var next := IDLE;
      if p < PRIO_LEVELS {
        next := RqPop(p);
      }
      r := SwitchTo(next, rsp);
    }

    method SwitchTo(next: int, rsp: nat) returns (r: nat)
      requires Valid() && IDLE <= next < count
      modifies this, pool
      ensures Valid() && Abs() == Switched(old(Abs()), next)
      ensures r == if next == old(cur) then rsp else SavedRsp(Abs(), cur)
    {
      hide Queue;
      if next == cur {
        if cur != IDLE {
          pool[cur] := pool[cur].(state := Running);
        }
        return rsp;
      }
      if next != IDLE && pool[next].isUser {
        rsp0 := pool[next].stack + TASK_STACK_SZ;
      }
      var wantCr3 := if next == IDLE || pool[next].cr3 == 0 then MASTER_CR3 else pool[next].cr3;
      if wantCr3 != loadedCr3 {
        loadedCr3 := wantCr3;
      }
      cur := next;
      if cur != IDLE {
        pool[cur] := pool[cur].(state := Running);
      }
      r := if cur == IDLE then idleRsp else pool[cur].rsp;
    }

    /** sched_irq_end */
    method SchedIrqEnd(rsp: nat) returns (r: nat)
      requires Valid() && Inv(Abs())
      modifies this, pool, rqBuf, rqHead, rqTail, rqSize
      ensures Valid() && QueuesInRange(old(Abs()))
      ensures (CurRuns(old(Abs())) ==> old(Abs()).pool[old(cur)].priority < PRIO_LEVELS)
      ensures Abs() == IrqEnd(old(Abs()), rsp) && r == IrqEndRsp(old(Abs()), rsp) && Inv(Abs())
    {
      hide Queue, Inv, Dispatch, QueuesInRange;
      ghost var s := Abs();
      IrqEndInv(s, rsp);
      if !active || !want {
        return rsp;
      }
      SaveContext(rsp);
      MidRange(s, rsp);
      if cur != IDLE && pool[cur].state == Running {
        var left := Dec(pool[cur].timeslice);
        if left > 0 {
          pool[cur] := pool[cur].(timeslice := left);
          return rsp;
        }
        RequeueCurrent();
      }
      r := PickAndSwitch(rsp);
    }
  }

  lemma MidRange(s: Sched, rsp: nat)
    requires Inv(s) && Effective(s)
    ensures QueuesInRange(Save(s, rsp)) && (CurRuns(s) ==> QueuesInRange(Requeue(Save(s, rsp))))
  {
    hide QueueOk, SlotOk;
    SaveMid(s, rsp);
    InRange(Save(s, rsp));
    if CurRuns(s) {
      InRange(Requeue(Save(s, rsp)));
    }
  }
}
