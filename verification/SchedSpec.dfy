/** The preemptive scheduler as a transition system. */
module SchedSpec {
  const MAX_TASKS: nat := 32
  const PRIO_LEVELS: nat := 4
  const TASK_STACK_SZ: nat := 8192
  const MASTER_CR3: nat := 0x1000
  const IDLE: int := -1

  datatype TaskState = Free | Ready | Running | Blocked | Done

  datatype Task = Task(state: TaskState, priority: nat, rsp: nat, timeslice: nat, quantum: nat,
                       isUser: bool, stack: nat, cr3: nat)

  /** Ticks per dispatch at each level. */
  function Quantum(p: nat): (q: nat)
    ensures 1 <= q <= 50
  {
    if p == 0 then 5 else if p == 1 then 10 else if p == 2 then 20 else 50
  }

  /** The pool, one FIFO of slot numbers per level, the current slot (IDLE for the boot thread), the registers, and how
      many of the pooled ring-3 stacks have been handed out. */
  datatype Sched = Sched(pool: seq<Task>, queues: seq<seq<nat>>, cur: int, idleRsp: nat, count: nat,
                         want: bool, active: bool, cr3: nat, rsp0: nat, stacks: nat)

  function FreeTask(): Task { Task(Free, 0, 0, 0, 0, false, 0, 0) }

  /** sched_init */
  function Init(): Sched {
    Sched(seq(MAX_TASKS, _ => FreeTask()), [[], [], [], []], IDLE, 0, 0, false, false, MASTER_CR3, 0, 0)
  }

  predicate Shape(s: Sched) {
    |s.pool| == MAX_TASKS && |s.queues| == PRIO_LEVELS && s.count <= MAX_TASKS && IDLE <= s.cur < s.count
  }

  // ----- the operations

  /** rq_push: silently drops the task when the level is full. */
  function Push(q: seq<nat>, t: nat): seq<nat> { if |q| >= MAX_TASKS then q else q + [t] }

  /** sched_run */
  function Start(s: Sched): Sched { s.(active := true) }

  /** sched_tick */
  function Tick(s: Sched): Sched { if s.active then s.(want := true) else s }

  /** sched_want_reschedule */
  function Yield(s: Sched): Sched
    requires Shape(s)
  {
    var s' := if s.cur != IDLE && s.pool[s.cur].state == Running
              then s.(pool := s.pool[s.cur := s.pool[s.cur].(timeslice := 1)]) else s;
    s'.(want := true)
  }

  /** sched_kill_current */
  function Kill(s: Sched): Sched
    requires Shape(s)
  {
    if s.cur != IDLE then s.(pool := s.pool[s.cur := s.pool[s.cur].(state := Done)], want := true) else s
  }

  /** sched_exit up to its software interrupt: on the idle thread too, it asks for a switch. */
  function Exit(s: Sched): Sched
    requires Shape(s)
  {
    if s.cur != IDLE then Kill(s) else s.(want := true)
  }

  /** find_free_slot: the first FREE or DONE slot below the count, else the next slot, else none (the count itself). */
  function FreeSlot(s: Sched, i: nat): (slot: nat)
    requires Shape(s) && i <= s.count
    ensures i <= slot <= s.count
    ensures slot < s.count ==> s.pool[slot].state in {Free, Done}
    ensures forall j :: i <= j < slot ==> s.pool[j].state !in {Free, Done}
    decreases s.count - i
  {
    if i == s.count then i
    else if s.pool[i].state == Free || s.pool[i].state == Done then i
    else FreeSlot(s, i + 1)
  }

  const MAX_USER_TASKS: nat := 8
  const PRIO_NORMAL: nat := 2

  /** sched_submit_prio, sched_submit_user and sched_submit_user_as: the level of a kernel task, or the address space of
      a process; ring-3 tasks of the shared space take a pooled stack. */
  datatype Kind = KernelTask(level: nat) | SharedTask | PrivateTask(space: nat)

  /** Besides, each comes with a kernel stack (0 if none could be allocated) and the stack pointer of its first
      frame. */
  datatype Submission = Submission(kind: Kind, stack: nat, rsp: nat) {
    function Priority(): nat { if kind.KernelTask? then kind.level else PRIO_NORMAL }

    function Cr3(): nat { if kind.PrivateTask? then kind.space else 0 }

    function NewTask(): Task {
      var q := Quantum(Priority());
      Task(Ready, Priority(), rsp, q, q, !kind.KernelTask?, stack, Cr3())
    }
  }

  /** The checks before a slot is looked for: a valid level, a pooled stack left, an address space. */
  predicate Admissible(s: Sched, sub: Submission) {
    && sub.Priority() < PRIO_LEVELS && (sub.kind.SharedTask? ==> s.stacks < MAX_USER_TASKS)
    && (sub.kind.PrivateTask? ==> sub.kind.space != 0)
  }

  /** Does the submission put a task into the pool? */
  predicate Accepted(s: Sched, sub: Submission)
    requires Shape(s)
  {
    Admissible(s, sub) && FreeSlot(s, 0) < MAX_TASKS && sub.stack != 0
  }

  /** The submit functions: nothing happens when a check fails or every slot is taken; when no kernel stack can be
      allocated, only the slot count may have grown. */
  function Submit(s: Sched, sub: Submission): Sched
    requires Shape(s)
  {
    var slot := FreeSlot(s, 0);
    if !Admissible(s, sub) || slot >= MAX_TASKS then s else
    var count := if slot == s.count then s.count + 1 else s.count;
    if sub.stack == 0 then s.(count := count) else
    s.(pool := s.pool[slot := sub.NewTask()],
       queues := s.queues[sub.Priority() := Push(s.queues[sub.Priority()], slot)],
       count := count,
       stacks := if sub.kind.SharedTask? then s.stacks + 1 else s.stacks)
  }

  /** The address space a task runs in. */
  function WantedCr3(s: Sched, t: int): nat
    requires Shape(s) && IDLE <= t < MAX_TASKS
  {
    if t == IDLE || s.pool[t].cr3 == 0 then MASTER_CR3 else s.pool[t].cr3
  }

  /** 32-bit decrement. */
  function Dec(x: nat): nat { if x == 0 then 0xFFFF_FFFF else x - 1 }

  function Save(s: Sched, rsp: nat): (s': Sched)
    requires Shape(s)
    ensures Shape(s')
  {
    if s.cur == IDLE then s.(want := false, idleRsp := rsp)
    else s.(want := false, pool := s.pool[s.cur := s.pool[s.cur].(rsp := rsp)])
  }

  predicate CurRuns(s: Sched)
    requires Shape(s)
  {
    s.cur != IDLE && s.pool[s.cur].state == Running
  }

  /** The current task goes to the back of its level with a full quantum. */
  function Requeue(s: Sched): (s': Sched)
    requires Shape(s) && s.cur != IDLE && s.pool[s.cur].priority < PRIO_LEVELS
    ensures Shape(s')
  {
    var t := s.pool[s.cur];
    s.(pool := s.pool[s.cur := t.(timeslice := t.quantum, state := Ready)],
       queues := s.queues[t.priority := Push(s.queues[t.priority], s.cur)])
  }

  /** The first non-empty level, or PRIO_LEVELS. */
  function TopLevel(queues: seq<seq<nat>>, p: nat): (r: nat)
    requires |queues| == PRIO_LEVELS && p <= PRIO_LEVELS
    ensures p <= r <= PRIO_LEVELS && (r < PRIO_LEVELS ==> queues[r] != [])
    ensures forall q :: p <= q < r ==> queues[q] == []
    decreases PRIO_LEVELS - p
  {
    if p == PRIO_LEVELS || queues[p] != [] then p else TopLevel(queues, p + 1)
  }

  /** The head of the first non-empty level (IDLE if all are empty) becomes current. */
  function Dispatch(s: Sched): (s': Sched)
    requires Shape(s) && forall p, k :: 0 <= p < PRIO_LEVELS && 0 <= k < |s.queues[p]| ==> s.queues[p][k] < s.count
    ensures Shape(s')
  {
    var p := TopLevel(s.queues, 0);
    if p == PRIO_LEVELS then Switched(s, IDLE)
    else Switched(s.(queues := s.queues[p := s.queues[p][1..]]), s.queues[p][0])
  }

  /** The switch itself: ring-0 stack and address space follow the next task; a task that stays keeps them. */
  function Switched(s: Sched, next: int): (s': Sched)
    requires Shape(s) && IDLE <= next < s.count
    ensures Shape(s')
  {
    var s1 := if next == s.cur then s else
      s.(rsp0 := if next != IDLE && s.pool[next].isUser then s.pool[next].stack + TASK_STACK_SZ else s.rsp0,
         cr3 := WantedCr3(s, next), cur := next);
    if next == IDLE then s1 else s1.(pool := s1.pool[next := s1.pool[next].(state := Running)])
  }

  /** The saved stack pointer of a task. */
  function SavedRsp(s: Sched, t: int): nat
    requires Shape(s) && IDLE <= t < MAX_TASKS
  {
    if t == IDLE then s.idleRsp else s.pool[t].rsp
  }

  ghost predicate QueuesInRange(s: Sched)
    requires Shape(s)
  {
    forall p, k :: 0 <= p < PRIO_LEVELS && 0 <= k < |s.queues[p]| ==> s.queues[p][k] < s.count
  }

  /** An interrupt exit that may switch. */
  predicate Effective(s: Sched) { s.active && s.want }

  /** sched_irq_end: the next state. */
  function IrqEnd(s: Sched, rsp: nat): (s': Sched)
    requires Shape(s) && QueuesInRange(s) && (CurRuns(s) ==> s.pool[s.cur].priority < PRIO_LEVELS)
    ensures Shape(s')
  {
    if !Effective(s) then s else
    var s1 := Save(s, rsp);
    if CurRuns(s) && Dec(s.pool[s.cur].timeslice) > 0 then
      s1.(pool := s1.pool[s.cur := s1.pool[s.cur].(timeslice := Dec(s.pool[s.cur].timeslice))])
    else if CurRuns(s) then Dispatch(Requeued(s1))
    else Dispatch(s1)
  }

  function Requeued(s: Sched): (s': Sched)
    requires Shape(s) && QueuesInRange(s) && s.cur != IDLE && s.pool[s.cur].priority < PRIO_LEVELS
    ensures Shape(s') && QueuesInRange(s')
  {
    Requeue(s)
  }

  /** sched_irq_end: the stack pointer it returns. */
  function IrqEndRsp(s: Sched, rsp: nat): nat
    requires Shape(s) && QueuesInRange(s) && (CurRuns(s) ==> s.pool[s.cur].priority < PRIO_LEVELS)
  {
    var s' := IrqEnd(s, rsp);
    if s'.cur == s.cur then rsp else SavedRsp(s', s'.cur)
  }
}
