/** No task is lost or duplicated, and the registers follow the current task, in every reachable state. */
module SchedInvariant {
  import opened SchedSpec

  ghost predicate Distinct(q: seq<nat>) { forall i, j :: 0 <= i < j < |q| ==> q[i] != q[j] }

  /** A task waiting at level `p`, with a whole quantum ahead of it. */
  predicate WaitsAt(t: Task, p: nat) {
    t.state == Ready && t.priority == p && t.timeslice == t.quantum == Quantum(p)
  }

  /** Level `p` holds distinct slots, each of a task waiting there. */
  ghost predicate QueueOk(s: Sched, p: nat)
    requires Shape(s) && p < PRIO_LEVELS
  {
    && Distinct(s.queues[p])
    && forall k :: 0 <= k < |s.queues[p]| ==> s.queues[p][k] < s.count && WaitsAt(s.pool[s.queues[p][k]], p)
  }

  /** Every slot is accounted for: READY ones sit in their level's queue, slots past the count are FREE. */
  ghost predicate SlotOk(s: Sched, i: nat)
    requires Shape(s) && i < MAX_TASKS
  {
    && s.pool[i].state != Blocked
    && (s.pool[i].state == Ready ==> s.pool[i].priority < PRIO_LEVELS && i in s.queues[s.pool[i].priority])
    && (i >= s.count ==> s.pool[i].state == Free)
  }

  ghost predicate Queued(s: Sched)
    ensures Queued(s) ==> Shape(s)
  {
    && Shape(s)
    && (forall p :: 0 <= p < PRIO_LEVELS ==> QueueOk(s, p))
    && (forall i :: 0 <= i < MAX_TASKS ==> SlotOk(s, i))
  }

  /** CR3 and the ring-0 stack register belong to the current task. */
  ghost predicate RegsOk(s: Sched)
    requires Shape(s)
  {
    && s.cr3 == WantedCr3(s, s.cur)
    && (s.cur != IDLE && s.pool[s.cur].isUser ==> s.rsp0 == s.pool[s.cur].stack + TASK_STACK_SZ)
  }

  /** Only the current task runs; it is running within its quantum, or done and about to be switched away from. */
  ghost predicate CurOk(s: Sched)
    requires Shape(s)
  {
    && (forall i :: 0 <= i < MAX_TASKS && s.pool[i].state == Running ==> i == s.cur)
    && (s.cur != IDLE ==>
         && s.active && s.pool[s.cur].priority < PRIO_LEVELS
         && (s.pool[s.cur].state == Running || (s.pool[s.cur].state == Done && s.want))
         && s.pool[s.cur].quantum == Quantum(s.pool[s.cur].priority)
         && 1 <= s.pool[s.cur].timeslice <= s.pool[s.cur].quantum)
  }

  ghost predicate Inv(s: Sched)
    ensures Inv(s) ==> Shape(s)
  {
    Queued(s) && RegsOk(s) && CurOk(s)
  }

  lemma InitInv()
    ensures Inv(Init())
  {
  }

  // ----- a queue of distinct slots never overflows

  lemma {:induction false} Pigeonhole(q: seq<nat>, n: nat)
    requires Distinct(q) && forall k :: 0 <= k < |q| ==> q[k] < n
    ensures |q| <= n
    decreases n
  {
    if q != [] {
      assert q[0] < n;
      if n - 1 in q {
        var k :| 0 <= k < |q| && q[k] == n - 1;
        Pigeonhole(q[..k] + q[k + 1..], n - 1);
      } else {
        Pigeonhole(q, n - 1);
      }
    }
  }

  /** rq_push never reaches its drop branch: a slot that is not queued always has room. */
  lemma PushNeverDrops(s: Sched, p: nat, t: nat)
    requires Shape(s) && p < PRIO_LEVELS && QueueOk(s, p) && t < MAX_TASKS && t !in s.queues[p]
    ensures |s.queues[p]| < MAX_TASKS && Push(s.queues[p], t) == s.queues[p] + [t]
  {
    Pigeonhole(s.queues[p] + [t], MAX_TASKS);
  }

  /** A slot sits in at most one queue, its own level's, once. */
  lemma QueuedOnce(s: Sched, p: nat, k: nat, p': nat, k': nat)
    requires Queued(s) && p < PRIO_LEVELS && p' < PRIO_LEVELS && k < |s.queues[p]| && k' < |s.queues[p']|
    requires s.queues[p][k] == s.queues[p'][k']
    ensures p == p' && k == k'
  {
    assert QueueOk(s, p) && QueueOk(s, p');
  }

  // ----- queue updates

  /** Slot `i` changed to a task waiting at level `p` and was appended there. */
  lemma EnqueueOk(s: Sched, s': Sched, i: nat, t: Task)
    requires Queued(s) && i < MAX_TASKS && s.pool[i].state != Ready && t.priority < PRIO_LEVELS
    requires WaitsAt(t, t.priority)
    requires s'.pool == s.pool[i := t] && s'.queues == s.queues[t.priority := Push(s.queues[t.priority], i)]
    requires s.count <= s'.count <= MAX_TASKS && i < s'.count && IDLE <= s'.cur < s'.count
    requires s'.count <= s.count + 1 && (s'.count == s.count + 1 ==> i == s.count)
    ensures Queued(s') && s'.queues[t.priority] == s.queues[t.priority] + [i]
  {
    var p := t.priority;
    assert QueueOk(s, p);
    assert i !in s.queues[p];
    PushNeverDrops(s, p, i);
    forall q | 0 <= q < PRIO_LEVELS ensures QueueOk(s', q) {
      assert QueueOk(s, q);
      forall k | 0 <= k < |s'.queues[q]| ensures s'.queues[q][k] < s'.count && WaitsAt(s'.pool[s'.queues[q][k]], q) {
        assert k < |s.queues[q]| ==> s'.queues[q][k] == s.queues[q][k];
      }
    }
    forall j | 0 <= j < MAX_TASKS ensures SlotOk(s', j) {
      assert SlotOk(s, j);
    }
  }

  /** The head of level `p` left its queue and was set running. */
  lemma DequeueOk(s: Sched, s': Sched, p: nat)
    requires Queued(s) && p < PRIO_LEVELS && s.queues[p] != []
    requires s'.queues == s.queues[p := s.queues[p][1..]] && s'.count == s.count && s'.cur == s.queues[p][0]
    requires s.queues[p][0] < |s.pool| && s'.pool == s.pool[s.queues[p][0] := s.pool[s.queues[p][0]].(state := Running)]
    ensures Queued(s')
  {
    var t := s.queues[p][0];
    assert QueueOk(s, p);
    forall q | 0 <= q < PRIO_LEVELS ensures QueueOk(s', q) {
      assert QueueOk(s, q);
      forall k | 0 <= k < |s'.queues[q]| ensures s'.queues[q][k] < s'.count && WaitsAt(s'.pool[s'.queues[q][k]], q) {
        if q == p {
          assert s'.queues[q][k] == s.queues[p][k + 1];
        }
      }
    }
    forall j | 0 <= j < MAX_TASKS ensures SlotOk(s', j) {
      DequeueSlot(s, s', p, j);
    }
  }

  lemma DequeueSlot(s: Sched, s': Sched, p: nat, j: nat)
    requires Shape(s) && Shape(s') && p < PRIO_LEVELS && s.queues[p] != [] && j < MAX_TASKS && SlotOk(s, j)
    requires s.queues[p][0] < s.count
    requires s'.queues == s.queues[p := s.queues[p][1..]] && s'.count == s.count
    requires s'.pool == s.pool[s.queues[p][0] := s.pool[s.queues[p][0]].(state := Running)]
    ensures SlotOk(s', j)
  {
    if j != s.queues[p][0] && s.pool[j].state == Ready && s.pool[j].priority == p {
      var k :| 0 <= k < |s.queues[p]| && s.queues[p][k] == j;
      assert s'.queues[p][k - 1] == j;
    }
  }

  /** Changing a slot that is not READY, to something not READY, leaves the queues right. */
  lemma RestateOk(s: Sched, s': Sched, i: nat, t: Task)
    requires Queued(s) && i < s.count && s.pool[i].state != Ready && t.state != Ready && t.state != Blocked
    requires s'.pool == s.pool[i := t] && s'.queues == s.queues && s'.count == s.count && IDLE <= s'.cur < s'.count
    ensures Queued(s')
  {
    forall q | 0 <= q < PRIO_LEVELS ensures QueueOk(s', q) {
      assert QueueOk(s, q);
    }
    forall j | 0 <= j < MAX_TASKS ensures SlotOk(s', j) {
      assert SlotOk(s, j);
    }
  }

  lemma SameQueues(s: Sched, s': Sched)
    requires Queued(s) && s'.pool == s.pool && s'.queues == s.queues
    requires s.count <= s'.count <= MAX_TASKS && IDLE <= s'.cur < s'.count
    ensures Queued(s')
  {
    forall q | 0 <= q < PRIO_LEVELS ensures QueueOk(s', q) {
      assert QueueOk(s, q);
    }
    forall j | 0 <= j < MAX_TASKS ensures SlotOk(s', j) {
      assert SlotOk(s, j);
    }
  }

  // ----- every step keeps the invariant

  lemma TickInv(s: Sched)
    requires Inv(s)
    ensures Inv(Tick(s)) && Inv(Start(s))
  {
    SameQueues(s, Tick(s));
    SameQueues(s, Start(s));
  }

  lemma YieldInv(s: Sched)
    requires Inv(s)
    ensures Inv(Yield(s))
  {
    if CurRuns(s) {
      RestateOk(s, Yield(s), s.cur, s.pool[s.cur].(timeslice := 1));
    } else {
      SameQueues(s, Yield(s));
    }
  }

  lemma KillInv(s: Sched)
    requires Inv(s)
    ensures Inv(Kill(s))
  {
    if s.cur != IDLE {
      RestateOk(s, Kill(s), s.cur, s.pool[s.cur].(state := Done));
    }
  }

  lemma ExitInv(s: Sched)
    requires Inv(s)
    ensures Inv(Exit(s))
  {
    if s.cur != IDLE {
      KillInv(s);
    } else {
      SameQueues(s, Exit(s));
    }
  }

  /** A submission may happen while the current task is alive: a DONE current task's slot must not be reused. */
  predicate MaySubmit(s: Sched)
    requires Shape(s)
  {
    s.cur == IDLE || CurRuns(s)
  }

  lemma SubmitInv(s: Sched, sub: Submission)
    requires Inv(s) && MaySubmit(s)
    ensures Inv(Submit(s, sub))
  {
    hide QueueOk, SlotOk;
    var slot := FreeSlot(s, 0);
    var s' := Submit(s, sub);
    if !Admissible(s, sub) || slot >= MAX_TASKS {
    } else if sub.stack == 0 {
      SameQueues(s, s');
    } else {
      if slot == s.count {
        FreeAbove(s, slot);
      }
      EnqueueOk(s, s', slot, s'.pool[slot]);
    }
  }

  lemma FreeAbove(s: Sched, i: nat)
    requires Queued(s) && s.count <= i < MAX_TASKS
    ensures s.pool[i].state == Free
  {
    assert SlotOk(s, i);
  }

  /** Between saving the old context and loading the new one: nothing runs. */
  ghost predicate Mid(s: Sched) {
    && Queued(s) && RegsOk(s) && s.active
    && (forall i :: 0 <= i < MAX_TASKS ==> s.pool[i].state != Running)
  }

  lemma SaveMid(s: Sched, rsp: nat)
    requires Inv(s) && Effective(s)
    ensures Queued(Save(s, rsp)) && RegsOk(Save(s, rsp))
    ensures CurRuns(s) ==> Mid(Requeue(Save(s, rsp)))
    ensures !CurRuns(s) ==> Mid(Save(s, rsp))
  {
    hide QueueOk, SlotOk;
    var s1 := Save(s, rsp);
    if s.cur == IDLE {
      SameQueues(s, s1);
    } else {
      RestateOk(s, s1, s.cur, s1.pool[s.cur]);
      if CurRuns(s) {
        var s2 := Requeue(s1);
        EnqueueOk(s1, s2, s.cur, s2.pool[s.cur]);
      }
    }
  }

  lemma QueueHead(s: Sched, p: nat)
    requires Queued(s) && p < PRIO_LEVELS && s.queues[p] != []
    ensures s.queues[p][0] < s.count && WaitsAt(s.pool[s.queues[p][0]], p)
  {
    assert QueueOk(s, p);
  }

  lemma InRange(s: Sched)
    requires Queued(s)
    ensures QueuesInRange(s)
  {
    forall p, k | 0 <= p < PRIO_LEVELS && 0 <= k < |s.queues[p]| ensures s.queues[p][k] < s.count {
      assert QueueOk(s, p);
    }
  }

  lemma DispatchInv(s: Sched)
    requires Mid(s) && QueuesInRange(s)
    ensures Inv(Dispatch(s))
    ensures var p := TopLevel(s.queues, 0);
            Dispatch(s).cur == if p == PRIO_LEVELS then IDLE else s.queues[p][0]
  {
    hide QueueOk, SlotOk;
    var p := TopLevel(s.queues, 0);
    var s' := Dispatch(s);
    if p == PRIO_LEVELS {
      SameQueues(s, s');
    } else {
      QueueHead(s, p);
      DequeueOk(s, s', p);
    }
  }

  lemma IrqEndInv(s: Sched, rsp: nat)
    requires Inv(s)
    ensures QueuesInRange(s) && (CurRuns(s) ==> s.pool[s.cur].priority < PRIO_LEVELS) && Inv(IrqEnd(s, rsp))
  {
    hide Queued, Distinct, QueueOk, SlotOk, QueuesInRange, Dispatch;
    InRange(s);
    if Effective(s) {
      SaveMid(s, rsp);
      var s1 := Save(s, rsp);
      if CurRuns(s) && Dec(s.pool[s.cur].timeslice) > 0 {
        var s' := IrqEnd(s, rsp);
        RestateOk(s, s', s.cur, s'.pool[s.cur]);
      } else if CurRuns(s) {
        InRange(s1);
        InRange(Requeue(s1));
        DispatchInv(Requeue(s1));
      } else {
        InRange(s1);
        DispatchInv(s1);
      }
    }
  }

  // ----- runs

  datatype Event = Started | Ticked | Irq(rsp: nat) | Submitted(sub: Submission) | Yielded | Killed | Exited

  predicate Allowed(s: Sched, e: Event)
    requires Shape(s)
  {
    e.Submitted? ==> MaySubmit(s)
  }

  ghost function Step(s: Sched, e: Event): (s': Sched)
    requires Inv(s) && Allowed(s, e)
    ensures Inv(s')
  {
    match e
    case Started => TickInv(s); Start(s)
    case Ticked => TickInv(s); Tick(s)
    case Irq(rsp) => IrqEndInv(s, rsp); IrqEnd(s, rsp)
    case Submitted(sub) => SubmitInv(s, sub); Submit(s, sub)
    case Yielded => YieldInv(s); Yield(s)
    case Killed => KillInv(s); Kill(s)
    case Exited => ExitInv(s); Exit(s)
  }

  /** Each event leads from one state to the next. */
  ghost predicate Follows(states: seq<Sched>, events: seq<Event>) {
    && |states| == |events| + 1
    && forall k :: 0 <= k < |events| && Inv(states[k]) ==>
         Allowed(states[k], events[k]) && states[k + 1] == Step(states[k], events[k])
  }

  /** A run from the state sched_init leaves. */
  ghost predicate IsRun(states: seq<Sched>, events: seq<Event>) { Follows(states, events) && states[0] == Init() }

  /** In every state of every run, nothing is lost or duplicated and the registers are the current task's. */
  lemma {:induction false} RunInv(states: seq<Sched>, events: seq<Event>, n: nat)
    requires IsRun(states, events) && n <= |events|
    ensures Inv(states[n])
  {
    if n == 0 {
      InitInv();
    } else {
      RunInv(states, events, n - 1);
      FollowsStep(states, events, n - 1);
    }
  }

  lemma RunStep(states: seq<Sched>, events: seq<Event>, n: nat)
    requires IsRun(states, events) && n < |events|
    ensures Inv(states[n]) && Allowed(states[n], events[n]) && states[n + 1] == Step(states[n], events[n])
  {
    RunInv(states, events, n);
    FollowsStep(states, events, n);
  }

  lemma FollowsStep(states: seq<Sched>, events: seq<Event>, n: nat)
    requires Follows(states, events) && n < |events| && Inv(states[n])
    ensures Allowed(states[n], events[n]) && states[n + 1] == Step(states[n], events[n])
  {
    hide Inv;
  }

  /** READY means queued exactly once, at the task's own level; queued means READY. */
  lemma ReadyIffQueuedOnce(s: Sched, t: nat)
    requires Inv(s) && t < MAX_TASKS
    ensures s.pool[t].state == Ready <==>
      exists p: nat, k: nat :: p < PRIO_LEVELS && k < |s.queues[p]| && s.queues[p][k] == t
    ensures forall p: nat, k: nat, p': nat, k': nat ::
      p < PRIO_LEVELS && k < |s.queues[p]| && s.queues[p][k] == t && p' < PRIO_LEVELS && k' < |s.queues[p']|
        && s.queues[p'][k'] == t ==>
      p == p' == s.pool[t].priority && k == k'
  {
    assert SlotOk(s, t);
    if s.pool[t].state == Ready {
      var p := s.pool[t].priority;
      var k :| 0 <= k < |s.queues[p]| && s.queues[p][k] == t;
    }
    forall p: nat, k: nat, p': nat, k': nat |
      p < PRIO_LEVELS && k < |s.queues[p]| && s.queues[p][k] == t && p' < PRIO_LEVELS && k' < |s.queues[p']|
        && s.queues[p'][k'] == t
      ensures p == p' == s.pool[t].priority && k == k'
    {
      assert QueueOk(s, p);
      QueuedOnce(s, p, k, p', k');
    }
    forall p: nat, k: nat | p < PRIO_LEVELS && k < |s.queues[p]| && s.queues[p][k] == t
      ensures s.pool[t].state == Ready {
      assert QueueOk(s, p);
    }
  }

  /** The idle thread is chosen only when every queue is empty. */
  lemma IdleOnlyWhenEmpty(s: Sched, rsp: nat)
    requires Inv(s) && s.cur != IDLE
    ensures QueuesInRange(s) && (CurRuns(s) ==> s.pool[s.cur].priority < PRIO_LEVELS)
    ensures IrqEnd(s, rsp).cur == IDLE ==> forall p :: 0 <= p < PRIO_LEVELS ==> s.queues[p] == []
  {
    hide Queued, Distinct, QueueOk, SlotOk, QueuesInRange, Dispatch;
    InRange(s);
    if Effective(s) {
      SaveMid(s, rsp);
      var s1 := Save(s, rsp);
      if CurRuns(s) && Dec(s.pool[s.cur].timeslice) > 0 {
      } else if CurRuns(s) {
        InRange(s1);
        InRange(Requeue(s1));
        DispatchInv(Requeue(s1));
      } else {
        InRange(s1);
        DispatchInv(s1);
      }
    }
  }
}
