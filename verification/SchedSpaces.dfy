/** Address spaces over the life of the tasks that run in them: a process's space is created, submitted with one task,
    and destroyed by whoever sees that task done. */
module SchedSpaces {
  import opened SchedSpec
  import opened SchedInvariant

  /** The private spaces that exist, by CR3, and the slot of the task each was submitted with. */
  type Spaces = map<nat, nat>

  datatype Action = Does(e: Event) | Destroys(cr3: nat)

  /** A process's space is new: no existing one and not the kernel's has its CR3, which is what a fresh page gives. A
      space is destroyed by a context other than its task's, once that task's slot reads DONE. */
  predicate MayAct(s: Sched, spaces: Spaces, a: Action)
    requires Shape(s)
  {
    match a
    case Does(e) =>
      Allowed(s, e) && (e.Submitted? && e.sub.kind.PrivateTask? ==>
        e.sub.kind.space !in spaces && e.sub.kind.space != MASTER_CR3)
    case Destroys(cr3) =>
      cr3 in spaces && spaces[cr3] < MAX_TASKS && s.cur != spaces[cr3] && s.pool[spaces[cr3]].state == Done
  }

  ghost function After(s: Sched, a: Action): (s': Sched)
    requires Inv(s) && (a.Does? ==> Allowed(s, a.e))
    ensures Inv(s')
  {
    if a.Does? then Step(s, a.e) else s
  }

  function SpacesAfter(s: Sched, spaces: Spaces, a: Action): Spaces
    requires Shape(s)
  {
    match a
    case Does(e) =>
      if e.Submitted? && e.sub.kind.PrivateTask? && Accepted(s, e.sub) then spaces[e.sub.kind.space := FreeSlot(s, 0)]
        else spaces
    case Destroys(cr3) => spaces - {cr3}
  }

  /** Tasks that run, will run, or are still being switched away from. */
  predicate Active(s: Sched, t: nat)
    requires Shape(s) && t < MAX_TASKS
  {
    s.pool[t].state == Ready || s.pool[t].state == Running || t == s.cur
  }

  /** Every active process runs in an existing space that was submitted with it and with no other slot. */
  ghost predicate Private(s: Sched, spaces: Spaces)
    requires Shape(s)
  {
    && 0 !in spaces && MASTER_CR3 !in spaces
    && forall t: nat :: t < MAX_TASKS && Active(s, t) && s.pool[t].cr3 != 0 ==>
         s.pool[t].cr3 in spaces && spaces[s.pool[t].cr3] == t
  }

  /** Hence no two active processes share a space. */
  lemma SpacesDistinct(s: Sched, spaces: Spaces, t: nat, u: nat)
    requires Shape(s) && Private(s, spaces) && t < MAX_TASKS && u < MAX_TASKS && Active(s, t) && Active(s, u)
    requires s.pool[t].cr3 == s.pool[u].cr3 != 0
    ensures t == u
  {
  }

  lemma SubmitPrivate(s: Sched, spaces: Spaces, sub: Submission)
    requires Inv(s) && Private(s, spaces) && MayAct(s, spaces, Does(Submitted(sub)))
    ensures Private(Submit(s, sub), SpacesAfter(s, spaces, Does(Submitted(sub))))
  {
    hide Queued;
    var s', slot := Submit(s, sub), FreeSlot(s, 0);
    if Accepted(s, sub) {
      if slot == s.count {
        FreeAbove(s, slot);
      }
      assert !Active(s, slot);
      forall t: nat | t < MAX_TASKS && t != slot ensures Active(s', t) == Active(s, t) && s'.pool[t] == s.pool[t] {
      }
    }
  }

  /** A switch makes a READY task current and takes CR3 fields from nowhere. */
  lemma IrqPrivate(s: Sched, spaces: Spaces, rsp: nat)
    requires Inv(s) && Private(s, spaces)
    ensures Private(Step(s, Irq(rsp)), spaces)
  {
    hide Queued, Dispatch;
    InRange(s);
    if Effective(s) {
      var s1 := Save(s, rsp);
      if CurRuns(s) && Dec(s.pool[s.cur].timeslice) > 0 {
      } else {
        SaveMid(s, rsp);
        var s2 := if CurRuns(s) then Requeue(s1) else s1;
        InRange(s2);
        DispatchPrivate(s2, spaces);
      }
    }
  }

  lemma DispatchPrivate(s: Sched, spaces: Spaces)
    requires Mid(s) && QueuesInRange(s) && Private(s, spaces)
    ensures Private(Dispatch(s), spaces)
  {
    hide Queued;
    var p := TopLevel(s.queues, 0);
    if p < PRIO_LEVELS {
      QueueHead(s, p);
    }
  }

  lemma ActPrivate(s: Sched, spaces: Spaces, a: Action)
    requires Inv(s) && Private(s, spaces) && MayAct(s, spaces, a)
    ensures Private(After(s, a), SpacesAfter(s, spaces, a))
  {
    hide Queued, IrqEnd, Submit;
    match a
    case Does(Submitted(sub)) => SubmitPrivate(s, spaces, sub);
    case Does(Irq(rsp)) => IrqPrivate(s, spaces, rsp);
    case _ =>
  }

  // ----- runs

  /** A run from sched_init, with the spaces that exist at each point. */
  ghost predicate IsLife(states: seq<Sched>, spaces: seq<Spaces>, actions: seq<Action>) {
    && |states| == |spaces| == |actions| + 1 && states[0] == Init() && spaces[0] == map[]
    && forall k :: 0 <= k < |actions| ==> Inv(states[k]) ==>
         && MayAct(states[k], spaces[k], actions[k]) && states[k + 1] == After(states[k], actions[k])
         && spaces[k + 1] == SpacesAfter(states[k], spaces[k], actions[k])
  }

  lemma LifeStep(states: seq<Sched>, spaces: seq<Spaces>, actions: seq<Action>, k: nat)
    requires IsLife(states, spaces, actions) && k < |actions| && Inv(states[k])
    ensures MayAct(states[k], spaces[k], actions[k]) && states[k + 1] == After(states[k], actions[k])
    ensures spaces[k + 1] == SpacesAfter(states[k], spaces[k], actions[k])
  {
    hide Inv, MayAct;
  }

  lemma {:induction false} LifePrivate(states: seq<Sched>, spaces: seq<Spaces>, actions: seq<Action>, n: nat)
    requires IsLife(states, spaces, actions) && n <= |actions|
    ensures Inv(states[n]) && Private(states[n], spaces[n])
  {
    hide Inv, Private;
    if n == 0 {
      InitInv();
      assert Private(Init(), map[]) by { InitPrivate(); }
    } else {
      LifePrivate(states, spaces, actions, n - 1);
      LifeStep(states, spaces, actions, n - 1);
      ActPrivate(states[n - 1], spaces[n - 1], actions[n - 1]);
    }
  }

  lemma InitPrivate()
    ensures Private(Init(), map[])
  {
  }

  /** Whenever the task of an existing space reads DONE and is not the current one, that space is not loaded. */
  lemma DoneSpaceNotLoaded(states: seq<Sched>, spaces: seq<Spaces>, actions: seq<Action>, n: nat, cr3: nat)
    requires IsLife(states, spaces, actions) && n <= |actions| && cr3 in spaces[n] && spaces[n][cr3] < MAX_TASKS
    ensures Shape(states[n])
    ensures states[n].pool[spaces[n][cr3]].state == Done && spaces[n][cr3] != states[n].cur ==> states[n].cr3 != cr3
  {
    hide Queued, CurOk;
    LifePrivate(states, spaces, actions, n);
  }

  /** So what is destroyed is never the loaded space, and no active process loses its own. */
  lemma DestroyedNotLoaded(states: seq<Sched>, spaces: seq<Spaces>, actions: seq<Action>, n: nat)
    requires IsLife(states, spaces, actions) && n < |actions| && actions[n].Destroys?
    ensures Inv(states[n]) && states[n].cr3 != actions[n].cr3
    ensures forall t: nat :: t < MAX_TASKS && Active(states[n], t) ==> states[n].pool[t].cr3 != actions[n].cr3
  {
    hide Queued, CurOk;
    LifePrivate(states, spaces, actions, n);
    LifeStep(states, spaces, actions, n);
  }

  // ----- a stale slot

  ghost predicate ReachedBy(states: seq<Sched>, spaces: seq<Spaces>, actions: seq<Action>, s: Sched, sp: Spaces) {
    IsLife(states, spaces, actions) && states[|actions|] == s && spaces[|actions|] == sp
  }

  /** Some run leads to this state and these spaces. */
  ghost predicate Reached(s: Sched, sp: Spaces) {
    exists states, spaces, actions :: ReachedBy(states, spaces, actions, s, sp)
  }

  lemma ReachedFirst()
    ensures Reached(Init(), map[])
  {
    assert ReachedBy([Init()], [map[]], [], Init(), map[]);
  }

  lemma LifeMore(states: seq<Sched>, spaces: seq<Spaces>, actions: seq<Action>, a: Action, s': Sched, sp': Spaces)
    requires IsLife(states, spaces, actions)
    requires var s, sp := states[|actions|], spaces[|actions|];
      Inv(s) && MayAct(s, sp, a) && s' == After(s, a) && sp' == SpacesAfter(s, sp, a)
    ensures IsLife(states + [s'], spaces + [sp'], actions + [a])
  {
    hide Inv, SpacesAfter, Init, Step, Allowed;
    var states', spaces', actions' := states + [s'], spaces + [sp'], actions + [a];
    forall k | 0 <= k < |actions'| && Inv(states'[k])
      ensures MayAct(states'[k], spaces'[k], actions'[k])
      ensures states'[k + 1] == After(states'[k], actions'[k])
      ensures spaces'[k + 1] == SpacesAfter(states'[k], spaces'[k], actions'[k])
    {
      if k < |actions| {
        assert states'[k] == states[k] && spaces'[k] == spaces[k] && actions'[k] == actions[k];
        assert states'[k + 1] == states[k + 1] && spaces'[k + 1] == spaces[k + 1];
        LifeStep(states, spaces, actions, k);
      } else {
        assert states'[k] == states[|actions|] && spaces'[k] == spaces[|actions|] && actions'[k] == a;
      }
    }
  }

  /** A run goes on with one more action. */
  lemma ReachedNext(s: Sched, sp: Spaces, a: Action, s': Sched, sp': Spaces)
    requires Reached(s, sp) && Inv(s) && MayAct(s, sp, a)
    requires Alike(After(s, a), s') && sp' == SpacesAfter(s, sp, a)
    ensures Reached(s', sp') && Inv(s')
  {
    assert a.Does? ==> Allowed(s, a.e);
    assert After(s, a).pool == s'.pool && After(s, a).queues == s'.queues && After(s, a) == s';
    hide Inv, MayAct, After, SpacesAfter, Init, IsLife;
    var states, spaces, actions: seq<Action> :| ReachedBy(states, spaces, actions, s, sp);
    LifeShape(states, spaces, actions);
    LifeMore(states, spaces, actions, a, s', sp');
    assert ReachedBy(states + [s'], spaces + [sp'], actions + [a], s', sp') by {
      LifeShape(states + [s'], spaces + [sp'], actions + [a]);
    }
  }

  lemma LifeShape(states: seq<Sched>, spaces: seq<Spaces>, actions: seq<Action>)
    requires IsLife(states, spaces, actions)
    ensures |states| == |spaces| == |actions| + 1
  {
  }

  predicate Alike(s: Sched, s': Sched) {
    && |s.pool| == |s'.pool| && (forall i :: 0 <= i < |s.pool| ==> s.pool[i] == s'.pool[i])
    && |s.queues| == |s'.queues| && (forall p :: 0 <= p < |s.queues| ==> s.queues[p] == s'.queues[p])
    && s'.(pool := s.pool, queues := s.queues) == s
  }

  /** A state of two slots and one level, as the run below goes through them. */
  function Two(t0: Task, t1: Task, count: nat, queue: seq<nat>, cur: int, want: bool, cr3: nat, rsp0: nat): Sched {
    Sched(seq(MAX_TASKS, i => if i == 0 then t0 else if i == 1 then t1 else FreeTask()), [[], [], queue, []], cur, 0,
          count, want, true, cr3, rsp0, 0)
  }

  function Process(space: nat, stack: nat): Submission { Submission(PrivateTask(space), stack, 0) }

  /** A process's task with its state. */
  function As(space: nat, stack: nat, state: TaskState): Task { Process(space, stack).NewTask().(state := state) }

  lemma TwoSubmitted()
    ensures
      var s := Two(As(0x8000, 0x10000, Ready), As(0x9000, 0x20000, Ready), 2, [0, 1], IDLE, false, MASTER_CR3, 0);
      Reached(s, map[0x8000 := 0, 0x9000 := 1]) && Inv(s)
  {
    hide Inv, Reached;
    var f, a, b := FreeTask(), As(0x8000, 0x10000, Ready), As(0x9000, 0x20000, Ready);
    var s0 := Two(f, f, 0, [], IDLE, false, MASTER_CR3, 0);
    ReachedFirst();
    InitInv();
    ReachedNext(Init(), map[], Does(Started), s0, map[]);
    var s1 := Two(a, f, 1, [0], IDLE, false, MASTER_CR3, 0);
    ReachedNext(s0, map[], Does(Submitted(Process(0x8000, 0x10000))), s1, map[0x8000 := 0]);
    var s2 := Two(a, b, 2, [0, 1], IDLE, false, MASTER_CR3, 0);
    ReachedNext(s1, map[0x8000 := 0], Does(Submitted(Process(0x9000, 0x20000))), s2,
                map[0x8000 := 0, 0x9000 := 1]);
  }

  lemma FirstRuns()
    ensures
      var s := Two(As(0x8000, 0x10000, Running), As(0x9000, 0x20000, Ready), 2, [1], 0, false, 0x8000, 0x12000);
      Reached(s, map[0x8000 := 0, 0x9000 := 1]) && Inv(s)
  {
    hide Inv, Reached;
    var sp := map[0x8000 := 0, 0x9000 := 1];
    var a, b := As(0x8000, 0x10000, Ready), As(0x9000, 0x20000, Ready);
    TwoSubmitted();
    var s2 := Two(a, b, 2, [0, 1], IDLE, false, MASTER_CR3, 0);
    var s3 := s2.(want := true);
    ReachedNext(s2, sp, Does(Ticked), s3, sp);
    var s4 := Two(a.(state := Running), b, 2, [1], 0, false, 0x8000, 0x12000);
    ReachedNext(s3, sp, Does(Irq(0)), s4, sp);
  }

  lemma FirstKilled()
    ensures
      var s := Two(As(0x8000, 0x10000, Done), As(0x9000, 0x20000, Running), 2, [], 1, false, 0x9000, 0x22000);
      Reached(s, map[0x8000 := 0, 0x9000 := 1]) && Inv(s)
  {
    hide Inv, Reached;
    var sp := map[0x8000 := 0, 0x9000 := 1];
    var a, b := As(0x8000, 0x10000, Done), As(0x9000, 0x20000, Ready);
    FirstRuns();
    var s4 := Two(a.(state := Running), b, 2, [1], 0, false, 0x8000, 0x12000);
    var s5 := Two(a, b, 2, [1], 0, true, 0x8000, 0x12000);
    ReachedNext(s4, sp, Does(Killed), s5, sp);
    var s6 := Two(a, b.(state := Running), 2, [], 1, false, 0x9000, 0x22000);
    ReachedNext(s5, sp, Does(Irq(0)), s6, sp);
  }

  lemma BothKilled()
    ensures
      var s := Two(As(0x8000, 0x10000, Done), As(0x9000, 0x20000, Done), 2, [], IDLE, false, MASTER_CR3, 0x22000);
      Reached(s, map[0x8000 := 0, 0x9000 := 1]) && Inv(s)
  {
    hide Inv, Reached;
    var sp := map[0x8000 := 0, 0x9000 := 1];
    var a, b := As(0x8000, 0x10000, Done), As(0x9000, 0x20000, Done);
    FirstKilled();
    var s6 := Two(a, b.(state := Running), 2, [], 1, false, 0x9000, 0x22000);
    var s7 := Two(a, b, 2, [], 1, true, 0x9000, 0x22000);
    ReachedNext(s6, sp, Does(Killed), s7, sp);
    var s8 := Two(a, b, 2, [], IDLE, false, MASTER_CR3, 0x22000);
    ReachedNext(s7, sp, Does(Irq(0)), s8, sp);
  }

  lemma BothDestroyed()
    ensures
      var s := Two(As(0x8000, 0x10000, Done), As(0x9000, 0x20000, Done), 2, [], IDLE, false, MASTER_CR3, 0x22000);
      Reached(s, map[]) && Inv(s)
  {
    hide Inv, Reached;
    var a, b := As(0x8000, 0x10000, Done), As(0x9000, 0x20000, Done);
    BothKilled();
    var s8 := Two(a, b, 2, [], IDLE, false, MASTER_CR3, 0x22000);
    var sp: Spaces := map[0x8000 := 0, 0x9000 := 1];
    var sp1: Spaces := map[0x9000 := 1];
    assert sp - {0x8000} == sp1 && sp1 - {0x9000} == map[];
    ReachedNext(s8, sp, Destroys(0x8000), s8, sp1);
    ReachedNext(s8, sp1, Destroys(0x9000), s8, map[]);
  }

  /** Slot `t` is done and not current, yet the loaded space has its CR3, being another task's by now. */
  predicate Stale(s: Sched, sp: Spaces, t: nat) {
    && Shape(s) && t < MAX_TASKS && s.pool[t].state == Done && s.cur != t && s.cr3 == s.pool[t].cr3
    && s.cr3 in sp && sp[s.cr3] == s.cur
  }

  /** The slot alone does not say which space is its own: a DONE slot keeps its CR3, and once its space is destroyed the
      same page may serve the next process. A run reaches a state in which slot 1 is done, its space 0x9000 destroyed,
      while slot 0 runs in a new space with that CR3. */
  lemma StaleSlot()
    ensures exists s: Sched, sp: Spaces :: Reached(s, sp) && Stale(s, sp, 1)
  {
    hide Inv, Reached;
    var b, c := As(0x9000, 0x20000, Done), As(0x9000, 0x30000, Ready);
    BothDestroyed();
    var s8 := Two(As(0x8000, 0x10000, Done), b, 2, [], IDLE, false, MASTER_CR3, 0x22000);
    var s9 := Two(c, b, 2, [0], IDLE, false, MASTER_CR3, 0x22000);
    var sp := map[0x9000 := 0];
    ReachedNext(s8, map[], Does(Submitted(Process(0x9000, 0x30000))), s9, sp);
    var s10 := s9.(want := true);
    ReachedNext(s9, sp, Does(Ticked), s10, sp);
    var s11 := Two(c.(state := Running), b, 2, [], 0, false, 0x9000, 0x32000);
    ReachedNext(s10, sp, Does(Irq(0)), s11, sp);
  }
}
