/** Bounded waiting, and resumption with the context last saved. */
module SchedLiveness {
  import opened SchedSpec
  import opened SchedInvariant

  // ----- what an interrupt exit does, as seen from a waiting task

  /** Task `t` waits at position `k` of level `p`, and nothing above that level is ready or running. */
  ghost predicate Waiting(s: Sched, t: nat, p: nat, k: nat) {
    && Inv(s) && p < PRIO_LEVELS && k < |s.queues[p]| && s.queues[p][k] == t
    && (forall q :: 0 <= q < p ==> s.queues[q] == [])
    && (CurRuns(s) ==> p <= s.pool[s.cur].priority)
  }

  /** Interrupt exits left before the current task gives way. */
  function Left(s: Sched): nat
    requires Shape(s)
  {
    if CurRuns(s) then s.pool[s.cur].timeslice else 1
  }

  /** The bound: what is left of the current task, plus one quantum per task ahead. */
  function Rank(s: Sched, p: nat, k: nat): nat
    requires Shape(s)
  {
    Left(s) + k * Quantum(p)
  }

  /** Task `t` has the CPU. */
  predicate Has(s: Sched, t: nat)
    requires Shape(s)
  {
    s.cur == t && CurRuns(s)
  }

  /** From a state with no running task, dispatching serves the head of level `p`. */
  lemma DispatchServes(s: Sched, t: nat, p: nat, k: nat)
    requires Mid(s) && QueuesInRange(s) && p < PRIO_LEVELS && k < |s.queues[p]| && s.queues[p][k] == t
    requires forall q :: 0 <= q < p ==> s.queues[q] == []
    ensures var s' := Dispatch(s);
            && Inv(s')
            && (if k == 0 then Has(s', t) else Waiting(s', t, p, k - 1) && Left(s') == Quantum(p))
  {
    hide Queued, QueueOk, SlotOk;
    DispatchInv(s);
    assert TopLevel(s.queues, 0) == p;
    QueueHead(s, p);
  }

  lemma RankStep(s: Sched, s': Sched, p: nat, k: nat)
    requires Shape(s) && Shape(s') && k > 0 && Left(s) == 1 && Left(s') == Quantum(p)
    ensures Rank(s', p, k - 1) == Rank(s, p, k) - 1
  {
    assert k * Quantum(p) == (k - 1) * Quantum(p) + Quantum(p);
  }

  /** An effective interrupt exit serves the waiting task or brings it one step nearer. */
  lemma IrqProgress(s: Sched, rsp: nat, t: nat, p: nat, k: nat)
    requires Waiting(s, t, p, k) && Effective(s)
    ensures QueuesInRange(s) && (CurRuns(s) ==> s.pool[s.cur].priority < PRIO_LEVELS)
    ensures var s' := IrqEnd(s, rsp);
            && Inv(s')
            && (Has(s', t) ||
                exists k': nat :: k' <= k && Waiting(s', t, p, k') && Rank(s', p, k') < Rank(s, p, k))
  {
    hide Queued, Distinct, QueueOk, SlotOk, QueuesInRange, Dispatch, Rank;
    InRange(s);
    SaveMid(s, rsp);
    IrqEndInv(s, rsp);
    var s1 := Save(s, rsp);
    var s' := IrqEnd(s, rsp);
    if CurRuns(s) && Dec(s.pool[s.cur].timeslice) > 0 {
      assert Waiting(s', t, p, k);
      SameRank(s, s', p, k);
    } else {
      var s2 := if CurRuns(s) then Requeue(s1) else s1;
      InRange(s1);
      InRange(s2);
      StillAhead(s, s1, s2, t, p, k);
      DispatchServes(s2, t, p, k);
      if k > 0 {
        RankStep(s, s', p, k);
        assert Waiting(s', t, p, k - 1);
      }
    }
  }

  lemma SameRank(s: Sched, s': Sched, p: nat, k: nat)
    requires Shape(s) && Shape(s')
    ensures Left(s') < Left(s) ==> Rank(s', p, k) < Rank(s, p, k)
    ensures Left(s') <= Left(s) ==> Rank(s', p, k) <= Rank(s, p, k)
  {
  }

  /** Requeueing the current task puts it behind the waiting one. */
  lemma StillAhead(s: Sched, s1: Sched, s2: Sched, t: nat, p: nat, k: nat)
    requires Waiting(s, t, p, k) && Shape(s1) && s1.queues == s.queues && s1.cur == s.cur
    requires s.cur != IDLE ==> s1.pool[s.cur].priority == s.pool[s.cur].priority
    requires s2 == if CurRuns(s) then Requeue(s1) else s1
    ensures p < PRIO_LEVELS && k < |s2.queues[p]| && s2.queues[p][k] == t
    ensures forall q :: 0 <= q < p ==> s2.queues[q] == []
  {
  }

  /** Nothing but a submission above level `p` can push the waiting task back. */
  predicate Harmless(e: Event, p: nat) { e.Submitted? ==> p <= e.sub.Priority() }

  /** Every other event leaves the waiting task where it is. */
  lemma QuietProgress(s: Sched, e: Event, t: nat, p: nat, k: nat)
    requires Waiting(s, t, p, k) && Allowed(s, e) && Harmless(e, p) && !(e.Irq? && Effective(s))
    ensures Waiting(Step(s, e), t, p, k) && Rank(Step(s, e), p, k) <= Rank(s, p, k)
  {
    hide Queued, QueueOk, SlotOk, Rank, Dispatch;
    var s' := Step(s, e);
    match e
    case Submitted(sub) =>
      SubmitQuiet(s, sub, t, p, k);
      SameRank(s, s', p, k);
    case _ =>
      SameRank(s, s', p, k);
  }

  lemma SubmitQuiet(s: Sched, sub: Submission, t: nat, p: nat, k: nat)
    requires Waiting(s, t, p, k) && MaySubmit(s) && p <= sub.Priority()
    ensures var s' := Submit(s, sub);
            Waiting(s', t, p, k) && Left(s') == Left(s)
  {
    hide Queued, QueueOk, SlotOk;
    SubmitInv(s, sub);
  }

  /** How many events before `n` were effective interrupt exits. */
  ghost function Exits(states: seq<Sched>, events: seq<Event>, n: nat): nat
    requires n <= |events| < |states|
  {
    if n == 0 then 0 else Exits(states, events, n - 1) + (if events[n - 1].Irq? && Effective(states[n - 1]) then 1
      else 0)
  }

  /** Before `n`, either the task was served, or its rank has dropped by at least the exits so far. */
  lemma {:induction false} RankDrops(states: seq<Sched>, events: seq<Event>, t: nat, p: nat, k: nat, n: nat)
    requires Follows(states, events) && Waiting(states[0], t, p, k) && n <= |events|
    requires forall i :: 0 <= i < |events| ==> Harmless(events[i], p)
    ensures (exists m: nat :: m <= n && Inv(states[m]) && Has(states[m], t)) ||
            exists k': nat :: k' <= k && Waiting(states[n], t, p, k')
              && Rank(states[n], p, k') + Exits(states, events, n) <= Rank(states[0], p, k)
  {
    hide Queued, RegsOk, CurOk, Rank, Effective;
    if n == 0 {
      assert Waiting(states[n], t, p, k);
    } else {
      RankDrops(states, events, t, p, k, n - 1);
      if !(exists m: nat :: m <= n - 1 && Inv(states[m]) && Has(states[m], t)) {
        var k': nat :| k' <= k && Waiting(states[n - 1], t, p, k')
                       && Rank(states[n - 1], p, k') + Exits(states, events, n - 1) <= Rank(states[0], p, k);
        RankOne(states[n - 1], events[n - 1], states[n], t, p, k');
      }
    }
  }

  lemma RankOne(s: Sched, e: Event, s': Sched, t: nat, p: nat, k: nat)
    requires Waiting(s, t, p, k) && Allowed(s, e) && Harmless(e, p) && s' == Step(s, e)
    ensures Inv(s')
    ensures Has(s', t) ||
            exists k': nat :: k' <= k && Waiting(s', t, p, k')
              && Rank(s', p, k') + (if e.Irq? && Effective(s) then 1 else 0) <= Rank(s, p, k)
  {
    hide Queued, RegsOk, CurOk, Rank, Dispatch, Waiting;
    if e.Irq? && Effective(s) {
      IrqProgress(s, e.rsp, t, p, k);
    } else {
      QuietProgress(s, e, t, p, k);
      assert Waiting(s', t, p, k);
    }
  }

  /** Bounded wait: once the interrupt exits reach the rank, the task has had the CPU. */
  lemma BoundedWait(states: seq<Sched>, events: seq<Event>, t: nat, p: nat, k: nat)
    requires Follows(states, events) && Waiting(states[0], t, p, k)
    requires forall i :: 0 <= i < |events| ==> Harmless(events[i], p)
    requires Exits(states, events, |events|) >= Rank(states[0], p, k)
    ensures exists m: nat :: m <= |events| && Inv(states[m]) && Has(states[m], t)
  {
    hide Queued, RegsOk, QueueOk, SlotOk;
    RankDrops(states, events, t, p, k, |events|);
    forall k': nat | Waiting(states[|events|], t, p, k') ensures Rank(states[|events|], p, k') > 0 {
      assert k' * Quantum(p) >= 0;
    }
  }

  // ----- contexts

  ghost predicate AllShaped(states: seq<Sched>) { forall k :: 0 <= k < |states| ==> Shape(states[k]) }

  /** The context on record for `t` after event `e`, given the one before: a submission into slot `t` records its first
      frame, an effective interrupt exit records the interrupted stack pointer of the current task. */
  function Recorded(s: Sched, e: Event, t: int, was: nat): nat
    requires Shape(s)
  {
    if e.Irq? && Effective(s) && s.cur == t then e.rsp
    else if e.Submitted? && Accepted(s, e.sub) && FreeSlot(s, 0) == t then e.sub.rsp
    else was
  }

  /** The context last saved for `t` in the first `n` events. */
  ghost function LastSaved(states: seq<Sched>, events: seq<Event>, n: nat, t: int): nat
    requires n <= |events| < |states| && AllShaped(states)
  {
    if n == 0 then 0 else Recorded(states[n - 1], events[n - 1], t, LastSaved(states, events, n - 1, t))
  }

  lemma IrqKeepsRsp(s: Sched, rsp: nat, t: int)
    requires Inv(s) && IDLE <= t < MAX_TASKS
    ensures QueuesInRange(s) && (CurRuns(s) ==> s.pool[s.cur].priority < PRIO_LEVELS)
    ensures SavedRsp(IrqEnd(s, rsp), t) == if Effective(s) && t == s.cur then rsp else SavedRsp(s, t)
  {
    hide Queued;
    InRange(s);
  }

  lemma StepKeepsRsp(s: Sched, e: Event, t: int)
    requires Inv(s) && Allowed(s, e) && IDLE <= t < MAX_TASKS
    ensures SavedRsp(Step(s, e), t) == Recorded(s, e, t, SavedRsp(s, t))
  {
    hide Queued, Dispatch, IrqEnd;
    match e
    case Irq(rsp) => IrqKeepsRsp(s, rsp, t);
    case _ =>
  }

  lemma RunShaped(states: seq<Sched>, events: seq<Event>)
    requires IsRun(states, events)
    ensures AllShaped(states)
  {
    forall k | 0 <= k < |states| ensures Shape(states[k]) {
      RunInv(states, events, k);
    }
  }

  lemma {:induction false} SavedIsLast(states: seq<Sched>, events: seq<Event>, n: nat, t: int)
    requires IsRun(states, events) && AllShaped(states) && n <= |events| && IDLE <= t < MAX_TASKS
    ensures SavedRsp(states[n], t) == LastSaved(states, events, n, t)
  {
    hide Inv, Step, Recorded;
    if n > 0 {
      SavedIsLast(states, events, n - 1, t);
      RunStep(states, events, n - 1);
      StepKeepsRsp(states[n - 1], events[n - 1], t);
    }
  }

  /** An interrupt exit returns the interrupted stack pointer, or, when it switches, the one last saved for the task it
      switches to. */
  lemma ResumesLastSaved(states: seq<Sched>, events: seq<Event>, n: nat, rsp: nat)
    requires IsRun(states, events) && n <= |events|
    ensures AllShaped(states) && QueuesInRange(states[n])
    ensures (CurRuns(states[n]) ==> states[n].pool[states[n].cur].priority < PRIO_LEVELS)
    ensures var s, next := states[n], IrqEnd(states[n], rsp).cur;
            IrqEndRsp(s, rsp) == if next == s.cur then rsp else LastSaved(states, events, n, next)
  {
    hide Inv, Dispatch, IrqEnd;
    var s := states[n];
    RunShaped(states, events);
    RunInv(states, events, n);
    IrqEndInv(s, rsp);
    var next := IrqEnd(s, rsp).cur;
    if next != s.cur {
      IrqKeepsRsp(s, rsp, next);
      SavedIsLast(states, events, n, next);
    }
  }
}
