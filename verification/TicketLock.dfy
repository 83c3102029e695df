/** The ticket spinlock of libc/spinlock.h as atomic steps of any number of threads. Tickets are 16 bits wide. */
module TicketLock {
  const TICKETS: nat := 65536

  type Tid = nat

  /** Where a thread is: outside; spinning with its ticket; inside; or between the load and the store of `owner++`. */
  datatype Phase = Outside | Spinning(ticket: nat) | Inside | Releasing(loaded: nat)

  /** The two counters, every thread's phase, and for the specification the threads that hold a ticket, in the order
      they drew them, with the full history of draws and of entries. */
  datatype State = State(next: nat, owner: nat, phase: map<Tid, Phase>, queue: seq<Tid>, drawn: seq<Tid>,
    entered: seq<Tid>)

  function Init(threads: set<Tid>): State {
    State(0, 0, map t | t in threads :: Outside, [], [], [])
  }

  // ----- the steps

  /** lock xaddw: take a ticket and bump `next`. */
  function Draw(s: State, t: Tid): State
    requires t in s.phase
  {
    s.(next := (s.next + 1) % TICKETS, phase := s.phase[t := Spinning(s.next)],
       queue := s.queue + [t], drawn := s.drawn + [t])
  }

  /** The spin loop sees owner == ticket. */
  function Enter(s: State, t: Tid): State
    requires t in s.phase
  {
    s.(phase := s.phase[t := Inside], entered := s.entered + [t])
  }

  /** `owner++`, its load. */
  function Load(s: State, t: Tid): State
    requires t in s.phase
  {
    s.(phase := s.phase[t := Releasing(s.owner)])
  }

  /** `owner++`, its store. */
  function Store(s: State, t: Tid): State
    requires t in s.phase && s.phase[t].Releasing? && s.queue != []
  {
    s.(owner := (s.phase[t].loaded + 1) % TICKETS, phase := s.phase[t := Outside], queue := s.queue[1..])
  }

  /** Thread `t` can take a step from `s` to `s'`; at most `limit` threads hold a ticket at once. */
  ghost predicate StepOf(s: State, s': State, t: Tid, limit: nat) {
    && t in s.phase
    && match s.phase[t]
       case Outside => |s.queue| < limit && s' == Draw(s, t)
       case Spinning(ticket) => s.owner == ticket && s' == Enter(s, t)
       case Inside => s' == Load(s, t)
       case Releasing(_) => s.queue != [] && s' == Store(s, t)
  }

  ghost predicate Step(s: State, s': State, limit: nat) { exists t :: StepOf(s, s', t, limit) }

  ghost predicate IsRun(run: seq<State>, threads: set<Tid>, limit: nat) {
    && |run| > 0 && run[0] == Init(threads)
    && forall i :: 0 <= i < |run| - 1 ==> Step(run[i], run[i + 1], limit)
  }

  // ----- the invariant

  /** The ticket of the thread at position `i` of the queue. */
  function TicketAt(owner: nat, i: nat): nat { (owner + i) % TICKETS }

  /** The queue holds each thread that is not outside exactly once. */
  ghost predicate Queued(s: State) {
    && (forall i :: 0 <= i < |s.queue| ==> s.queue[i] in s.phase && !s.phase[s.queue[i]].Outside?)
    && (forall i, j :: 0 <= i < j < |s.queue| ==> s.queue[i] != s.queue[j])
    && (forall t :: t in s.phase && !s.phase[t].Outside? ==> t in s.queue)
  }

  /** Only the head has stopped spinning, and its pending store will publish the next ticket. */
  ghost predicate HeadOnly(s: State)
    requires Queued(s)
  {
    && (forall i :: 0 < i < |s.queue| ==> s.phase[s.queue[i]].Spinning?)
    && (s.queue != [] && s.phase[s.queue[0]].Releasing? ==> s.phase[s.queue[0]].loaded == s.owner)
  }

  /** Tickets run on from `owner` along the queue up to `next`, modulo 2^16. */
  ghost predicate Numbered(s: State)
    requires Queued(s)
  {
    && s.owner < TICKETS && |s.queue| <= TICKETS && s.next == TicketAt(s.owner, |s.queue|)
    && (forall i :: 0 <= i < |s.queue| && s.phase[s.queue[i]].Spinning? ==>
       s.phase[s.queue[i]].ticket == TicketAt(s.owner, i))
  }

  ghost predicate Inv(s: State) {
    Queued(s) && HeadOnly(s) && Numbered(s) && InOrder(s.drawn, s.entered, Waiting(s))
  }

  /** Those who drew a ticket are those who entered, then those who wait. */
  ghost predicate InOrder(drawn: seq<Tid>, entered: seq<Tid>, waiting: seq<Tid>) { drawn == entered + waiting }

  lemma OrderDraws(drawn: seq<Tid>, entered: seq<Tid>, waiting: seq<Tid>, t: Tid)
    requires InOrder(drawn, entered, waiting)
    ensures InOrder(drawn + [t], entered, waiting + [t])
  {
    assert entered + (waiting + [t]) == entered + waiting + [t];
  }

  lemma OrderEnters(drawn: seq<Tid>, entered: seq<Tid>, waiting: seq<Tid>)
    requires InOrder(drawn, entered, waiting) && waiting != []
    ensures InOrder(drawn, entered + [waiting[0]], waiting[1..])
  {
    assert entered + waiting == entered + [waiting[0]] + waiting[1..];
  }

  /** The ticket holders still spinning, in order. */
  ghost function Waiting(s: State): seq<Tid> {
    if s.queue != [] && s.queue[0] in s.phase && !s.phase[s.queue[0]].Spinning? then s.queue[1..] else s.queue
  }

  /** With no more than 65536 holders, only the head's ticket can equal `owner`. */
  lemma TicketsDistinct(s: State, i: nat)
    requires s.owner < TICKETS && i < TICKETS
    ensures TicketAt(s.owner, i) == s.owner <==> i == 0
  {
  }

  lemma OneMoreTicket(owner: nat, i: nat)
    ensures (TicketAt(owner, i) + 1) % TICKETS == TicketAt(owner, i + 1)
  {
  }

  lemma NextTicket(owner: nat, i: nat)
    requires i > 0
    ensures TicketAt((owner + 1) % TICKETS, i - 1) == TicketAt(owner, i)
  {
  }

  lemma Position(s: State, t: Tid) returns (i: nat)
    requires Queued(s) && t in s.phase && !s.phase[t].Outside?
    ensures i < |s.queue| && s.queue[i] == t
  {
    i :| 0 <= i < |s.queue| && s.queue[i] == t;
  }

  /** Changing the phase of the thread at position `k`, staying in the queue. */
  lemma QueuedAt(s: State, s': State, k: nat, p: Phase)
    requires Queued(s) && k < |s.queue| && !p.Outside?
    requires s'.queue == s.queue && s'.phase == s.phase[s.queue[k] := p]
    ensures Queued(s') && forall i :: 0 <= i < |s.queue| && i != k ==> s'.phase[s.queue[i]] == s.phase[s.queue[i]]
  {
  }

  lemma DrawQueued(s: State, t: Tid)
    requires Queued(s) && t in s.phase && s.phase[t].Outside?
    ensures var s' := Draw(s, t);
      && Queued(s') && s'.phase[t] == Spinning(s.next)
      && (forall i :: 0 <= i < |s.queue| ==> s'.queue[i] == s.queue[i] && s'.phase[s.queue[i]] == s.phase[s.queue[i]])
  {
    assert t !in s.queue;
  }

  lemma DrawKeeps(s: State, t: Tid)
    requires Inv(s) && t in s.phase && s.phase[t].Outside? && |s.queue| < TICKETS
    ensures Inv(Draw(s, t))
  {
    var s' := Draw(s, t);
    DrawQueued(s, t);
    hide Queued;
    hide TicketAt;
    OneMoreTicket(s.owner, |s.queue|);
    assert Waiting(s') == Waiting(s) + [t];
    hide InOrder, Waiting;
    OrderDraws(s.drawn, s.entered, Waiting(s), t);
  }

  /** A spinning thread that sees its ticket is at the head. */
  lemma EntersAtHead(s: State, t: Tid)
    requires Queued(s) && Numbered(s) && t in s.phase && s.phase[t].Spinning? && s.owner == s.phase[t].ticket
    ensures s.queue != [] && t == s.queue[0]
  {
    hide TicketAt;
    var i := Position(s, t);
    TicketsDistinct(s, i);
  }

  lemma EnterKeeps(s: State, t: Tid)
    requires Inv(s) && t in s.phase && s.phase[t].Spinning? && s.owner == s.phase[t].ticket
    ensures s.queue != [] && t == s.queue[0] && Inv(Enter(s, t))
    ensures Waiting(s) != [] && t == Waiting(s)[0]
  {
    hide TicketAt;
    EntersAtHead(s, t);
    var s' := Enter(s, t);
    QueuedAt(s, s', 0, Inside);
    hide Queued;
    assert Waiting(s') == Waiting(s)[1..];
    hide InOrder, Waiting;
    OrderEnters(s.drawn, s.entered, Waiting(s));
  }

  lemma LoadKeeps(s: State, t: Tid)
    requires Inv(s) && t in s.phase && s.phase[t].Inside?
    ensures s.queue != [] && t == s.queue[0] && Inv(Load(s, t))
  {
    var i := Position(s, t);
    var s' := Load(s, t);
    QueuedAt(s, s', 0, Releasing(s.owner));
    hide Queued;
    hide TicketAt;
    assert Waiting(s') == Waiting(s);
    hide InOrder, Waiting;
  }

  lemma StoreQueued(s: State, t: Tid)
    requires Queued(s) && s.queue != [] && t == s.queue[0] && s.phase[t].Releasing?
    ensures var s' := Store(s, t);
      && Queued(s')
      && (forall i :: 0 <= i < |s'.queue| ==>
         s'.queue[i] == s.queue[i + 1] && s'.phase[s'.queue[i]] == s.phase[s.queue[i + 1]])
  {
  }

  lemma StoreKeeps(s: State, t: Tid)
    requires Inv(s) && t in s.phase && s.phase[t].Releasing?
    ensures s.queue != [] && t == s.queue[0] && Inv(Store(s, t))
  {
    var k := Position(s, t);
    var s' := Store(s, t);
    StoreQueued(s, t);
    hide Queued;
    assert s'.owner < TICKETS;
    hide TicketAt;
    forall i | 0 <= i <= |s'.queue|
      ensures TicketAt(s'.owner, i) == TicketAt(s.owner, i + 1)
    {
      NextTicket(s.owner, i + 1);
    }
    assert Waiting(s') == Waiting(s);
    hide InOrder, Waiting;
  }

  // ----- every run

  lemma StepKeeps(s: State, s': State, t: Tid, limit: nat)
    requires Inv(s) && StepOf(s, s', t, limit) && limit <= TICKETS
    ensures Inv(s')
  {
    hide Inv, Draw, Enter, Load, Store;
    match s.phase[t]
    case Outside => DrawKeeps(s, t);
    case Spinning(_) => EnterKeeps(s, t);
    case Inside => LoadKeeps(s, t);
    case Releasing(_) => StoreKeeps(s, t);
  }

  lemma {:induction false} RunInv(run: seq<State>, threads: set<Tid>, limit: nat, i: nat)
    requires IsRun(run, threads, limit) && limit <= TICKETS && i < |run|
    ensures Inv(run[i])
  {
    if i == 0 {
      assert run[0].queue == [];
    } else {
      RunInv(run, threads, limit, i - 1);
      hide Inv;
      assert Step(run[i - 1], run[i - 1 + 1], limit);
      var t :| StepOf(run[i - 1], run[i], t, limit);
      StepKeeps(run[i - 1], run[i], t, limit);
    }
  }

  predicate Holds(s: State, t: Tid) { t in s.phase && (s.phase[t].Inside? || s.phase[t].Releasing?) }

  /** Mutual exclusion and first come, first served, over every interleaving and across any number of wrap-arounds: at
      no point do two threads hold the lock, and the threads have entered in exactly the order they drew. */
  lemma Exclusive(run: seq<State>, threads: set<Tid>, limit: nat, i: nat, t: Tid, u: Tid)
    requires IsRun(run, threads, limit) && limit <= TICKETS && i < |run|
    ensures Holds(run[i], t) && Holds(run[i], u) ==> t == u
    ensures run[i].entered <= run[i].drawn
  {
    RunInv(run, threads, limit, i);
    var s := run[i];
    if Holds(s, t) && Holds(s, u) {
      var j := Position(s, t);
      var k := Position(s, u);
    }
  }

  /** Nobody waits for nothing: while tickets are out, the thread at the head can take its next step. */
  lemma HeadCanStep(s: State, limit: nat)
    requires Inv(s) && s.queue != []
    ensures exists s' :: StepOf(s, s', s.queue[0], limit)
  {
    var t := s.queue[0];
    match s.phase[t] {
      case Outside =>
      case Spinning(_) =>
        TicketsDistinct(s, 0);
        assert StepOf(s, Enter(s, t), t, limit);
      case Inside => assert StepOf(s, Load(s, t), t, limit);
      case Releasing(_) => assert StepOf(s, Store(s, t), t, limit);
    }
  }

  // ----- the bound is exact

  /** Threads 0 .. n - 1 have drawn one ticket each and none has entered. */
  ghost function Drawn(n: nat): State {
    State(n % TICKETS, 0, map t: nat | 0 <= t <= TICKETS :: if t < n then Spinning(t % TICKETS) else Outside,
          seq(n, i => i), seq(n, i => i), [])
  }

  ghost function Crowd(): set<Tid> { Drawn(0).phase.Keys }

  lemma DrawnStep(n: nat, limit: nat)
    requires n <= TICKETS < limit
    ensures StepOf(Drawn(n), Drawn(n + 1), n, limit)
  {
    var s, s' := Drawn(n), Draw(Drawn(n), n);
    var e := Drawn(n + 1);
    assert (n % TICKETS + 1) % TICKETS == (n + 1) % TICKETS;
    assert s'.queue == e.queue && s'.drawn == e.drawn;
    assert s'.phase == e.phase;
  }

  /** 65537 draws, then two threads whose tickets coincide enter. */
  ghost function Crowded(): seq<State> {
    var full := Drawn(TICKETS + 1);
    seq(TICKETS + 2, (i: nat) => Drawn(i)) + [Enter(full, 0)] + [Enter(Enter(full, 0), TICKETS)]
  }

  /** One contender more and two threads hold the lock at once. */
  lemma OneTooMany(limit: nat)
    requires limit > TICKETS
    ensures IsRun(Crowded(), Crowd(), limit)
    ensures var s := Crowded()[|Crowded()| - 1]; Holds(s, 0) && Holds(s, TICKETS)
  {
    var run := Crowded();
    var full := Drawn(TICKETS + 1);
    assert Drawn(0) == Init(Crowd()) by {
      assert Drawn(0).queue == [] && Drawn(0).drawn == [];
      assert Drawn(0).phase == Init(Crowd()).phase;
    }
    assert full.phase[0] == Spinning(0) && full.phase[TICKETS] == Spinning(0);
    forall i | 0 <= i < |run| - 1
      ensures Step(run[i], run[i + 1], limit)
    {
      CrowdedStep(i, limit);
    }
  }

  lemma CrowdedStep(i: nat, limit: nat)
    requires limit > TICKETS && i < |Crowded()| - 1
    ensures Step(Crowded()[i], Crowded()[i + 1], limit)
  {
    var full := Drawn(TICKETS + 1);
    if i <= TICKETS {
      DrawnStep(i, limit);
      hide Drawn, StepOf;
      assert Crowded()[i] == Drawn(i) && Crowded()[i + 1] == Drawn(i + 1);
    } else if i == TICKETS + 1 {
      assert StepOf(full, Enter(full, 0), 0, limit);
    } else {
      assert StepOf(Enter(full, 0), Enter(Enter(full, 0), TICKETS), TICKETS, limit);
    }
  }
}
