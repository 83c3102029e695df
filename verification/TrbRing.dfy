/** Transfer-request rings of drivers/xhci.c: a producer and a consumer that share nothing but the ring itself and tell
    fresh entries from stale ones by a cycle bit (sections 4.9.2 to 4.9.4 of the xHCI specification). A command ring has
    63 usable entries and a link entry behind them; the event ring has 64 entries and no link. */
module TrbRing {

  /** An entry; bit 0 of `ctrl` is the cycle bit. */
  datatype Slot = Slot(param: nat, status: nat, ctrl: nat)

  predicate Cycle(s: Slot) { s.ctrl % 2 == 1 }

  /** A control word without cycle bit, given one. */
  function Word(ctrl: nat, cycle: bool): (w: nat)
    requires ctrl % 2 == 0
    ensures (w % 2 == 1) == cycle && w - w % 2 == ctrl
  {
    if cycle then ctrl + 1 else ctrl
  }

  /** The entry as it was submitted. */
  function Bare(s: Slot): Slot { s.(ctrl := s.ctrl - s.ctrl % 2) }

  const LINK: nat := 0x1802          // TRB_TYPE(6) | TRB_TC

  /** The ring and both ends. `half` is between the producer's two stores, `peeked` between the consumer's reads. For
      the specification: what was submitted, what was taken, and what is outstanding. */
  datatype State = State(n: nat, linked: bool, slots: seq<Slot>, link: nat, enq: nat, pcs: bool, half: bool,
                         deq: nat, ccs: bool, peeked: bool, sent: seq<Slot>, taken: seq<Slot>, queue: seq<Slot>)

  /** ring_init on the ring at `base`, and the ends' first positions. On a ring that uses no link entry the link word
      lies in the last slot, to be overwritten like any other. */
  function Init(n: nat, linked: bool, base: nat): State {
    var zeros := seq(n, _ => Slot(0, 0, 0));
    var slots := if linked || n == 0 then zeros else zeros[n - 1 := Slot(base, 0, LINK)];
    State(n, linked, slots, LINK, 0, true, false, 0, true, false, [], [], [])
  }

  // ----- the producer

  /** Stores of param and status. */
  function Body(s: State, param: nat, status: nat): State
    requires s.enq < |s.slots|
  {
    s.(slots := s.slots[s.enq := Slot(param, status, s.slots[s.enq].ctrl)], half := true)
  }

  /** After the store barrier, the store of the control word with the cycle bit. Without a link entry the index wraps
      here. */
  function Ctrl(s: State, ctrl: nat): State
    requires s.enq < |s.slots| && ctrl % 2 == 0
  {
    var trb := Slot(s.slots[s.enq].param, s.slots[s.enq].status, ctrl);
    var wraps := !s.linked && s.enq + 1 == s.n;
    s.(slots := s.slots[s.enq := trb.(ctrl := Word(ctrl, s.pcs))], half := false,
       enq := if wraps then 0 else s.enq + 1, pcs := if wraps then !s.pcs else s.pcs,
       sent := s.sent + [trb], queue := s.queue + [trb])
  }

  /** The link entry is handed over and the producer starts another lap. */
  function Relink(s: State): State {
    s.(link := Word(LINK, s.pcs), enq := 0, pcs := !s.pcs)
  }

  // ----- the consumer

  /** The control word read carries the expected cycle bit. */
  function Peek(s: State): State { s.(peeked := true) }

  /** The rest is read and the entry taken. */
  function Take(s: State): State
    requires s.deq < |s.slots|
  {
    var wraps := !s.linked && s.deq + 1 == s.n;
    s.(peeked := false, taken := s.taken + [Bare(s.slots[s.deq])], queue := if s.queue == [] then [] else s.queue[1..],
       deq := if wraps then 0 else s.deq + 1, ccs := if wraps then !s.ccs else s.ccs)
  }

  /** The link entry carries the expected cycle bit: another lap. */
  function Follow(s: State): State { s.(deq := 0, ccs := !s.ccs) }

  ghost predicate ProducerStep(s: State, s': State, limit: nat) {
    || (!s.half && s.enq < |s.slots| && |s.queue| < limit && exists p: nat, t: nat :: s' == Body(s, p, t))
    || (s.half && s.enq < |s.slots| && exists c: nat :: c % 2 == 0 && s' == Ctrl(s, c))
    || (s.linked && s.enq == s.n && s' == Relink(s))
  }

  ghost predicate ConsumerStep(s: State, s': State) {
    || (!s.peeked && s.deq < |s.slots| && Cycle(s.slots[s.deq]) == s.ccs && s' == Peek(s))
    || (s.peeked && s.deq < |s.slots| && s' == Take(s))
    || (s.linked && s.deq == s.n && (s.link % 2 == 1) == s.ccs && s' == Follow(s))
  }

  /** Any step of either end, the producer keeping at most `limit` entries outstanding. */
  ghost predicate Step(s: State, s': State, limit: nat) { ProducerStep(s, s', limit) || ConsumerStep(s, s') }

  ghost predicate IsRun(run: seq<State>, n: nat, linked: bool, limit: nat) {
    && |run| > 0 && (exists base: nat :: run[0] == Init(n, linked, base))
    && forall i :: 0 <= i < |run| - 1 ==> Step(run[i], run[i + 1], limit)
  }

  // ----- the invariant

  /** An end standing at the link entry is, for the entries, at the start of its next lap. */
  function Index(i: nat, n: nat): nat { if i == n then 0 else i }

  function Lap(c: bool, i: nat, n: nat): bool { if i == n then !c else c }

  /** The slot `j` places on from `d`, and the cycle bit it has when fresh. */
  function Pos(d: nat, j: nat, n: nat): nat { if d + j < n then d + j else d + j - n }

  function Fresh(c: bool, d: nat, j: nat, n: nat): bool { if d + j < n then c else !c }

  function D(s: State): nat { Index(s.deq, s.n) }

  function C(s: State): bool { Lap(s.ccs, s.deq, s.n) }

  ghost predicate Shape(s: State) {
    && s.n > 0 && |s.slots| == s.n && s.deq <= s.n && s.enq <= s.n && |s.queue| <= s.n
    && (!s.linked ==> s.deq < s.n && s.enq < s.n)
    && (s.half ==> s.enq < s.n && |s.queue| < s.n) && (s.peeked ==> s.queue != [] && s.deq < s.n)
    && (forall j :: 0 <= j < |s.queue| ==> s.queue[j].ctrl % 2 == 0)
  }

  /** The outstanding entries lie on from the consumer in order, marked fresh; all others are marked stale. */
  ghost predicate Entries(slots: seq<Slot>, d: nat, c: bool, queue: seq<Slot>, n: nat)
    requires |slots| == n && d < n && |queue| <= n
  {
    && (forall j :: 0 <= j < |queue| ==>
       Bare(slots[Pos(d, j, n)]) == queue[j] && Cycle(slots[Pos(d, j, n)]) == Fresh(c, d, j, n))
    && (forall j :: |queue| <= j < n ==> Cycle(slots[Pos(d, j, n)]) != Fresh(c, d, j, n))
  }

  /** The producer stands behind the last outstanding entry, in the lap that follows from it. */
  ghost predicate Ends(s: State)
    requires Shape(s)
  {
    && Index(s.enq, s.n) == Pos(D(s), |s.queue|, s.n) && Lap(s.pcs, s.enq, s.n) == Fresh(C(s), D(s), |s.queue|, s.n)
    && (s.linked ==> (s.link % 2 == 1) != s.pcs)
  }

  ghost predicate Inv(s: State) {
    Shape(s) && Entries(s.slots, D(s), C(s), s.queue, s.n) && Ends(s) && InOrder(s.sent, s.taken, s.queue)
  }

  ghost predicate InOrder(sent: seq<Slot>, taken: seq<Slot>, queue: seq<Slot>) { sent == taken + queue }

  lemma OrderSends(sent: seq<Slot>, taken: seq<Slot>, queue: seq<Slot>, trb: Slot)
    requires InOrder(sent, taken, queue)
    ensures InOrder(sent + [trb], taken, queue + [trb])
  {
    assert taken + (queue + [trb]) == taken + queue + [trb];
  }

  lemma OrderTakes(sent: seq<Slot>, taken: seq<Slot>, queue: seq<Slot>)
    requires InOrder(sent, taken, queue) && queue != []
    ensures InOrder(sent, taken + [queue[0]], queue[1..])
  {
    assert taken + queue == taken + [queue[0]] + queue[1..];
  }

  lemma InitInv(n: nat, linked: bool, base: nat)
    requires n > 0
    ensures Inv(Init(n, linked, base))
  {
  }

  // ----- each step keeps it

  /** Writing the slot behind the queue without touching its cycle bit. */
  lemma EntriesBody(slots: seq<Slot>, d: nat, c: bool, queue: seq<Slot>, n: nat, k: nat, slot: Slot)
    requires |slots| == n && d < n && |queue| < n && Entries(slots, d, c, queue, n)
    requires k == Pos(d, |queue|, n) && slot.ctrl == slots[k].ctrl
    ensures Entries(slots[k := slot], d, c, queue, n)
  {
    assert forall j :: 0 <= j < |queue| ==> Pos(d, j, n) != k;
  }

  /** Marking it fresh makes it the last outstanding entry. */
  lemma EntriesCtrl(slots: seq<Slot>, d: nat, c: bool, queue: seq<Slot>, n: nat, k: nat, slot: Slot)
    requires |slots| == n && d < n && |queue| < n && Entries(slots, d, c, queue, n)
    requires k == Pos(d, |queue|, n) && Cycle(slot) == Fresh(c, d, |queue|, n)
    ensures Entries(slots[k := slot], d, c, queue + [Bare(slot)], n)
  {
    var slots', queue' := slots[k := slot], queue + [Bare(slot)];
    forall j | 0 <= j < n && j != |queue|
      ensures slots'[Pos(d, j, n)] == slots[Pos(d, j, n)]
    {
      assert Pos(d, j, n) != k;
    }
    assert forall j :: 0 <= j < |queue| ==> queue'[j] == queue[j];
  }

  /** Moving the consumer past the first outstanding entry leaves that entry stale. */
  lemma EntriesTake(slots: seq<Slot>, d: nat, c: bool, queue: seq<Slot>, n: nat)
    requires |slots| == n && d < n && 0 < |queue| <= n && Entries(slots, d, c, queue, n)
    ensures var d', c' := Index(d + 1, n), Lap(c, d + 1, n);
      d' < n && Entries(slots, d', c', queue[1..], n)
  {
    var d', c' := Index(d + 1, n), Lap(c, d + 1, n);
    forall j | 0 <= j < n - 1
      ensures Pos(d', j, n) == Pos(d, j + 1, n) && Fresh(c', d', j, n) == Fresh(c, d, j + 1, n)
    {
    }
    assert Pos(d', n - 1, n) == Pos(d, 0, n) && Fresh(c', d', n - 1, n) != Fresh(c, d, 0, n);
    assert forall j :: 0 <= j < |queue| - 1 ==> queue[1..][j] == queue[j + 1];
  }

  lemma BodyKeeps(s: State, param: nat, status: nat)
    requires Inv(s) && !s.half && s.enq < s.n && |s.queue| < s.n
    ensures Inv(Body(s, param, status))
  {
    hide Entries, InOrder;
    EntriesBody(s.slots, D(s), C(s), s.queue, s.n, s.enq, Slot(param, status, s.slots[s.enq].ctrl));
  }

  lemma CtrlKeeps(s: State, ctrl: nat)
    requires Inv(s) && s.half && ctrl % 2 == 0
    ensures Inv(Ctrl(s, ctrl))
  {
    hide Entries, InOrder;
    var slot := Slot(s.slots[s.enq].param, s.slots[s.enq].status, Word(ctrl, s.pcs));
    EntriesCtrl(s.slots, D(s), C(s), s.queue, s.n, s.enq, slot);
    OrderSends(s.sent, s.taken, s.queue, Bare(slot));
  }

  lemma RelinkKeeps(s: State)
    requires Inv(s) && s.linked && s.enq == s.n
    ensures Inv(Relink(s))
  {
  }

  /** The consumer sees a fresh cycle bit exactly when an entry is outstanding: no stale entry passes for fresh. */
  lemma SeesFresh(s: State)
    requires Inv(s) && s.deq < s.n
    ensures Cycle(s.slots[s.deq]) == s.ccs <==> s.queue != []
  {
    assert Pos(D(s), 0, s.n) == s.deq;
  }

  lemma PeekKeeps(s: State)
    requires Inv(s) && s.deq < s.n && Cycle(s.slots[s.deq]) == s.ccs
    ensures Inv(Peek(s))
  {
    SeesFresh(s);
    hide Entries;
  }

  lemma FrontEntry(s: State)
    requires Inv(s) && s.queue != [] && s.deq < s.n
    ensures Bare(s.slots[s.deq]) == s.queue[0]
  {
    assert Pos(D(s), 0, s.n) == s.deq;
  }

  lemma TakeKeeps(s: State)
    requires Inv(s) && s.peeked
    ensures Inv(Take(s)) && Take(s).taken == s.taken + [s.queue[0]]
  {
    FrontEntry(s);
    hide Entries, InOrder, Cycle, Bare;
    EntriesTake(s.slots, D(s), C(s), s.queue, s.n);
    OrderTakes(s.sent, s.taken, s.queue);
  }

  lemma FollowKeeps(s: State)
    requires Inv(s) && s.linked && s.deq == s.n
    ensures Inv(Follow(s))
  {
  }

  // ----- every interleaving

  lemma StepKeeps(s: State, s': State, limit: nat)
    requires Inv(s) && Step(s, s', limit) && limit <= s.n
    ensures Inv(s') && s'.n == s.n && s'.linked == s.linked
  {
    hide Entries, InOrder, Ends;
    if ConsumerStep(s, s') {
      if s.deq == s.n {
        FollowKeeps(s);
      } else if s.peeked {
        TakeKeeps(s);
      } else {
        PeekKeeps(s);
      }
    } else if s.enq == s.n {
      RelinkKeeps(s);
    } else if s.half {
      var c: nat :| c % 2 == 0 && s' == Ctrl(s, c);
      CtrlKeeps(s, c);
    } else {
      var p: nat, t: nat :| s' == Body(s, p, t);
      BodyKeeps(s, p, t);
    }
  }

  /** For every interleaving with at most n entries outstanding, and across any number of laps, what the consumer has
      taken is a prefix of what was submitted, and what it has not taken is what is outstanding. */
  lemma {:induction false} StreamIsPrefix(run: seq<State>, n: nat, linked: bool, limit: nat, i: nat)
    requires IsRun(run, n, linked, limit) && 0 < n && limit <= n && i < |run|
    ensures Inv(run[i]) && run[i].n == n && run[i].linked == linked
    ensures run[i].taken <= run[i].sent && |run[i].sent| - |run[i].taken| == |run[i].queue|
  {
    if i == 0 {
      var base: nat :| run[0] == Init(n, linked, base);
      InitInv(n, linked, base);
    } else {
      StreamIsPrefix(run, n, linked, limit, i - 1);
      hide Inv;
      assert Step(run[i - 1], run[i - 1 + 1], limit);
      StepKeeps(run[i - 1], run[i], limit);
      PrefixOf(run[i]);
    }
  }

  lemma PrefixOf(s: State)
    requires Inv(s)
    ensures s.taken <= s.sent && |s.sent| - |s.taken| == |s.queue|
  {
  }

  /** The consumer waits at a link entry that the producer, a whole lap ahead, has already handed over again. */
  predicate Stuck(s: State) { s.linked && s.deq == s.n && |s.queue| == s.n && s.enq < s.n }

  /** With entries outstanding the consumer can go on, exactly unless it is stuck. */
  lemma ProgressUnlessStuck(s: State)
    requires Inv(s) && s.queue != []
    ensures (exists s' :: ConsumerStep(s, s')) <==> !Stuck(s)
  {
    if s.deq < s.n {
      SeesFresh(s);
      assert ConsumerStep(s, if s.peeked then Take(s) else Peek(s));
    } else if !Stuck(s) {
      assert ConsumerStep(s, Follow(s));
    }
  }

  /** Once stuck, neither end can ever move again. */
  lemma StuckForever(s: State, s': State)
    requires Inv(s) && Stuck(s)
    ensures !Step(s, s', s.n)
  {
  }

  ghost predicate Within(s: State, limit: nat) { |s.queue| <= limit && (s.half ==> |s.queue| < limit) }

  lemma WithinKeeps(s: State, s': State, limit: nat)
    requires Within(s, limit) && Step(s, s', limit)
    ensures Within(s', limit)
  {
    hide Word, Cycle, Bare;
    if ConsumerStep(s, s') {
      assert s'.half == s.half && |s'.queue| <= |s.queue|;
    }
  }

  /** A producer that keeps one entry back never gets the consumer stuck, in any run. */
  lemma {:induction false} NeverStuck(run: seq<State>, n: nat, linked: bool, limit: nat, i: nat)
    requires IsRun(run, n, linked, limit) && 0 < n && limit < n && i < |run|
    ensures Within(run[i], limit) && !Stuck(run[i])
  {
    StreamIsPrefix(run, n, linked, limit, i);
    hide Inv;
    if i > 0 {
      NeverStuck(run, n, linked, limit, i - 1);
      assert Step(run[i - 1], run[i - 1 + 1], limit);
      hide Step;
      WithinKeeps(run[i - 1], run[i], limit);
    }
  }

  // ----- and one that does not, can

  ghost predicate Reachable(s: State, n: nat, linked: bool, limit: nat) {
    exists run :: IsRun(run, n, linked, limit) && run[|run| - 1] == s
  }

  lemma ReachStep(s: State, s': State, n: nat, linked: bool, limit: nat)
    requires Reachable(s, n, linked, limit) && Step(s, s', limit)
    ensures Reachable(s', n, linked, limit)
  {
    hide Step;
    var run :| IsRun(run, n, linked, limit) && run[|run| - 1] == s;
    var more := run + [s'];
    forall i | 0 <= i < |more| - 1
      ensures Step(more[i], more[i + 1], limit)
    {
      if i < |run| - 1 {
        assert Step(run[i], run[i + 1], limit);
      }
    }
    assert IsRun(more, n, linked, limit);
  }

  lemma ReachInv(s: State, n: nat, linked: bool, limit: nat)
    requires Reachable(s, n, linked, limit) && 0 < n && limit <= n
    ensures Inv(s) && s.n == n && s.linked == linked
  {
    var run :| IsRun(run, n, linked, limit) && run[|run| - 1] == s;
    StreamIsPrefix(run, n, linked, limit, |run| - 1);
  }

  /** A linked ring, both ends idle, with `k` entries outstanding. */
  ghost predicate Idle(s: State, n: nat, k: nat) {
    Reachable(s, n, true, n) && s.n == n && s.enq < n && !s.half && !s.peeked && |s.queue| == k && |s.slots| == n
      && s.linked
  }

  lemma Enqueue(s: State, n: nat, k: nat) returns (s': State)
    requires Idle(s, n, k) && k < n
    ensures Idle(s', n, k + 1) && s'.deq == s.deq && s'.ccs == s.ccs
  {
    hide Reachable;
    var s1 := Body(s, 0, 0);
    assert Step(s, s1, n);
    ReachStep(s, s1, n, true, n);
    var s2 := Ctrl(s1, 0);
    assert Step(s1, s2, n);
    ReachStep(s1, s2, n, true, n);
    s' := s2;
    if s2.enq == n {
      s' := Relink(s2);
      assert Step(s2, s', n);
      ReachStep(s2, s', n, true, n);
    }
  }

  lemma {:induction false} Fill(s: State, n: nat, k: nat) returns (s': State)
    requires Idle(s, n, k) && k <= n
    ensures Idle(s', n, n) && s'.deq == s.deq && s'.ccs == s.ccs
    decreases n - k
  {
    s' := s;
    if k < n {
      s' := Enqueue(s, n, k);
      s' := Fill(s', n, k + 1);
    }
  }

  lemma Dequeue(s: State, n: nat, k: nat) returns (s': State)
    requires Idle(s, n, k) && 0 < k <= n && s.deq == n - k
    ensures Idle(s', n, k - 1) && s'.deq == s.deq + 1
  {
    ReachInv(s, n, true, n);
    SeesFresh(s);
    hide Inv, Reachable;
    var s1 := Peek(s);
    assert Step(s, s1, n);
    ReachStep(s, s1, n, true, n);
    s' := Take(s1);
    assert Step(s1, s', n);
    ReachStep(s1, s', n, true, n);
  }

  lemma {:induction false} Drain(s: State, n: nat, k: nat) returns (s': State)
    requires Idle(s, n, k) && k <= n && s.deq == n - k
    ensures Idle(s', n, 0) && s'.deq == n
    decreases k
  {
    s' := s;
    if k > 0 {
      s' := Dequeue(s, n, k);
      s' := Drain(s', n, k - 1);
    }
  }

  /** With as many entries outstanding as the ring holds, a linked ring can reach a state in which entries are
      outstanding and neither end can ever move: 63 commands submitted and taken, 63 more submitted before the consumer
      turns to the link entry. */
  lemma CanGetStuck(n: nat) returns (s: State)
    requires n > 0
    ensures Reachable(s, n, true, n) && Stuck(s) && |s.queue| == n
  {
    s := Init(n, true, 0);
    assert IsRun([s], n, true, n);
    assert [s][|[s]| - 1] == s;
    s := Fill(s, n, 0);
    s := Drain(s, n, n);
    s := Fill(s, n, 0);
  }
}
