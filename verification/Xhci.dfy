/** The driver's own two ends of the rings: ring_init and ring_enqueue as producer of a command ring, xhci_evt_try as
    consumer of the event ring. */
module Xhci {
  import opened TrbRing

  const RING_SIZE: nat := 64

  /** ring_init: all entries zero, the last one a link entry with cycle bit 0 pointing back to the ring. */
  method RingInit(ring: array<Slot>, base: nat)
    requires ring.Length > 0
    modifies ring
    ensures forall i :: 0 <= i < ring.Length - 1 ==> ring[i] == Slot(0, 0, 0)
    ensures ring[ring.Length - 1] == Slot(base, 0, LINK)
  {
    var i := 0;
    while i < ring.Length
      invariant 0 <= i <= ring.Length && forall j :: 0 <= j < i ==> ring[j] == Slot(0, 0, 0)
    {
      ring[i] := Slot(0, 0, 0);
      i := i + 1;
    }
    ring[ring.Length - 1] := Slot(base, 0, LINK);
  }

  /** Two stores and, at the end of a lap, the link entry: one submission as steps of the protocol. */
  function Submitted(s: State, param: nat, status: nat, ctrl: nat): State
    requires s.enq < |s.slots| && ctrl % 2 == 0
  {
    var t := Ctrl(Body(s, param, status), ctrl);
    if t.linked && t.enq == t.n then Relink(t) else t
  }

  lemma SubmittedInv(s: State, param: nat, status: nat, ctrl: nat)
    requires Inv(s) && !s.half && s.enq < s.n && |s.queue| < s.n && ctrl % 2 == 0
    ensures var s' := Submitted(s, param, status, ctrl);
      && Inv(s') && s'.enq < s.n && !s'.half && s'.n == s.n && s'.linked == s.linked
      && s'.sent == s.sent + [Slot(param, status, ctrl)] && s'.taken == s.taken
  {
    hide Entries, Ends;
    BodyKeeps(s, param, status);
    var t := Ctrl(Body(s, param, status), ctrl);
    CtrlKeeps(Body(s, param, status), ctrl);
    if t.linked && t.enq == t.n {
      RelinkKeeps(t);
    }
  }

  class CommandRing {
    const ring: array<Slot>
    var enq: nat
    var cs: bool
    ghost var s: State               // the protocol state this ring is in

    ghost predicate Valid()
      reads this, ring
    {
      && ring.Length == RING_SIZE && s.n == RING_SIZE - 1 && s.linked && Inv(s) && !s.half && enq < RING_SIZE - 1
      && s.slots == ring[..RING_SIZE - 1] && ring[RING_SIZE - 1].ctrl == s.link && s.enq == enq && s.pcs == cs
    }

    constructor (base: nat)
      ensures Valid() && fresh(ring) && s == Init(RING_SIZE - 1, true, base)
    {
      ring := new Slot[RING_SIZE](_ => Slot(0, 0, 0));
      enq, cs := 0, true;
      s := Init(RING_SIZE - 1, true, base);
      new;
      RingInit(ring, base);
      InitInv(RING_SIZE - 1, true, base);
    }

    /** ring_enqueue: the sanity check never fires, and one call is one submission of the protocol. The caller keeps at
        most 63 entries outstanding and leaves the cycle bit to the ring. */
    method Enqueue(param: nat, status: nat, ctrl: nat) returns (rc: int)
      requires Valid() && |s.queue| < RING_SIZE - 1 && ctrl % 2 == 0
      modifies this`enq, this`cs, this`s, ring
      ensures Valid() && rc == 0 && s == Submitted(old(s), param, status, ctrl)
      ensures s.sent == old(s.sent) + [Slot(param, status, ctrl)] && s.taken == old(s.taken)
    {
      hide Inv;
      if enq >= RING_SIZE - 1 { return -1; }
      ghost var s0 := s;
      SubmittedInv(s, param, status, ctrl);
      ring[enq] := Slot(param, status, ring[enq].ctrl);
      ring[enq] := Slot(ring[enq].param, ring[enq].status, Word(ctrl, cs));
      s := Ctrl(Body(s, param, status), ctrl);
      enq := enq + 1;
      assert s.slots == ring[..RING_SIZE - 1];
      if enq == RING_SIZE - 1 {
        ring[enq] := ring[enq].(ctrl := Word(LINK, cs));
        s := Relink(s);
        assert s.slots == ring[..RING_SIZE - 1];
        enq := 0;
        cs := !cs;
      }
      rc := 0;
    }
  }

  /** The driver's end of the event ring, whose producer is the controller. */
  class EventRing {
    const ring: array<Slot>
    const base: nat
    var deq: nat
    var cs: bool
    var erdp: nat                    // the controller's dequeue-pointer register
    ghost var s: State

    /** ring_init on this ring too leaves a link word in its last slot, marked stale like the rest. */
    constructor (base: nat)
      requires base % 64 == 0
      ensures Valid() && fresh(ring) && this.base == base && erdp == base && s == Init(RING_SIZE, false, base)
    {
      ring := new Slot[RING_SIZE](_ => Slot(0, 0, 0));
      this.base, deq, cs, erdp := base, 0, true, base;
      s := Init(RING_SIZE, false, base);
      new;
      RingInit(ring, base);
      InitInv(RING_SIZE, false, base);
    }

    ghost predicate Valid()
      reads this, ring
    {
      && ring.Length == RING_SIZE && s.n == RING_SIZE && !s.linked && Inv(s) && !s.peeked
      && s.slots == ring[..] && s.deq == deq && s.ccs == cs
    }

    /** xhci_evt_try: an event is returned exactly when one is outstanding, and it is the oldest; the register then
        holds the address of the next entry, with the handler-busy bit set to clear it. */
    method TryTake() returns (found: bool, out: Slot)
      requires Valid()
      modifies this`deq, this`cs, this`erdp, this`s
      ensures if found then erdp == base + 16 * deq + 8 else erdp == old(erdp)
      ensures Valid() && found == (old(s.queue) != [])
      ensures found ==> Bare(out) == old(s.queue)[0] && s == Take(Peek(old(s))) && s.taken == old(s.taken) + [Bare(out)]
      ensures !found ==> s == old(s)
    {
      var ctrl := ring[deq].ctrl;
      out := Slot(0, 0, ctrl);
      SeesFresh(s);
      if (ctrl % 2 == 1) != cs { return false, out; }
      PeekKeeps(s);
      TakeKeeps(Peek(s));
      hide Inv;
      out := Slot(ring[deq].param, ring[deq].status, ctrl);
      s := Take(Peek(s));
      deq := deq + 1;
      if deq == RING_SIZE {
        deq := 0;
        cs := !cs;
      }
      erdp := base + 16 * deq + 8;
      found := true;
    }
  }
}
