/** A process's heap, as SYS_SBRK grows it (cpu/syscall.c). */
module Process {
  import opened Words
  import opened Paging
  import opened Products
  import opened Vmm
  import opened UserMemory
  import opened PageBytes

  /** Where the pages mapped for a break at `brk` end: page round-up relative to the heap's start. */
  function MappedEnd(start: nat, brk: nat): nat
    requires start <= brk
  {
    start + Target(brk - start + PAGE - 1)
  }

  lemma MappedEndBounds(start: nat, brk: nat)
    requires start <= brk && Aligned(start)
    ensures Aligned(MappedEnd(start, brk)) && brk <= MappedEnd(start, brk) < brk + PAGE
    ensures forall end: nat :: Aligned(end) && brk <= end ==> MappedEnd(start, brk) <= end
  {
    PageStart(brk - start + PAGE - 1);
    forall end: nat | Aligned(end) && brk <= end
      ensures MappedEnd(start, brk) <= end
    {
      if end < MappedEnd(start, brk) {
        PageOrder(end, MappedEnd(start, brk));
      }
    }
  }

  /** [start, page round-up of the break) is mapped readable, writable and user, and the break stays below the
      ceiling. */
  ghost predicate HeapOk(mem: Memory, pml4: nat, start: nat, brk: nat, end: nat) {
    && Aligned(start) && Aligned(end) && USER_BASE <= start <= brk && end <= USER_END && start <= USER_END
    && (brk == start || brk <= end)
    && AllRw(mem, pml4, start, MappedEnd(start, brk))
  }

  /** What the task structure records for the syscall. */
  class Task {
    const space: AddressSpace?
    var heapStart: nat
    var heapBrk: nat
    var heapEnd: nat

    constructor (space: AddressSpace?, start: nat, end: nat)
      ensures this.space == space && heapStart == heapBrk == start && heapEnd == end
    {
      this.space, heapStart, heapBrk, heapEnd := space, start, start, end;
    }

    ghost predicate Valid(m: Machine)
      reads this, space, m
    {
      space != null ==>
        && space.Valid(m) && Private(m.mem, space.owned, space.t)
        && (heapEnd != 0 ==> HeapOk(m.mem, space.pml4, heapStart, heapBrk, heapEnd))
    }

    /** SYS_SBRK. A grant is the old break; it moves the break by exactly the increment, the new memory is mapped and
        zeroed, and nothing below the old mapped end or at and above the ceiling is translated differently or reads
        differently. Failure leaves the break, and with a request in range it means that pages ran out. */
    method Sbrk(m: Machine, increment: int) returns (r: int)
      requires Valid(m) && increment < TWO64 / 2
      modifies this`heapBrk, space, m
      ensures Valid(m)
      ensures r == -1 || r == old(heapBrk)
      ensures r == -1 ==> heapBrk == old(heapBrk)
      ensures r != -1 ==> space != null && heapEnd != 0 && increment >= 0 && heapBrk == old(heapBrk) + increment
      ensures r != -1 && increment > 0 ==>
        && old(heapBrk) < heapBrk <= heapEnd && heapStart <= old(heapBrk)
        && Shows(m.mem, space.pml4, MappedEnd(heapStart, old(heapBrk)), MappedEnd(heapStart, heapBrk), Zeros)
      ensures r == -1 && space != null && heapEnd != 0 && 0 <= increment && old(heapBrk) + increment <= heapEnd ==>
        |space.owned| == MAX_PAGES || 0 in old(m.supply) || m.supply == []
      ensures space != null && heapEnd != 0 && heapStart <= old(heapBrk) ==>
        && space.pml4 == old(space.pml4)
        && SameOutside(old(m.mem), m.mem, space.pml4, MappedEnd(heapStart, old(heapBrk)), heapEnd)
        && BytesKept(old(m.mem), m.mem, space.pml4, MappedEnd(heapStart, old(heapBrk)), heapEnd)
      ensures space != null ==> Grown(old(m.mem), old(space.owned), old(space.t), m.mem, space.owned, space.t)
      ensures Drawn(old(m.mem), old(m.supply), m.mem, m.supply)
    {
      hide Linked, Walk, Grown, IsTable, Private, AllRw, Shows, BytesKept, SameOutside, RwKept, Aligned, Target,
        PagesOk, SupplyOk, Owns, TablesOwned, Drawn;
      DrawnNone(m.mem, m.supply);
      if space != null { NoGrowth(m.mem, space.owned, space.t); }
      if space == null || heapEnd == 0 { return -1; }
      SameAnywhere(m.mem, space.pml4, MappedEnd(heapStart, heapBrk), heapEnd);
      var oldBrk := heapBrk;
      if increment == 0 { return oldBrk; }
      if increment < 0 { return -1; }
      var newBrk := (oldBrk + increment) % TWO64;
      BreakSum(oldBrk, increment);
      if newBrk < oldBrk || newBrk > heapEnd { return -1; }
      MappedEndBounds(heapStart, oldBrk);
      MappedEndBounds(heapStart, newBrk);
      var lo, hi := MappedEnd(heapStart, oldBrk), MappedEnd(heapStart, newBrk);
      ghost var mem0 := m.mem;
      var ok := MapRun(m, space, lo, hi, 0, 0, []);
      HeapGrown(mem0, m.mem, space.pml4, heapStart, lo, hi, heapEnd, ok);
      if ok { NothingRead(m.mem, space.pml4, lo, hi); }
      if !ok { return -1; }
      heapBrk := newBrk;
      r := oldBrk;
    }

    /** Any run of SYS_SBRK calls: the grants follow one another without gap or overlap from the first break to the
        last and are zeroed, and what was mapped before, the argv page and the stack included, keeps its translation
        and its bytes throughout. */
    method SbrkRun(m: Machine, increments: seq<int>) returns (grants: seq<Grant>)
      requires Valid(m) && space != null && heapEnd != 0
      requires forall i :: 0 <= i < |increments| ==> increments[i] < TWO64 / 2
      modifies this`heapBrk, space, m
      ensures Valid(m) && Consecutive(grants, old(heapBrk), heapBrk)
      ensures heapStart <= old(heapBrk) && space.pml4 == old(space.pml4)
      ensures SameOutside(old(m.mem), m.mem, space.pml4, MappedEnd(heapStart, old(heapBrk)), heapEnd)
      ensures BytesKept(old(m.mem), m.mem, space.pml4, MappedEnd(heapStart, old(heapBrk)), heapEnd)
      ensures old(heapBrk) <= heapBrk
      ensures Shows(m.mem, space.pml4, MappedEnd(heapStart, old(heapBrk)), MappedEnd(heapStart, heapBrk), Zeros)
      ensures Grown(old(m.mem), old(space.owned), old(space.t), m.mem, space.owned, space.t)
      ensures Drawn(old(m.mem), old(m.supply), m.mem, m.supply)
    {
      hide Linked, Walk, Grown, IsTable, Private, AllRw, Shows, BytesKept, SameOutside, Target, Aligned,
        AddressSpace.Valid, Drawn;
      grants := [];
      DrawnNone(m.mem, m.supply);
      NoGrowth(m.mem, space.owned, space.t);
      ghost var supply0, owned0, t0 := m.supply, space.owned, space.t;
      SameAnywhere(m.mem, space.pml4, MappedEnd(heapStart, heapBrk), heapEnd);
      ghost var mem0, brk0 := m.mem, heapBrk;
      for i := 0 to |increments|
        invariant Valid(m) && Consecutive(grants, brk0, heapBrk) && brk0 <= heapBrk && heapStart <= brk0
        invariant space.pml4 == old(space.pml4)
        invariant SameOutside(mem0, m.mem, space.pml4, MappedEnd(heapStart, brk0), heapEnd)
        invariant BytesKept(mem0, m.mem, space.pml4, MappedEnd(heapStart, brk0), heapEnd)
        invariant Shows(m.mem, space.pml4, MappedEnd(heapStart, brk0), MappedEnd(heapStart, heapBrk), Zeros)
        invariant Grown(mem0, owned0, t0, m.mem, space.owned, space.t) && Drawn(mem0, supply0, m.mem, m.supply)
      {
        ghost var mem1, brk1, supply1, owned1, t1 := m.mem, heapBrk, m.supply, space.owned, space.t;
        var r := Sbrk(m, increments[i]);
        DrawnTwice(mem0, supply0, mem1, supply1, m.mem, m.supply);
        GrownTwice(mem0, owned0, t0, mem1, owned1, t1, m.mem, space.owned, space.t);
        SameOutsideTwice(mem0, mem1, m.mem, space.pml4, heapStart, brk0, brk1, heapEnd);
        MappedInWindow(mem1, space.pml4, heapStart, brk1, heapEnd);
        if r >= 0 && increments[i] > 0 {
          ShowsMore(mem1, m.mem, space.pml4, heapStart, brk0, brk1, heapBrk, heapEnd);
        } else {
          ShowsStill(mem1, m.mem, space.pml4, heapStart, brk0, brk1, heapEnd);
        }
        if r >= 0 && increments[i] > 0 {
          OneMoreGrant(grants, brk0, brk1, increments[i]);
          grants := grants + [Grant(r, increments[i])];
        }
      }
    }
  }

  datatype Grant = Grant(start: nat, size: nat)

  /** The grants tile [from, to) in order. */
  ghost predicate Consecutive(grants: seq<Grant>, from: nat, to: nat) {
    if grants == [] then from == to
    else grants[0].start == from && grants[0].size > 0 && Consecutive(grants[1..], from + grants[0].size, to)
  }

  lemma {:induction false} OneMoreGrant(grants: seq<Grant>, from: nat, to: nat, size: nat)
    requires Consecutive(grants, from, to) && size > 0
    ensures Consecutive(grants + [Grant(to, size)], from, to + size)
  {
    var more := grants + [Grant(to, size)];
    if grants == [] {
      assert more[1..] == [];
    } else {
      OneMoreGrant(grants[1..], from + grants[0].size, to, size);
      assert more[1..] == grants[1..] + [Grant(to, size)];
    }
  }

  /** Consecutive grants are pairwise disjoint and lie in [from, to). */
  lemma {:induction false} GrantsDisjoint(grants: seq<Grant>, from: nat, to: nat, i: nat, j: nat)
    requires Consecutive(grants, from, to) && i < j < |grants|
    ensures from <= grants[i].start < grants[i].start + grants[i].size <= grants[j].start < to
  {
    GrantWithin(grants[1..], from + grants[0].size, to, j - 1);
    if i > 0 {
      GrantsDisjoint(grants[1..], from + grants[0].size, to, i - 1, j - 1);
    }
  }

  lemma {:induction false} GrantWithin(grants: seq<Grant>, from: nat, to: nat, j: nat)
    requires Consecutive(grants, from, to) && j < |grants|
    ensures from <= grants[j].start < grants[j].start + grants[j].size <= to
  {
    ConsecutiveOrder(grants[1..], from + grants[0].size, to);
    if j > 0 {
      GrantWithin(grants[1..], from + grants[0].size, to, j - 1);
    }
  }

  lemma {:induction false} ConsecutiveOrder(grants: seq<Grant>, from: nat, to: nat)
    requires Consecutive(grants, from, to)
    ensures from <= to
  {
    if grants != [] {
      ConsecutiveOrder(grants[1..], from + grants[0].size, to);
    }
  }

  lemma SameOutsideTwice(mem: Memory, mem1: Memory, mem2: Memory, pml4: nat, start: nat, brk0: nat, brk1: nat, end: nat)
    requires start <= brk0 <= brk1
    requires SameOutside(mem, mem1, pml4, MappedEnd(start, brk0), end)
    requires SameOutside(mem1, mem2, pml4, MappedEnd(start, brk1), end)
    requires BytesKept(mem, mem1, pml4, MappedEnd(start, brk0), end)
    requires BytesKept(mem1, mem2, pml4, MappedEnd(start, brk1), end)
    ensures SameOutside(mem, mem2, pml4, MappedEnd(start, brk0), end)
    ensures BytesKept(mem, mem2, pml4, MappedEnd(start, brk0), end)
  {
    hide Walk, Target, ReadsAs;
    PagesOrdered(brk0 - start + PAGE - 1, brk1 - start + PAGE - 1);
  }

  lemma MappedInWindow(mem: Memory, pml4: nat, start: nat, brk: nat, end: nat)
    requires HeapOk(mem, pml4, start, brk, end)
    ensures USER_BASE <= start <= MappedEnd(start, brk) <= USER_END
  {
    MappedEndBounds(start, brk);
  }

  lemma ShowsStill(mem: Memory, mem': Memory, pml4: nat, start: nat, brk0: nat, brk: nat, end: nat)
    requires start <= brk0 <= brk && USER_BASE <= start && MappedEnd(start, brk) <= USER_END
    requires Shows(mem, pml4, MappedEnd(start, brk0), MappedEnd(start, brk), Zeros)
    requires BytesKept(mem, mem', pml4, MappedEnd(start, brk), end)
    ensures Shows(mem', pml4, MappedEnd(start, brk0), MappedEnd(start, brk), Zeros)
  {
    hide ReadsAs, Target;
  }

  lemma ShowsMore(mem: Memory, mem': Memory, pml4: nat, start: nat, brk0: nat, brk1: nat, brk: nat, end: nat)
    requires start <= brk0 <= brk1 <= brk && USER_BASE <= start && MappedEnd(start, brk1) <= USER_END
    requires Shows(mem, pml4, MappedEnd(start, brk0), MappedEnd(start, brk1), Zeros)
    requires BytesKept(mem, mem', pml4, MappedEnd(start, brk1), end)
    requires Shows(mem', pml4, MappedEnd(start, brk1), MappedEnd(start, brk), Zeros)
    ensures Shows(mem', pml4, MappedEnd(start, brk0), MappedEnd(start, brk), Zeros)
  {
    hide ReadsAs, Target;
  }

  /** With nothing to read a run of pages shows zeros. */
  lemma NothingRead(mem: Memory, pml4: nat, lo: nat, hi: nat)
    requires Shows(mem, pml4, lo, hi, Image(lo, 0, []))
    ensures Shows(mem, pml4, lo, hi, Zeros)
  {
    hide ReadsAs;
  }

  lemma BreakSum(brk: nat, increment: nat)
    requires brk <= USER_END && increment < TWO64 / 2
    ensures (brk + increment) % TWO64 == brk + increment
  {
  }

  lemma SameAnywhere(mem: Memory, pml4: nat, lo: nat, hi: nat)
    ensures SameOutside(mem, mem, pml4, lo, hi) && BytesKept(mem, mem, pml4, lo, hi)
    ensures Shows(mem, pml4, lo, lo, Zeros)
  {
  }

  lemma HeapGrown(mem: Memory, mem': Memory, pml4: nat, start: nat, lo: nat, hi: nat, end: nat, ok: bool)
    requires USER_BASE <= start <= lo <= hi <= end <= USER_END && AllRw(mem, pml4, start, lo)
    requires SameOutside(mem, mem', pml4, lo, hi) && RwKept(mem, mem', pml4) && (ok ==> AllRw(mem', pml4, lo, hi))
    requires BytesKept(mem, mem', pml4, lo, hi)
    ensures AllRw(mem', pml4, start, if ok then hi else lo) && SameOutside(mem, mem', pml4, lo, end)
    ensures BytesKept(mem, mem', pml4, lo, end)
  {
    hide Walk, Rw, ReadsAs;
  }
}
