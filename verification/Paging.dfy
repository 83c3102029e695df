/** Page tables as the hardware walks them: pages of 512 entries, four levels, 4 KiB leaves. */
module Paging {
  import opened Words
  import opened Products

  const ENTRIES: nat := 512
  const USER_BASE: nat := 0x4000_0000     // the private window is PDPT slot 1
  const USER_END: nat := 0x8000_0000
  const RW_U: nat := 7                    // present, writable, user

  /** Physical memory: page address to its 512 entries. */
  type Memory = map<nat, seq<nat>>

  predicate Present(e: nat) { e % 2 == 1 }

  predicate Writable(e: nat) { e / 2 % 2 == 1 }

  predicate User(e: nat) { e / 4 % 2 == 1 }

  /** The page an entry points to: its bits above the low twelve. */
  function Target(e: nat): nat { e / PAGE * PAGE }

  function Entry(mem: Memory, page: nat, idx: nat): nat {
    if page in mem && idx < |mem[page]| then mem[page][idx] else 0
  }

  function PdptIndex(va: nat): nat { va / 0x4000_0000 % ENTRIES }

  function PdIndex(va: nat): nat { va / 0x20_0000 % ENTRIES }

  function PtIndex(va: nat): nat { va / PAGE % ENTRIES }

  /** The leaf entry for `va` in the low 512 GiB, or 0 if some level is absent. */
  function Walk(mem: Memory, pml4: nat, va: nat): nat {
    var e0 := Entry(mem, pml4, 0);
    if !Present(e0) then 0 else
    var e1 := Entry(mem, Target(e0), PdptIndex(va));
    if !Present(e1) then 0 else
    var e2 := Entry(mem, Target(e1), PdIndex(va));
    if !Present(e2) then 0 else
    Entry(mem, Target(e2), PtIndex(va))
  }

  predicate InWindow(va: nat) { USER_BASE <= va < USER_END }

  predicate Aligned(a: nat) { a % PAGE == 0 }

  /** A page of the window is one slot of one page table. */
  lemma WindowIndex(va: nat, va': nat)
    requires InWindow(va) && InWindow(va')
    ensures PdptIndex(va) == PdptIndex(va') == 1 && PdIndex(va) < ENTRIES && PtIndex(va) < ENTRIES
    ensures Aligned(va) && Aligned(va') && PdIndex(va) == PdIndex(va') && PtIndex(va) == PtIndex(va') ==> va == va'
  {
  }

  /** The entry vmm_map_page writes: page bits of `pa`, low twelve bits of `flags`, and the present bit. */
  function Leaf(pa: nat, flags: nat): (e: nat)
    ensures Present(e) && Target(e) == Target(pa) && (Writable(e) <==> Writable(flags)) && (User(e) <==> User(flags))
  {
    LeafBits(pa / PAGE, flags);
    Target(pa) + LowBits(flags)
  }

  /** The low twelve bits of a leaf: those of `flags` with the present bit set. */
  function LowBits(flags: nat): nat {
    var low := flags % PAGE;
    if low % 2 == 1 then low else low + 1
  }

  lemma LowBitsKept(flags: nat)
    ensures LowBits(flags) < PAGE && LowBits(flags) % 2 == 1
    ensures LowBits(flags) / 2 % 2 == flags / 2 % 2 && LowBits(flags) / 4 % 2 == flags / 4 % 2
  {
    PageBits(flags / PAGE, flags % PAGE);
  }

  lemma LeafBits(k: nat, flags: nat)
    ensures var e := k * PAGE + LowBits(flags);
      Present(e) && Target(e) == k * PAGE && (Writable(e) <==> Writable(flags)) && (User(e) <==> User(flags))
  {
    var low := LowBits(flags);
    LowBitsKept(flags);
    PageBits(k, low);
  }

  /** Adding page bits leaves the low bits alone. */
  lemma PageBits(k: nat, low: nat)
    requires low < PAGE
    ensures Target(k * PAGE + low) == k * PAGE
    ensures (k * PAGE + low) % 2 == low % 2
    ensures (k * PAGE + low) / 2 % 2 == low / 2 % 2
    ensures (k * PAGE + low) / 4 % 2 == low / 4 % 2
  {
    RowIndex(k, low, PAGE);
    RowShift(2048 * k, low, 2);
    RowShift(1024 * k, low / 2, 2);
    RowShift(1024 * k, low, 4);
    RowShift(512 * k, low / 4, 2);
  }

  // ----- the shape of one address space

  /** The tables of an address space: PML4, PDPT, the page directory of the window (0 until first needed) and its page
      tables by directory slot. */
  datatype Tables = Tables(pml4: nat, pdpt: nat, pd: nat, pts: map<nat, nat>)

  ghost predicate IsTable(t: Tables, page: nat) {
    page == t.pml4 || page == t.pdpt || (t.pd != 0 && page == t.pd) || page in t.pts.Values
  }

  predicate TablePage(mem: Memory, page: nat) { page != 0 && Aligned(page) && page in mem && |mem[page]| == ENTRIES }

  /** The tables are distinct pages, linked present, writable and user; what is not linked is absent. */
  ghost predicate Linked(mem: Memory, t: Tables) {
    && TablePage(mem, t.pml4) && TablePage(mem, t.pdpt) && t.pml4 != t.pdpt && mem[t.pml4][0] == t.pdpt + RW_U
    && (forall i :: 2 <= i < ENTRIES && i != 3 ==> !Present(mem[t.pdpt][i]))
    && (if t.pd == 0 then t.pts == map[] && !Present(mem[t.pdpt][1])
        else TablePage(mem, t.pd) && t.pd != t.pml4 && t.pd != t.pdpt && mem[t.pdpt][1] == t.pd + RW_U)
    && (forall i :: i in t.pts ==> i < ENTRIES && PtOk(mem, t, i))
    && (t.pd != 0 ==> forall i :: 0 <= i < ENTRIES && i !in t.pts ==> !Present(mem[t.pd][i]))
    && (forall i, j :: i in t.pts && j in t.pts && i != j ==> t.pts[i] != t.pts[j])
  }

  ghost predicate PtOk(mem: Memory, t: Tables, i: nat)
    requires i in t.pts && i < ENTRIES
  {
    && TablePage(mem, t.pts[i]) && t.pts[i] != t.pml4 && t.pts[i] != t.pdpt && t.pts[i] != t.pd
    && TablePage(mem, t.pd) && mem[t.pd][i] == t.pts[i] + RW_U
  }

  lemma Points(page: nat)
    requires Aligned(page)
    ensures Present(page + RW_U) && Target(page + RW_U) == page && User(page + RW_U) && Writable(page + RW_U)
  {
    PageBits(page / PAGE, RW_U);
  }

  /** The walk through well-linked tables. */
  lemma WalkLinked(mem: Memory, t: Tables, va: nat)
    requires Linked(mem, t) && InWindow(va)
    ensures t.pd == 0 || PdIndex(va) !in t.pts ==> Walk(mem, t.pml4, va) == 0
    ensures t.pd != 0 && PdIndex(va) in t.pts ==>
      t.pts[PdIndex(va)] in mem && PtIndex(va) < |mem[t.pts[PdIndex(va)]]|
        && Walk(mem, t.pml4, va) == mem[t.pts[PdIndex(va)]][PtIndex(va)]
  {
    WindowIndex(va, va);
    Points(t.pdpt);
    if t.pd != 0 {
      Points(t.pd);
      if PdIndex(va) in t.pts {
        assert PtOk(mem, t, PdIndex(va));
        Points(t.pts[PdIndex(va)]);
      }
    }
  }

  // ----- the three ways a table changes

  function ZeroPage(): (z: seq<nat>)
    ensures |z| == ENTRIES && forall i :: 0 <= i < |z| ==> z[i] == 0
  {
    seq(ENTRIES, _ => 0)
  }

  /** One entry of one page rewritten. */
  function Poke(mem: Memory, page: nat, idx: nat, e: nat): (mem': Memory)
    requires page in mem && idx < |mem[page]|
  {
    var row: seq<nat> := mem[page][idx := e];
    mem[page := row]
  }

  /** Every page of the window translates as before, except that the page at `va` now has entry `e`. */
  ghost predicate PointUpdate(mem: Memory, mem': Memory, pml4: nat, va: nat, e: nat) {
    forall x :: InWindow(x) ==> Walk(mem', pml4, x) == if Target(x) == va then e else Walk(mem, pml4, x)
  }

  ghost predicate SameWalks(mem: Memory, mem': Memory, pml4: nat) {
    forall x :: InWindow(x) ==> Walk(mem', pml4, x) == Walk(mem, pml4, x)
  }

  /** Only tables of `t` may differ, and of the PDPT only the window's slot. */
  ghost predicate OnlyTables(mem: Memory, mem': Memory, t: Tables) {
    && (forall p :: p in mem ==> p in mem' && (!IsTable(t, p) ==> mem'[p] == mem[p]))
    && (forall i :: 0 <= i < ENTRIES && i != 1 ==> Entry(mem', t.pdpt, i) == Entry(mem, t.pdpt, i))
    && Entry(mem', t.pml4, 0) == Entry(mem, t.pml4, 0)
  }

  /** Memory that agrees on the tables translates the window alike: nothing outside an address space's own tables
      bears on what its process sees. */
  lemma TablesDecide(mem: Memory, mem': Memory, t: Tables)
    requires Linked(mem, t)
    requires forall p :: IsTable(t, p) ==> p in mem' && p in mem && mem'[p] == mem[p]
    ensures Linked(mem', t) && SameWalks(mem, mem', t.pml4)
  {
    hide Walk, Linked;
    assert Linked(mem', t) by { LinkedElsewhere(mem, mem', t); }
    forall x | InWindow(x)
      ensures Walk(mem', t.pml4, x) == Walk(mem, t.pml4, x)
    {
      WalkLinked(mem, t, x);
      WalkLinked(mem', t, x);
      if t.pd != 0 && PdIndex(x) in t.pts {
        assert IsTable(t, t.pts[PdIndex(x)]);
      }
    }
  }

  lemma LinkedElsewhere(mem: Memory, mem': Memory, t: Tables)
    requires Linked(mem, t)
    requires forall p :: IsTable(t, p) ==> p in mem' && p in mem && mem'[p] == mem[p]
    ensures Linked(mem', t)
  {
    assert IsTable(t, t.pml4) && IsTable(t, t.pdpt) && (t.pd != 0 ==> IsTable(t, t.pd));
    forall i | i in t.pts
      ensures i < ENTRIES && PtOk(mem', t, i)
    {
      assert PtOk(mem, t, i) && IsTable(t, t.pts[i]);
    }
  }

  /** A page directory is linked into the window's PDPT slot. */
  lemma LinkPd(mem: Memory, t: Tables, pd: nat)
    requires Linked(mem, t) && t.pd == 0
    requires TablePage(mem, pd) && mem[pd] == ZeroPage() && !IsTable(t, pd)
    ensures t.pdpt in mem && 1 < |mem[t.pdpt]|
    ensures var mem' := Poke(mem, t.pdpt, 1, pd + RW_U);
      Linked(mem', t.(pd := pd)) && SameWalks(mem, mem', t.pml4)
  {
    var mem', t' := Poke(mem, t.pdpt, 1, pd + RW_U), t.(pd := pd);
    assert Linked(mem', t');
    forall x | InWindow(x)
      ensures Walk(mem', t.pml4, x) == Walk(mem, t.pml4, x)
    {
      hide Walk, Linked;
      WalkLinked(mem, t, x);
      WalkLinked(mem', t', x);
    }
  }

  /** A page table is linked into directory slot `i`. */
  lemma LinkPt(mem: Memory, t: Tables, i: nat, pt: nat)
    requires Linked(mem, t) && t.pd != 0 && i < ENTRIES && i !in t.pts
    requires TablePage(mem, pt) && mem[pt] == ZeroPage() && !IsTable(t, pt)
    ensures t.pd in mem && i < |mem[t.pd]|
    ensures var mem' := Poke(mem, t.pd, i, pt + RW_U);
      Linked(mem', t.(pts := t.pts[i := pt])) && SameWalks(mem, mem', t.pml4)
  {
    var mem', t' := Poke(mem, t.pd, i, pt + RW_U), t.(pts := t.pts[i := pt]);
    LinkPtLinked(mem, t, i, pt);
    forall x | InWindow(x)
      ensures Walk(mem', t.pml4, x) == Walk(mem, t.pml4, x)
    {
      WindowIndex(x, x);
      LinkPtWalk(mem, t, i, pt, x);
    }
  }

  lemma LinkPtLinked(mem: Memory, t: Tables, i: nat, pt: nat)
    requires Linked(mem, t) && t.pd != 0 && i < ENTRIES && i !in t.pts
    requires TablePage(mem, pt) && mem[pt] == ZeroPage() && !IsTable(t, pt)
    ensures t.pd in mem && i < |mem[t.pd]|
    ensures Linked(Poke(mem, t.pd, i, pt + RW_U), t.(pts := t.pts[i := pt]))
  {
    var mem', t' := Poke(mem, t.pd, i, pt + RW_U), t.(pts := t.pts[i := pt]);
    forall j | j in t'.pts
      ensures j < ENTRIES && PtOk(mem', t', j)
    {
      if j != i {
        assert PtOk(mem, t, j);
      }
    }
    forall j, k | j in t'.pts && k in t'.pts && j != k
      ensures t'.pts[j] != t'.pts[k]
    {
      assert j != i ==> t.pts[j] in t.pts.Values;
      assert k != i ==> t.pts[k] in t.pts.Values;
    }
  }

  lemma LinkPtWalk(mem: Memory, t: Tables, i: nat, pt: nat, x: nat)
    requires Linked(mem, t) && t.pd != 0 && i < ENTRIES && i !in t.pts
    requires TablePage(mem, pt) && mem[pt] == ZeroPage() && !IsTable(t, pt)
    requires t.pd in mem && i < |mem[t.pd]|
    requires Linked(Poke(mem, t.pd, i, pt + RW_U), t.(pts := t.pts[i := pt])) && InWindow(x)
    ensures Walk(Poke(mem, t.pd, i, pt + RW_U), t.pml4, x) == Walk(mem, t.pml4, x)
  {
    hide Walk, Linked;
    var mem', t' := Poke(mem, t.pd, i, pt + RW_U), t.(pts := t.pts[i := pt]);
    WalkLinked(mem, t, x);
    WalkLinked(mem', t', x);
    if PdIndex(x) in t.pts {
      assert PdIndex(x) != i && t.pts[PdIndex(x)] != t.pd by { PtNotPd(mem, t, PdIndex(x)); }
    }
  }

  lemma PtNotPd(mem: Memory, t: Tables, i: nat)
    requires Linked(mem, t) && i in t.pts
    ensures t.pts[i] != t.pd
  {
    assert PtOk(mem, t, i);
  }

  /** The leaf for `va` is written. */
  lemma SetLeaf(mem: Memory, t: Tables, va: nat, e: nat)
    requires Linked(mem, t) && InWindow(va) && Aligned(va) && t.pd != 0 && PdIndex(va) in t.pts
    ensures var pt := t.pts[PdIndex(va)];
      pt in mem && PtIndex(va) < |mem[pt]|
      && var mem' := Poke(mem, pt, PtIndex(va), e); Linked(mem', t) && PointUpdate(mem, mem', t.pml4, va, e)
  {
    WindowIndex(va, va);
    SetLeafLinked(mem, t, va, e);
    forall x | InWindow(x)
      ensures Walk(Poke(mem, t.pts[PdIndex(va)], PtIndex(va), e), t.pml4, x)
           == if Target(x) == va then e else Walk(mem, t.pml4, x)
    {
      SetLeafWalk(mem, t, va, e, x);
    }
  }

  lemma SetLeafLinked(mem: Memory, t: Tables, va: nat, e: nat)
    requires Linked(mem, t) && InWindow(va) && t.pd != 0 && PdIndex(va) in t.pts
    ensures var pt := t.pts[PdIndex(va)];
            pt in mem && PtIndex(va) < |mem[pt]| && Linked(Poke(mem, pt, PtIndex(va), e), t)
  {
    var pt := t.pts[PdIndex(va)];
    assert PtOk(mem, t, PdIndex(va));
    WindowIndex(va, va);
    var mem' := Poke(mem, pt, PtIndex(va), e);
    forall j | j in t.pts
      ensures j < ENTRIES && PtOk(mem', t, j)
    {
      assert PtOk(mem, t, j);
    }
  }

  lemma SetLeafWalk(mem: Memory, t: Tables, va: nat, e: nat, x: nat)
    requires Linked(mem, t) && InWindow(va) && Aligned(va) && t.pd != 0 && PdIndex(va) in t.pts && InWindow(x)
    requires var pt := t.pts[PdIndex(va)];
             pt in mem && PtIndex(va) < |mem[pt]| && Linked(Poke(mem, pt, PtIndex(va), e), t)
    ensures Walk(Poke(mem, t.pts[PdIndex(va)], PtIndex(va), e), t.pml4, x)
         == if Target(x) == va then e else Walk(mem, t.pml4, x)
  {
    hide Walk, PdIndex, PtIndex, Target;
    SamePage(x, va);
    PtsDistinct(mem, t, PdIndex(x), PdIndex(va));
    hide Linked;
    WalkLinked(mem, t, x);
    WalkLinked(Poke(mem, t.pts[PdIndex(va)], PtIndex(va), e), t, x);
  }

  lemma PtsDistinct(mem: Memory, t: Tables, i: nat, j: nat)
    requires Linked(mem, t)
    ensures i in t.pts && j in t.pts && i != j ==> t.pts[i] != t.pts[j]
  {
  }

  /** `x` lies in the page at `va` exactly when it has the same table slot. */
  lemma SamePage(x: nat, va: nat)
    requires InWindow(x) && InWindow(va) && Aligned(va)
    ensures PdIndex(x) < ENTRIES && PtIndex(x) < ENTRIES
    ensures Target(x) == va <==> PdIndex(x) == PdIndex(va) && PtIndex(x) == PtIndex(va)
  {
    PageStart(x);
    WindowIndex(Target(x), va);
    WindowIndex(x, va);
  }

  /** The page of a window address lies in the window and has the address's indices. */
  lemma PageStart(x: nat)
    ensures Aligned(Target(x)) && Target(x) <= x < Target(x) + PAGE
    ensures PtIndex(Target(x)) == PtIndex(x) && PdIndex(Target(x)) == PdIndex(x)
    ensures InWindow(x) ==> InWindow(Target(x))
  {
    RowIndex(x / PAGE, 0, PAGE);
  }

  lemma NextAligned(page: nat, last: nat)
    requires Aligned(page) && Aligned(last)
    ensures Aligned(page + PAGE) && (page < last ==> page + PAGE <= last)
    ensures (page < USER_END ==> page + PAGE <= USER_END)
  {
  }

  lemma InPage(x: nat, page: nat)
    requires Aligned(page) && page <= x < page + PAGE
    ensures Target(x) == page
  {
    RowIndex(page / PAGE, x - page, PAGE);
  }

  /** Two pages that do not coincide lie a page apart. */
  lemma PageOrder(a: nat, b: nat)
    requires Aligned(a) && Aligned(b) && a < b
    ensures a + PAGE <= b
  {
  }

  lemma PagesOrdered(a: nat, b: nat)
    requires a <= b
    ensures Target(a) <= Target(b)
  {
  }
}
