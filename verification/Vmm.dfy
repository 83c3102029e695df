/** Per-process address spaces (cpu/vmm.c) over a page allocator. */
module Vmm {
  import opened Words
  import opened Paging

  const MAX_PAGES: nat := 512

  /** Pages are whole, aligned and not at address 0. */
  ghost predicate PagesOk(mem: Memory) { forall p :: p in mem ==> TablePage(mem, p) }

  /** What the allocator is going to return, 0 for a failure: pages that are aligned, not in use and not promised
      twice. */
  ghost predicate SupplyOk(mem: Memory, supply: seq<nat>) {
    && (forall i :: 0 <= i < |supply| && supply[i] != 0 ==> Aligned(supply[i]) && supply[i] !in mem)
    && (forall i, j :: 0 <= i < j < |supply| && supply[i] != 0 ==> supply[i] != supply[j])
  }

  function Next(supply: seq<nat>): nat { if supply == [] then 0 else supply[0] }

  function Rest(supply: seq<nat>): seq<nat> { if supply == [] then [] else supply[1..] }

  lemma TakeNext(mem: Memory, supply: seq<nat>, page: seq<nat>)
    requires PagesOk(mem) && SupplyOk(mem, supply) && Next(supply) != 0 && |page| == ENTRIES
    ensures Next(supply) !in mem && Aligned(Next(supply))
    ensures PagesOk(mem[Next(supply) := page]) && SupplyOk(mem[Next(supply) := page], Rest(supply))
  {
  }

  /** What is still to come from the allocator was to come before, and every page new in memory has come from it. */
  ghost predicate Drawn(mem: Memory, supply: seq<nat>, mem': Memory, supply': seq<nat>) {
    && (forall q :: q in supply' ==> q in supply)
    && (forall p :: p in mem' && p !in mem ==> p != 0 && p in supply)
  }

  lemma DrawnTwice(mem: Memory, supply: seq<nat>, mem1: Memory, supply1: seq<nat>, mem2: Memory, supply2: seq<nat>)
    requires Drawn(mem, supply, mem1, supply1) && Drawn(mem1, supply1, mem2, supply2)
    ensures Drawn(mem, supply, mem2, supply2) && forall q :: q in supply1 ==> q in supply
  {
  }

  lemma DrawnNone(mem: Memory, supply: seq<nat>)
    ensures Drawn(mem, supply, mem, supply)
  {
  }

  /** Rewriting or dropping pages draws none. */
  lemma DrawnKept(mem: Memory, supply: seq<nat>, mem1: Memory, mem2: Memory, supply1: seq<nat>)
    requires Drawn(mem, supply, mem1, supply1) && forall p :: p in mem2 ==> p in mem1
    ensures Drawn(mem, supply, mem2, supply1)
  {
  }

  /** Physical memory in use, and what kmalloc will hand out next. */
  class Machine {
    var mem: Memory
    var supply: seq<nat>
    const stale: seq<nat>            // what a freshly allocated page happens to hold

    constructor (mem: Memory, supply: seq<nat>, stale: seq<nat>)
      requires PagesOk(mem) && SupplyOk(mem, supply) && |stale| == ENTRIES
      ensures Valid() && this.mem == mem && this.supply == supply
    {
      this.mem, this.supply, this.stale := mem, supply, stale;
    }

    ghost predicate Valid()
      reads this
    {
      PagesOk(mem) && SupplyOk(mem, supply) && |stale| == ENTRIES
    }

    /** kmalloc(4096, 1, 0). */
    method KmallocPage() returns (p: nat)
      requires Valid()
      modifies this
      ensures Valid() && p == Next(old(supply)) && supply == Rest(old(supply))
      ensures p == 0 ==> mem == old(mem)
      ensures p != 0 ==> p !in old(mem) && Aligned(p) && p in mem && mem == old(mem)[p := mem[p]]
    {
      p := Next(supply);
      if p != 0 {
        TakeNext(mem, supply, stale);
        mem := mem[p := stale];
      }
      supply := Rest(supply);
    }
  }

  /** Table pages among the owned ones, owned pages distinct and in memory. */
  ghost predicate Owns(mem: Memory, owned: seq<nat>)
    ensures Owns(mem, owned) ==> |owned| <= MAX_PAGES
  {
    && |owned| <= MAX_PAGES
    && (forall i :: 0 <= i < |owned| ==> owned[i] in mem)
    && (forall i, j :: 0 <= i < j < |owned| ==> owned[i] != owned[j])
  }

  ghost predicate TablesOwned(owned: seq<nat>, t: Tables) { forall p :: IsTable(t, p) ==> p in owned }

  lemma OwnsOneMore(mem: Memory, owned: seq<nat>, p: nat, page: seq<nat>)
    requires Owns(mem, owned) && |owned| < MAX_PAGES && p !in mem
    ensures Owns(mem[p := page], owned + [p])
  {
  }

  lemma OwnsKept(mem: Memory, mem': Memory, owned: seq<nat>)
    requires Owns(mem, owned) && forall p :: p in mem ==> p in mem'
    ensures Owns(mem', owned)
  {
  }

  lemma PokeKeeps(mem: Memory, page: nat, idx: nat, e: nat)
    requires PagesOk(mem) && page in mem && idx < |mem[page]|
    ensures PagesOk(Poke(mem, page, idx, e)) && Poke(mem, page, idx, e).Keys == mem.Keys
  {
  }

  lemma SupplySameKeys(mem: Memory, mem': Memory, supply: seq<nat>)
    requires SupplyOk(mem, supply) && mem'.Keys == mem.Keys
    ensures SupplyOk(mem', supply)
  {
    assert forall p :: p in mem' <==> p in mem'.Keys;
  }

  /** Table pages an allocation of `va` still has to build. */
  ghost function Needed(t: Tables, va: nat): nat {
    (if t.pd == 0 then 1 else 0) + (if PdIndex(va) in t.pts then 0 else 1)
  }

  /** The next `n` page allocations of an address space owning `owned` pages succeed. */
  ghost predicate CanTake(supply: seq<nat>, owned: seq<nat>, n: nat) {
    && |owned| + n <= MAX_PAGES && n <= |supply|
    && forall i :: 0 <= i < n ==> supply[i] != 0
  }

  /** What may differ after an address space grew tables: its own tables, and pages that were not in use. */
  ghost predicate Grown(mem: Memory, owned: seq<nat>, t: Tables, mem': Memory, owned': seq<nat>, t': Tables) {
    && OnlyTables(mem, mem', t) && owned <= owned' && t'.pml4 == t.pml4 && t'.pdpt == t.pdpt
    && (forall p :: p in mem' && p !in mem ==> p in owned')
    && (forall p :: p in owned' ==> p in owned || p !in mem)
    && (forall p :: IsTable(t', p) ==> IsTable(t, p) || p !in mem)
    && (forall p :: IsTable(t, p) ==> IsTable(t', p))
  }

  lemma GrownTwice(mem: Memory, owned: seq<nat>, t: Tables, mem1: Memory, owned1: seq<nat>, t1: Tables,
                   mem2: Memory, owned2: seq<nat>, t2: Tables)
    requires Grown(mem, owned, t, mem1, owned1, t1) && Grown(mem1, owned1, t1, mem2, owned2, t2)
    ensures Grown(mem, owned, t, mem2, owned2, t2)
  {
    hide IsTable;
    forall p | p in mem && !IsTable(t, p)
      ensures p in mem2 && mem2[p] == mem[p]
    {
      assert !IsTable(t1, p);
    }
    forall p | p in mem2 && p !in mem
      ensures p in owned2
    {
      assert p in mem1 ==> p in owned1;
    }
  }

  lemma SameWalksTwice(mem: Memory, mem1: Memory, mem2: Memory, pml4: nat)
    requires SameWalks(mem, mem1, pml4) && SameWalks(mem1, mem2, pml4)
    ensures SameWalks(mem, mem2, pml4)
  {
    hide Walk;
  }

  /** A page allocated and not yet linked anywhere. */
  lemma GrownPage(mem: Memory, owned: seq<nat>, t: Tables, p: nat)
    requires PagesOk(mem) && p !in mem && Linked(mem, t)
    ensures Grown(mem, owned, t, mem[p := ZeroPage()], owned + [p], t)
    ensures !IsTable(t, p) && Linked(mem[p := ZeroPage()], t) && SameWalks(mem, mem[p := ZeroPage()], t.pml4)
  {
    hide Walk, SameWalks;
    forall q | IsTable(t, q)
      ensures q in mem
    {
      if q in t.pts.Values {
        var i :| i in t.pts && t.pts[i] == q;
        assert PtOk(mem, t, i);
      }
    }
    hide Linked;
    TablesDecide(mem, mem[p := ZeroPage()], t);
  }

  /** The new page linked as page directory. */
  lemma GrownPd(mem: Memory, owned: seq<nat>, t: Tables, pd: nat)
    requires PagesOk(mem) && Linked(mem, t) && t.pd == 0
    requires pd in mem && mem[pd] == ZeroPage() && !IsTable(t, pd) && pd in owned && TablesOwned(owned, t)
    ensures t.pdpt in mem && 1 < |mem[t.pdpt]|
    ensures var mem', t' := Poke(mem, t.pdpt, 1, pd + RW_U), t.(pd := pd);
      && Linked(mem', t') && SameWalks(mem, mem', t.pml4) && TablesOwned(owned, t')
      && (forall p :: IsTable(t', p) <==> IsTable(t, p) || p == pd)
      && OnlyTables(mem, mem', t)
  {
    hide Walk, SameWalks;
    LinkPd(mem, t, pd);
  }

  lemma GrownPt(mem: Memory, owned: seq<nat>, t: Tables, i: nat, pt: nat)
    requires PagesOk(mem) && Linked(mem, t) && t.pd != 0 && i < ENTRIES && i !in t.pts
    requires pt in mem && mem[pt] == ZeroPage() && !IsTable(t, pt) && pt in owned && TablesOwned(owned, t)
    ensures t.pd in mem && i < |mem[t.pd]|
    ensures var mem', t' := Poke(mem, t.pd, i, pt + RW_U), t.(pts := t.pts[i := pt]);
      && Linked(mem', t') && SameWalks(mem, mem', t.pml4) && TablesOwned(owned, t')
      && (forall p :: IsTable(t', p) <==> IsTable(t, p) || p == pt)
      && OnlyTables(mem, mem', t)
  {
    hide Walk, SameWalks;
    LinkPt(mem, t, i, pt);
    var t' := t.(pts := t.pts[i := pt]);
    assert forall j :: j in t.pts ==> j in t'.pts && t'.pts[j] == t.pts[j];
    assert forall p :: p in t'.pts.Values <==> p in t.pts.Values || p == pt by {
      assert i in t'.pts;
      forall p | p in t.pts.Values ensures p in t'.pts.Values {
        var j :| j in t.pts && t.pts[j] == p;
        assert t'.pts[j] == p;
      }
    }
  }

  /** Allocation followed by linking, as one growth. */
  lemma GrownLinked(mem: Memory, owned: seq<nat>, t: Tables, p: nat, mem': Memory, t': Tables)
    requires p !in mem && Grown(mem, owned, t, mem[p := ZeroPage()], owned + [p], t)
    requires OnlyTables(mem[p := ZeroPage()], mem', t) && mem'.Keys == mem[p := ZeroPage()].Keys
    requires t'.pml4 == t.pml4 && t'.pdpt == t.pdpt && forall q :: IsTable(t', q) <==> IsTable(t, q) || q == p
    ensures Grown(mem, owned, t, mem', owned + [p], t')
  {
    hide IsTable;
    assert forall q :: q in mem' <==> q in mem'.Keys;
  }

  lemma LeafGrown(mem: Memory, owned: seq<nat>, t: Tables, va: nat, e: nat)
    requires PagesOk(mem) && Linked(mem, t) && InWindow(va) && Aligned(va) && t.pd != 0 && PdIndex(va) in t.pts
    ensures var pt := t.pts[PdIndex(va)];
      pt in mem && PtIndex(va) < |mem[pt]|
      && var mem' := Poke(mem, pt, PtIndex(va), e);
         && Linked(mem', t) && PointUpdate(mem, mem', t.pml4, va, e) && Grown(mem, owned, t, mem', owned, t)
  {
    hide Walk, PointUpdate;
    SetLeaf(mem, t, va, e);
    assert PtOk(mem, t, PdIndex(va));
  }

  class AddressSpace {
    var pml4: nat
    var owned: seq<nat>              // owned_pages[0..owned_count)
    ghost var t: Tables

    ghost predicate Valid(m: Machine)
      reads this, m
    {
      && m.Valid() && Owns(m.mem, owned) && TablesOwned(owned, t)
      && t.pml4 == pml4 && Linked(m.mem, t)
    }

    /** memset(as, 0, sizeof *as) */
    constructor ()
      ensures owned == [] && pml4 == 0
    {
      pml4, owned := 0, [];
      t := Tables(0, 0, 0, map[]);
    }

    /** vmm_alloc_page: a zeroed page nobody else holds, recorded as owned. */
    method AllocPage(m: Machine) returns (p: nat)
      requires m.Valid() && Owns(m.mem, owned)
      modifies this`owned, m
      ensures m.Valid() && Owns(m.mem, owned)
      ensures p == if |old(owned)| < MAX_PAGES then Next(old(m.supply)) else 0
      ensures m.supply == if |old(owned)| < MAX_PAGES then Rest(old(m.supply)) else old(m.supply)
      ensures Drawn(old(m.mem), old(m.supply), m.mem, m.supply)
      ensures p == 0 ==> m.mem == old(m.mem) && owned == old(owned)
      ensures p != 0 ==>
        p !in old(m.mem) && Aligned(p) && m.mem == old(m.mem)[p := ZeroPage()] && owned == old(owned) + [p]
    {
      hide PagesOk, SupplyOk, Owns;
      if |owned| >= MAX_PAGES { return 0; }
      ghost var mem := m.mem;
      p := m.KmallocPage();
      if p == 0 { return; }
      Rezero(m.mem, m.supply, p);
      OwnsOneMore(mem, owned, p, ZeroPage());
      m.mem := m.mem[p := ZeroPage()];
      assert m.mem == mem[p := ZeroPage()];
      owned := owned + [p];
    }

    /** The window's page directory, allocated on first use. */
    method EnsurePd(m: Machine) returns (ok: bool)
      requires Valid(m)
      modifies this`owned, this`t, m
      ensures Valid(m) && ok == (old(t.pd) != 0 || CanTake(old(m.supply), old(owned), 1))
      ensures ok ==> t.pd != 0
      ensures old(t.pd) != 0 ==> m.mem == old(m.mem) && owned == old(owned) && t == old(t) && m.supply == old(m.supply)
      ensures old(t.pd) == 0 && ok ==> |owned| == |old(owned)| + 1 && m.supply == old(m.supply)[1..]
      ensures t.pts == old(t.pts)
      ensures !ok ==> |owned| == MAX_PAGES || 0 in old(m.supply) || m.supply == []
      ensures Drawn(old(m.mem), old(m.supply), m.mem, m.supply)
      ensures SameWalks(old(m.mem), m.mem, pml4) && Grown(old(m.mem), old(owned), old(t), m.mem, owned, t)
    {
      hide PagesOk, SupplyOk, Owns, Linked, Walk, SameWalks, Grown, OnlyTables, TablesOwned;
      NoGrowth(m.mem, owned, t);
      EntryPd(m.mem, t);
      var pdpt := Target(m.mem[pml4][0]);
      if Present(m.mem[pdpt][1]) { return true; }
      ghost var mem0, owned0 := m.mem, owned;
      var pd := AllocPage(m);
      if pd == 0 { return false; }
      GrownPage(mem0, owned0, t, pd);
      OwnedMore(owned0, t, pd);
      GrownPd(m.mem, owned, t, pd);
      ghost var mem1 := m.mem;
      PokeKeeps(m.mem, pdpt, 1, pd + RW_U);
      m.mem := Poke(m.mem, pdpt, 1, pd + RW_U);
      SupplySameKeys(mem1, m.mem, m.supply);
      OwnsSameKeys(mem1, m.mem, owned);
      GrownLinked(mem0, owned0, t, pd, m.mem, t.(pd := pd));
      SameWalksTwice(mem0, mem1, m.mem, pml4);
      t := t.(pd := pd);
      ok := true;
    }

    /** The page table behind directory slot `i`, allocated on first use. */
    method EnsurePt(m: Machine, i: nat) returns (ok: bool)
      requires Valid(m) && t.pd != 0 && i < ENTRIES
      modifies this`owned, this`t, m
      ensures Valid(m) && ok == (i in old(t.pts) || CanTake(old(m.supply), old(owned), 1))
      ensures ok ==> i in t.pts && t.pd != 0
      ensures i in old(t.pts) ==> m.mem == old(m.mem) && owned == old(owned) && t == old(t) && m.supply == old(m.supply)
      ensures !ok ==> |owned| == MAX_PAGES || 0 in old(m.supply) || m.supply == []
      ensures Drawn(old(m.mem), old(m.supply), m.mem, m.supply)
      ensures SameWalks(old(m.mem), m.mem, pml4) && Grown(old(m.mem), old(owned), old(t), m.mem, owned, t)
    {
      hide PagesOk, SupplyOk, Owns, Linked, Walk, SameWalks, Grown, OnlyTables, TablesOwned;
      NoGrowth(m.mem, owned, t);
      EntryPd(m.mem, t);
      EntryPt(m.mem, t, i);
      var pd := Target(m.mem[Target(m.mem[pml4][0])][1]);
      if Present(m.mem[pd][i]) { return true; }
      ghost var mem0, owned0 := m.mem, owned;
      var pt := AllocPage(m);
      if pt == 0 { return false; }
      GrownPage(mem0, owned0, t, pt);
      OwnedMore(owned0, t, pt);
      GrownPt(m.mem, owned, t, i, pt);
      ghost var mem1 := m.mem;
      PokeKeeps(m.mem, pd, i, pt + RW_U);
      m.mem := Poke(m.mem, pd, i, pt + RW_U);
      SupplySameKeys(mem1, m.mem, m.supply);
      OwnsSameKeys(mem1, m.mem, owned);
      GrownLinked(mem0, owned0, t, pt, m.mem, t.(pts := t.pts[i := pt]));
      SameWalksTwice(mem0, mem1, m.mem, pml4);
      t := t.(pts := t.pts[i := pt]);
      ok := true;
    }

    /** vmm_map_page: on success a point update of the translation, on failure none; success exactly when the address
        is a window page and the missing tables can be allocated. Nothing is written but this address space's own
        tables and pages that were not in use. */
    method MapPage(m: Machine, va: nat, pa: nat, flags: nat) returns (rc: int)
      requires Valid(m)
      modifies this`owned, this`t, m
      ensures Valid(m)
      ensures rc == if InWindow(va) && Aligned(va) && CanTake(old(m.supply), old(owned), old(Needed(t, va))) then 0
        else -1
      ensures rc == 0 ==> PointUpdate(old(m.mem), m.mem, pml4, va, Leaf(pa, flags))
      ensures rc != 0 ==> SameWalks(old(m.mem), m.mem, pml4)
      ensures rc != 0 && InWindow(va) && Aligned(va) ==> |owned| == MAX_PAGES || 0 in old(m.supply) || m.supply == []
      ensures Drawn(old(m.mem), old(m.supply), m.mem, m.supply)
      ensures Grown(old(m.mem), old(owned), old(t), m.mem, owned, t)
    {
      hide PagesOk, SupplyOk, Owns, Linked, Walk, SameWalks, Grown, OnlyTables, TablesOwned, PointUpdate, Leaf, IsTable;
      hide PdIndex, PtIndex;
      NoGrowth(m.mem, owned, t);
      if va < USER_BASE || va >= USER_END || va % PAGE != 0 { return -1; }
      SamePage(va, va);
      ghost var mem0, owned0, t0, supply0 := m.mem, owned, t, m.supply;
      var ok := EnsurePd(m);
      if !ok { return -1; }
      ghost var mem1, owned1, t1, supply1 := m.mem, owned, t, m.supply;
      ok := EnsurePt(m, PdIndex(va));
      GrownTwice(mem0, owned0, t0, mem1, owned1, t1, m.mem, owned, t);
      SameWalksTwice(mem0, mem1, m.mem, pml4);
      TakesAdd(supply0, owned0, supply1, owned1);
      if !ok { return -1; }
      EntryPd(m.mem, t);
      EntryPt(m.mem, t, PdIndex(va));
      var pd := Target(m.mem[Target(m.mem[pml4][0])][1]);
      var pt := Target(m.mem[pd][PdIndex(va)]);
      LeafGrown(m.mem, owned, t, va, Leaf(pa, flags));
      PokeKeeps(m.mem, pt, PtIndex(va), Leaf(pa, flags));
      ghost var mem2 := m.mem;
      m.mem := Poke(m.mem, pt, PtIndex(va), Leaf(pa, flags));
      SupplySameKeys(mem2, m.mem, m.supply);
      OwnsSameKeys(mem2, m.mem, owned);
      GrownTwice(mem0, owned0, t0, mem2, owned, t, m.mem, owned, t);
      WalksThenPoint(mem0, mem2, m.mem, pml4, va, Leaf(pa, flags));
      rc := 0;
    }

    /** vmm_destroy_address_space: exactly the owned pages are released. */
    method Destroy(m: Machine)
      requires m.Valid() && Owns(m.mem, owned)
      modifies this`owned, m`mem
      ensures m.Valid() && owned == []
      ensures m.mem == old(m.mem) - Set(old(owned))
    {
      var i := 0;
      while i < |owned|
        invariant 0 <= i <= |owned| && m.Valid() && owned == old(owned)
        invariant m.mem == old(m.mem) - Set(owned[..i])
      {
        SetGrows(owned, i);
        m.mem := m.mem - {owned[i]};
        i := i + 1;
      }
      assert owned[..i] == owned;
      owned := [];
    }

    /** The first two pages become the PML4 and a PDPT that shares the master's kernel and MMIO slots. */
    method Install(m: Machine, root: nat, pdpt: nat, ghost mem0: Memory)
      requires m.Valid() && Owns(m.mem, owned) && owned == [root, pdpt] && MASTER_PDPT in mem0
      requires root !in mem0 && pdpt !in mem0 && root != pdpt && m.mem == mem0[root := ZeroPage()][pdpt := ZeroPage()]
      modifies this`pml4, this`t, m`mem
      ensures Valid(m) && pml4 == root && MASTER_PDPT in m.mem && WindowEmpty(m.mem, pml4)
      ensures NewOnly(mem0, m.mem, owned) && forall p :: p in m.mem ==> p in old(m.mem)
      ensures Entry(m.mem, t.pdpt, 0) == Entry(m.mem, MASTER_PDPT, 0)
      ensures Entry(m.mem, t.pdpt, 3) == Entry(m.mem, MASTER_PDPT, 3)
    {
      hide PagesOk, SupplyOk, Owns, Walk, WindowEmpty, Linked, TablesOwned, Aligned, NewOnly;
      ghost var mem2 := m.mem;
      Built(mem0, mem2, root, pdpt);
      m.mem := Poke(m.mem, root, 0, pdpt + RW_U);
      m.mem := Poke(m.mem, pdpt, 0, m.mem[MASTER_PDPT][0]);
      m.mem := Poke(m.mem, pdpt, 3, m.mem[MASTER_PDPT][3]);
      assert m.mem == Blank(mem2, root, pdpt);
      SupplySameKeys(mem2, m.mem, m.supply);
      OwnsSameKeys(mem2, m.mem, owned);
      pml4 := root;
      t := Tables(root, pdpt, 0, map[]);
      NewSpace(m.mem, t, owned);
      OnlyTwo(mem0, mem2, m.mem, root, pdpt);
      assert forall p :: p in m.mem <==> p in m.mem.Keys;
    }

    /** vmm_create_address_space, `structOk` being whether the kmalloc of the record itself succeeds: a new address
        space whose window is empty and whose kernel and MMIO slots are the master's; or, when a page is missing, null
        and memory as it was. */
    static method Create(m: Machine, structOk: bool) returns (a: AddressSpace?)
      requires m.Valid() && MASTER_PDPT in m.mem
      modifies m
      ensures m.Valid() && (a != null) == (structOk && CanTake(old(m.supply), [], 2))
      ensures Drawn(old(m.mem), old(m.supply), m.mem, m.supply)
      ensures a == null ==> m.mem == old(m.mem)
      ensures a != null ==> fresh(a) && a.Valid(m) && MASTER_PDPT in m.mem && |a.owned| == 2
      ensures a != null ==> WindowEmpty(m.mem, a.pml4)
      ensures a != null ==> NewOnly(old(m.mem), m.mem, a.owned)
      ensures a != null ==> Entry(m.mem, a.t.pdpt, 0) == Entry(m.mem, MASTER_PDPT, 0)
      ensures a != null ==> Entry(m.mem, a.t.pdpt, 3) == Entry(m.mem, MASTER_PDPT, 3)
    {
      hide PagesOk, SupplyOk, Owns, Walk, WindowEmpty, Linked, TablesOwned, CanTake, Aligned, NewOnly, Set, Drawn;
      DrawnNone(m.mem, m.supply);
      if !structOk { return null; }
      var space := new AddressSpace();
      OwnsNone(m.mem);
      ghost var mem0, supply0 := m.mem, m.supply;
      var pml4 := space.AllocPage(m);
      ghost var mem1, supply1 := m.mem, m.supply;
      var pdpt := space.AllocPage(m);
      TwoTakes(supply0, supply1, pml4, pdpt);
      DrawnTwice(mem0, supply0, mem1, supply1, m.mem, m.supply);
      if pml4 == 0 || pdpt == 0 {
        NewAtMostOne(mem0, m.mem, space.owned);
        DrawnKept(mem0, supply0, m.mem, mem0, m.supply);
        RemoveNew(mem0, m.mem, space.owned);
        space.Destroy(m);
        return null;
      }
      ghost var mem2 := m.mem;
      space.Install(m, pml4, pdpt, mem0);
      DrawnKept(mem0, supply0, mem2, m.mem, m.supply);
      a := space;
    }
  }

  const MASTER_PDPT: nat := 0x2000

  ghost predicate WindowEmpty(mem: Memory, pml4: nat) { forall x :: InWindow(x) ==> Walk(mem, pml4, x) == 0 }

  function Set(s: seq<nat>): set<nat> { set x | x in s }

  lemma SetGrows(s: seq<nat>, i: nat)
    requires i < |s|
    ensures Set(s[..i + 1]) == Set(s[..i]) + {s[i]}
  {
  }

  lemma OwnsNone(mem: Memory)
    ensures Owns(mem, [])
  {
  }

  lemma TwoTakes(supply: seq<nat>, supply1: seq<nat>, p: nat, q: nat)
    requires supply1 == Rest(supply) && p == Next(supply) && q == Next(supply1)
    ensures CanTake(supply, [], 2) <==> p != 0 && q != 0
  {
  }

  /** Against `mem`, exactly the owned pages are new; the others are as they were. */
  ghost predicate NewOnly(mem: Memory, mem': Memory, owned: seq<nat>) {
    && (forall p :: p in mem ==> p in mem' && mem'[p] == mem[p] && p !in owned)
    && (forall p :: p in mem' && p !in mem ==> p in owned)
  }

  /** Releasing everything that is new restores memory. */
  lemma RemoveNew(mem: Memory, mem': Memory, owned: seq<nat>)
    requires NewOnly(mem, mem', owned)
    ensures mem' - Set(owned) == mem && forall p :: p in mem ==> p in mem'
  {
  }

  lemma NewAtMostOne(mem: Memory, mem': Memory, owned: seq<nat>)
    requires (owned == [] && mem' == mem) || (|owned| == 1 && owned[0] !in mem && mem' == mem[owned[0] := ZeroPage()])
    ensures NewOnly(mem, mem', owned)
  {
  }

  lemma NewOnlyGrown(mem0: Memory, mem: Memory, owned: seq<nat>, t: Tables, mem': Memory, owned': seq<nat>, t': Tables)
    requires NewOnly(mem0, mem, owned) && TablesOwned(owned, t) && Grown(mem, owned, t, mem', owned', t')
    ensures NewOnly(mem0, mem', owned')
  {
    hide IsTable;
    forall p | p in mem0
      ensures p in mem' && mem'[p] == mem0[p] && p !in owned'
    {
      assert !IsTable(t, p);
    }
  }

  lemma OnlyTwo(mem0: Memory, mem: Memory, mem': Memory, pml4: nat, pdpt: nat)
    requires pml4 !in mem0 && pdpt !in mem0 && mem'.Keys == mem.Keys
    requires forall p :: p in mem <==> p in mem0 || p == pml4 || p == pdpt
    requires forall p :: p in mem0 ==> p in mem' && mem'[p] == mem0[p]
    ensures NewOnly(mem0, mem', [pml4, pdpt])
  {
    assert forall p :: p in mem' <==> p in mem'.Keys;
  }

  /** The first tables of an address space, over two zeroed pages. */
  ghost function Blank(mem: Memory, pml4: nat, pdpt: nat): Memory
    requires PagesOk(mem) && pml4 in mem && pdpt in mem && MASTER_PDPT in mem
  {
    var mem1 := Poke(mem, pml4, 0, pdpt + RW_U);
    var mem2 := Poke(mem1, pdpt, 0, mem1[MASTER_PDPT][0]);
    Poke(mem2, pdpt, 3, mem2[MASTER_PDPT][3])
  }

  lemma Built(mem0: Memory, mem: Memory, pml4: nat, pdpt: nat)
    requires PagesOk(mem) && pml4 in mem && pdpt in mem && pml4 != pdpt && MASTER_PDPT in mem0
    requires pml4 !in mem0 && pdpt !in mem0 && forall p :: p in mem0 ==> p in mem && mem[p] == mem0[p]
    requires mem[pml4] == ZeroPage() && mem[pdpt] == ZeroPage()
    ensures |mem[MASTER_PDPT]| == ENTRIES
    ensures PagesOk(Blank(mem, pml4, pdpt)) && Blank(mem, pml4, pdpt).Keys == mem.Keys
    ensures forall p :: p in mem0 ==> p in Blank(mem, pml4, pdpt) && Blank(mem, pml4, pdpt)[p] == mem0[p]
    ensures var z := Blank(mem, pml4, pdpt);
      && TablePage(z, pml4) && TablePage(z, pdpt) && z[pml4][0] == pdpt + RW_U
         && (forall i :: 1 <= i < ENTRIES && i != 3 ==> z[pdpt][i] == 0)
      && |z[MASTER_PDPT]| == ENTRIES && z[pdpt][0] == z[MASTER_PDPT][0] && z[pdpt][3] == z[MASTER_PDPT][3]
  {
    assert TablePage(mem, MASTER_PDPT) && TablePage(mem, pml4) && TablePage(mem, pdpt);
  }

  lemma NewSpace(mem: Memory, t: Tables, owned: seq<nat>)
    requires TablePage(mem, t.pml4) && TablePage(mem, t.pdpt) && t.pml4 != t.pdpt && t.pd == 0 && t.pts == map[]
    requires mem[t.pml4][0] == t.pdpt + RW_U && forall i :: 1 <= i < ENTRIES && i != 3 ==> mem[t.pdpt][i] == 0
    requires owned == [t.pml4, t.pdpt]
    ensures Linked(mem, t) && TablesOwned(owned, t) && WindowEmpty(mem, t.pml4)
  {
    forall x | InWindow(x)
      ensures Walk(mem, t.pml4, x) == 0
    {
      WalkLinked(mem, t, x);
    }
  }

  /** Another process's address space, owning other pages, is untouched by any growth of this one. */
  lemma OthersKept(mem: Memory, owned: seq<nat>, t: Tables, mem': Memory, owned': seq<nat>, t': Tables,
                   other: seq<nat>, tOther: Tables)
    requires Grown(mem, owned, t, mem', owned', t') && TablesOwned(owned, t)
    requires Owns(mem, other) && TablesOwned(other, tOther) && Linked(mem, tOther)
    requires forall p :: p in other ==> p !in owned
    ensures Owns(mem', other) && Linked(mem', tOther) && SameWalks(mem, mem', tOther.pml4)
    ensures forall p :: p in other ==> p in mem' && mem'[p] == mem[p]
  {
    hide Walk, SameWalks, Linked, IsTable;
    OwnsKept(mem, mem', other);
    assert forall p :: p in other ==> p in mem && !IsTable(t, p);
    TablesDecide(mem, mem', tOther);
  }

  lemma TakesAdd(supply: seq<nat>, owned: seq<nat>, supply1: seq<nat>, owned1: seq<nat>)
    ensures supply != [] && supply1 == supply[1..] && |owned1| == |owned| + 1 && CanTake(supply, owned, 1) ==>
      (CanTake(supply, owned, 2) <==> CanTake(supply1, owned1, 1))
  {
  }

  lemma WalksThenPoint(mem: Memory, mem1: Memory, mem2: Memory, pml4: nat, va: nat, e: nat)
    requires SameWalks(mem, mem1, pml4) && PointUpdate(mem1, mem2, pml4, va, e)
    ensures PointUpdate(mem, mem2, pml4, va, e)
  {
    hide Walk, Target;
  }

  lemma NoGrowth(mem: Memory, owned: seq<nat>, t: Tables)
    ensures Grown(mem, owned, t, mem, owned, t) && SameWalks(mem, mem, t.pml4)
  {
  }

  lemma OwnedMore(owned: seq<nat>, t: Tables, p: nat)
    requires TablesOwned(owned, t)
    ensures TablesOwned(owned + [p], t)
  {
  }

  lemma OwnsSameKeys(mem: Memory, mem': Memory, owned: seq<nat>)
    requires Owns(mem, owned) && mem'.Keys == mem.Keys
    ensures Owns(mem', owned)
  {
    assert forall p :: p in mem' <==> p in mem'.Keys;
  }

  /** What the code reads on its way down the tables. */
  lemma EntryPd(mem: Memory, t: Tables)
    requires Linked(mem, t)
    ensures t.pml4 in mem && |mem[t.pml4]| == ENTRIES && Target(mem[t.pml4][0]) == t.pdpt && Present(mem[t.pml4][0])
    ensures t.pdpt in mem && |mem[t.pdpt]| == ENTRIES && (Present(mem[t.pdpt][1]) <==> t.pd != 0)
    ensures forall i :: 2 <= i < ENTRIES && i != 3 ==> !Present(mem[t.pdpt][i])
    ensures t.pd != 0 ==> Target(mem[t.pdpt][1]) == t.pd
  {
    Points(t.pdpt);
    if t.pd != 0 {
      Points(t.pd);
    }
  }

  lemma EntryPt(mem: Memory, t: Tables, i: nat)
    requires Linked(mem, t) && t.pd != 0 && i < ENTRIES
    ensures t.pd in mem && |mem[t.pd]| == ENTRIES && (Present(mem[t.pd][i]) <==> i in t.pts)
    ensures i in t.pts ==> Target(mem[t.pd][i]) == t.pts[i] && t.pts[i] in mem && |mem[t.pts[i]]| == ENTRIES
  {
    if i in t.pts {
      assert PtOk(mem, t, i);
      Points(t.pts[i]);
    }
  }

  lemma Rezero(mem: Memory, supply: seq<nat>, p: nat)
    requires PagesOk(mem) && SupplyOk(mem, supply) && p in mem
    ensures PagesOk(mem[p := ZeroPage()]) && SupplyOk(mem[p := ZeroPage()], supply)
  {
    SupplySameKeys(mem, mem[p := ZeroPage()], supply);
  }
}
