/** Where the pages of address spaces come from: page-aligned allocations of the kernel heap, given back by kfree. */
module PageSupply {
  import opened Words
  import opened HeapRuns
  import opened Heap
  import opened Kmalloc
  import opened Paging
  import opened Vmm
  import opened Process
  import opened ElfExec

  const RECORD: nat := 4112          // sizeof(vmm_as_t)

  /** Every page in use is a live allocation of a whole page, or lies outside the heap's arena. */
  ghost predicate Backed(area: nat, users: map<nat, User>, mem: Memory) {
    forall p :: p in mem ==> (p in users && users[p].size == PAGE) || p < area || area + KHEAP_SIZE <= p
  }

  /** The pointers that are live now and were not before are exactly the pages of a supply that holds each once. */
  ghost predicate Handed(users0: map<nat, User>, users: map<nat, User>, supply: seq<nat>) {
    && (forall p :: p in users0 ==> p in users && users[p] == users0[p])
    && (forall p :: p in users && p !in users0 ==> p != 0 && p in supply)
    && (forall i :: 0 <= i < |supply| && supply[i] != 0 ==>
         Aligned(supply[i]) && supply[i] !in users0 && supply[i] in users && users[supply[i]].size == PAGE)
    && Once(supply)
  }

  ghost predicate Once(pages: seq<nat>) {
    forall i, j :: 0 <= i < j < |pages| && pages[i] != 0 ==> pages[i] != pages[j]
  }

  lemma HandNone(users: map<nat, User>)
    ensures Handed(users, users, [])
  {
  }

  lemma HandOne(users0: map<nat, User>, users: map<nat, User>, supply: seq<nat>, p: nat, u: User)
    requires Handed(users0, users, supply) && (p != 0 ==> p !in users && Aligned(p) && u.size == PAGE)
    ensures Handed(users0, if p == 0 then users else users[p := u], supply + [p])
  {
    assert forall q :: q in supply + [p] <==> q in supply || q == p;
  }

  // ----- what is borrowed from the heap

  /** The heap at one time: its bitmap and its live allocations. */
  datatype Ledger = Ledger(bm: seq<byte>, users: map<nat, User>)

  /** What has been allocated since lies in slots that were free, and all other slots are as they were. */
  ghost predicate Borrowed(before: Ledger, bm: seq<byte>, users: map<nat, User>) {
    && |bm| == |before.bm|
    && (forall p :: p in before.users ==> p in users && users[p] == before.users[p])
    && (forall p :: p in users && p !in before.users ==> FreeAt(before.bm, users[p].start, users[p].slots))
    && (forall i :: 0 <= i < |bm| && bm[i] != before.bm[i] ==> HeldAnew(before, users, i))
  }

  ghost predicate HeldAnew(before: Ledger, users: map<nat, User>, i: nat) {
    exists p :: p in users && p !in before.users && Holds(users[p], i)
  }

  lemma BorrowNone(bm: seq<byte>, users: map<nat, User>)
    ensures Borrowed(Ledger(bm, users), bm, users)
  {
  }

  /** What is free now was free before, or is held by a new allocation. */
  lemma FreeBefore(before: Ledger, bm: seq<byte>, users: map<nat, User>, a: nat, n: nat)
    requires Borrowed(before, bm, users) && FreeAt(bm, a, n)
    ensures FreeAt(before.bm, a, n)
  {
    forall i | a <= i < a + n
      ensures before.bm[i] == 0
    {
      assert bm[i] != before.bm[i] ==> HeldAnew(before, users, i);
    }
  }

  lemma HeldStill(before: Ledger, users: map<nat, User>, users': map<nat, User>, i: nat)
    requires HeldAnew(before, users, i)
    requires forall p :: p in users && Holds(users[p], i) ==> p in users' && users'[p] == users[p]
    ensures HeldAnew(before, users', i)
  {
    var q :| q in users && q !in before.users && Holds(users[q], i);
    assert q in users' && Holds(users'[q], i);
  }

  lemma BorrowOne(before: Ledger, bm: seq<byte>, users: map<nat, User>, bm': seq<byte>, p: nat, u: User)
    requires Borrowed(before, bm, users) && OneMoreRun(bm, bm', u.start, u.slots) && p !in users
    ensures Borrowed(before, bm', users[p := u])
  {
    var users' := users[p := u];
    FreeBefore(before, bm, users, u.start, u.slots);
    hide HeldAnew, FreeAt;
    var id: byte :| Fresh(bm, u.start, u.slots, id) && bm' == Painted(bm, u.start, u.slots, id);
    forall i | 0 <= i < |bm| && bm'[i] != before.bm[i]
      ensures HeldAnew(before, users', i)
    {
      if Holds(u, i) {
        HeldByOne(before, users', p, i);
      } else {
        HeldStill(before, users, users', i);
      }
    }
  }

  lemma HeldByOne(before: Ledger, users: map<nat, User>, p: nat, i: nat)
    requires p in users && p !in before.users && Holds(users[p], i)
    ensures HeldAnew(before, users, i)
  {
  }

  /** Freeing one of the new allocations. */
  lemma BorrowReturned(before: Ledger, bm: seq<byte>, users: map<nat, User>, p: nat)
    requires Borrowed(before, bm, users) && p in users && p !in before.users
    ensures users[p].start + users[p].slots <= |bm|
    ensures Borrowed(before, Painted(bm, users[p].start, users[p].slots, 0), users - {p})
  {
    var u, users' := users[p], users - {p};
    var bm' := Painted(bm, u.start, u.slots, 0);
    forall i | 0 <= i < |bm| && bm'[i] != before.bm[i]
      ensures HeldAnew(before, users', i)
    {
      HeldStill(before, users, users', i);
    }
  }

  lemma BorrowTwice(before: Ledger, bm1: seq<byte>, users1: map<nat, User>, bm2: seq<byte>, users2: map<nat, User>)
    requires Borrowed(before, bm1, users1) && Borrowed(Ledger(bm1, users1), bm2, users2)
    ensures Borrowed(before, bm2, users2)
  {
    forall p | p in users2 && p !in before.users
      ensures FreeAt(before.bm, users2[p].start, users2[p].slots)
    {
      if p !in users1 {
        FreeBefore(before, bm1, users1, users2[p].start, users2[p].slots);
      }
    }
    forall i | 0 <= i < |bm2| && bm2[i] != before.bm[i]
      ensures HeldAnew(before, users2, i)
    {
      if bm2[i] != bm1[i] {
        var q :| q in users2 && q !in users1 && Holds(users2[q], i);
      } else {
        HeldStill(before, users1, users2, i);
      }
    }
  }

  /** With everything returned the bitmap is what it was, id for id. */
  lemma BorrowSettled(before: Ledger, bm: seq<byte>, users: map<nat, User>)
    requires Borrowed(before, bm, users) && users == before.users
    ensures bm == before.bm
  {
    forall i | 0 <= i < |bm|
      ensures bm[i] == before.bm[i]
    {
      assert !HeldAnew(before, users, i);
    }
  }

  // ----- taking pages

  lemma AlignedStart(raw: nat)
    ensures Aligned(UserStart(raw, true))
  {
  }

  /** `n` calls of kmalloc(4096, 1): page-aligned pages, none of them live before or handed out twice. */
  method TakePages(h: KernelHeap, n: nat) returns (supply: seq<nat>)
    requires h.Valid() && h.ready
    modifies h, h.heap.blocks, set b | b in h.heap.blocks :: b.bm
    ensures h.Valid() && h.ready && h.heap.blocks == old(h.heap.blocks)
    ensures |supply| == n && Handed(old(h.users), h.users, supply)
    ensures Borrowed(Ledger(old(h.Map()), old(h.users)), h.Map(), h.users)
  {
    hide UsersOk, IsRun, UserStart, Aligned, Handed, HasRoom, OneMoreRun, NextFree, FreeAt, CeilDiv, HeapRuns.Used,
      Borrowed;
    ghost var before := Ledger(h.Map(), h.users);
    supply := [];
    HandNone(h.users);
    BorrowNone(h.Map(), h.users);
    while |supply| < n
      invariant h.Valid() && h.ready && h.heap.blocks == old(h.heap.blocks)
      invariant |supply| <= n && Handed(before.users, h.users, supply) && Borrowed(before, h.Map(), h.users)
    {
      ghost var users, bm := h.users, h.Map();
      var p;
      ghost var x;
      p, x := h.Kmalloc(PAGE, true, 0);
      AlignedStart(SlotAddr(h.area, x));
      HandOne(before.users, users, supply, p, if p in h.users then h.users[p] else User(0, 0, PAGE));
      if p != 0 {
        BorrowOne(before, bm, users, h.Map(), p, h.users[p]);
      }
      supply := supply + [p];
    }
  }

  /** A live pointer lies inside the arena. */
  lemma UserInside(area: nat, bm: seq<byte>, header: map<nat, nat>, users: map<nat, User>, p: nat)
    requires UsersOk(area, bm, header, users) && p in users && |bm| == (KHEAP_SIZE - HEADER) / KHEAP_BSIZE
    ensures area <= p && p + users[p].size <= area + KHEAP_SIZE
  {
    RangesDisjoint(area, bm, header, users, p, p);
  }

  /** What the heap hands out is what an address space may assume of its supply: aligned, not in use, not twice. */
  lemma SupplyFromHeap(area: nat, bm: seq<byte>, header: map<nat, nat>, users0: map<nat, User>, users: map<nat, User>,
                       mem: Memory, supply: seq<nat>)
    requires UsersOk(area, bm, header, users) && |bm| == (KHEAP_SIZE - HEADER) / KHEAP_BSIZE
    requires Backed(area, users0, mem) && Handed(users0, users, supply)
    ensures SupplyOk(mem, supply)
    ensures Backed(area, users, mem)
  {
    hide UsersOk;
    forall i | 0 <= i < |supply| && supply[i] != 0 ensures supply[i] !in mem {
      UserInside(area, bm, header, users, supply[i]);
    }
  }

  /** Whatever an address space drew from such a supply is backed, and what it owns is live. */
  lemma DrawnBacked(area: nat, users0: map<nat, User>, users: map<nat, User>, mem: Memory, supply: seq<nat>,
                    mem': Memory, supply': seq<nat>, owned: seq<nat>)
    requires Backed(area, users, mem) && Handed(users0, users, supply) && Drawn(mem, supply, mem', supply')
    requires NewOnly(mem, mem', owned) && Owns(mem', owned)
    ensures Backed(area, users, mem')
    ensures forall p :: p in owned ==> p != 0 && p in supply && p in users && p !in users0
  {
  }

  /** The machine's next pages, taken from the heap. */
  method Restock(h: KernelHeap, m: Machine, n: nat)
    requires h.Valid() && h.ready && m.Valid() && Backed(h.area, h.users, m.mem)
    modifies h, h.heap.blocks, set b | b in h.heap.blocks :: b.bm
    modifies m`supply
    ensures h.Valid() && h.ready && h.heap.blocks == old(h.heap.blocks) && m.Valid() && |m.supply| == n
    ensures Backed(h.area, h.users, m.mem) && Handed(old(h.users), h.users, m.supply)
    ensures Borrowed(Ledger(old(h.Map()), old(h.users)), h.Map(), h.users)
  {
    hide UsersOk, IsRun, Aligned, Handed, Backed, SupplyOk, PagesOk, HeapRuns.Used, Borrowed;
    ghost var users0 := h.users;
    var supply := TakePages(h, n);
    SupplyFromHeap(h.area, h.Map(), h.header, users0, h.users, m.mem, supply);
    m.supply := supply;
  }

  // ----- giving them back

  /** The pages of a list that are neither failures nor kept. */
  ghost function Loose(pages: seq<nat>, kept: seq<nat>): set<nat> { set p | p in pages && p != 0 && p !in kept }

  /** kfree of each page of a list that is not kept. */
  method Return(h: KernelHeap, pages: seq<nat>, kept: seq<nat>, ghost before: Ledger)
    requires h.Valid() && h.ready && Once(pages) && Borrowed(before, h.Map(), h.users)
    requires forall p :: p in Loose(pages, kept) ==> p in h.users && p !in before.users
    modifies h, h.heap.blocks, set b | b in h.heap.blocks :: b.bm
    ensures h.Valid() && h.ready && h.heap.blocks == old(h.heap.blocks)
    ensures h.users == old(h.users) - Loose(pages, kept) && Borrowed(before, h.Map(), h.users)
  {
    hide UsersOk, IsRun, Painted, HeapRuns.Used, Borrowed, Loose, Once;
    ghost var users0 := h.users;
    LooseNone(users0, kept);
    var i := 0;
    while i < |pages|
      invariant 0 <= i <= |pages| && h.Valid() && h.ready && h.heap.blocks == old(h.heap.blocks)
      invariant h.users == users0 - Loose(pages[..i], kept) && Borrowed(before, h.Map(), h.users)
    {
      LooseMore(users0, pages, kept, i);
      if pages[i] != 0 && pages[i] !in kept {
        BorrowReturned(before, h.Map(), h.users, pages[i]);
        h.Kfree(pages[i]);
      }
      i := i + 1;
    }
    assert pages[..i] == pages;
  }

  lemma LooseNone(users: map<nat, User>, kept: seq<nat>)
    ensures users - Loose([], kept) == users
  {
  }

  lemma LooseMore(users: map<nat, User>, pages: seq<nat>, kept: seq<nat>, i: nat)
    requires Once(pages) && i < |pages|
    ensures pages[i] == 0 || pages[i] in kept ==>
      users - Loose(pages[..i + 1], kept) == users - Loose(pages[..i], kept)
    ensures pages[i] != 0 && pages[i] !in kept ==>
      && pages[i] in Loose(pages, kept) && (pages[i] in users ==> pages[i] in users - Loose(pages[..i], kept))
      && users - Loose(pages[..i + 1], kept) == users - Loose(pages[..i], kept) - {pages[i]}
  {
    assert pages[..i + 1] == pages[..i] + [pages[i]];
    assert forall p :: p in pages[..i + 1] <==> p in pages[..i] || p == pages[i];
  }

  /** vmm_destroy_address_space with its kfree calls: the heap gets back exactly the pages the space owned and its
      record, and what is still in use stays backed. */
  method DestroyAndFree(h: KernelHeap, m: Machine, a: AddressSpace, record: nat, ghost before: Ledger)
    requires h.Valid() && h.ready && m.Valid() && a.Valid(m) && Backed(h.area, h.users, m.mem)
    requires Borrowed(before, h.Map(), h.users) && record != 0 && record !in before.users
    requires record in h.users && h.users[record].size == RECORD
    requires forall p :: p in a.owned ==> p != 0 && p != record && p in h.users && p !in before.users
    modifies h, h.heap.blocks, set b | b in h.heap.blocks :: b.bm
    modifies a`owned, m`mem
    ensures h.Valid() && h.ready && h.heap.blocks == old(h.heap.blocks) && m.Valid()
    ensures a.owned == [] && m.mem == old(m.mem) - Set(old(a.owned))
    ensures h.users == old(h.users) - Set(old(a.owned)) - {record}
    ensures Backed(h.area, h.users, m.mem) && Borrowed(before, h.Map(), h.users)
  {
    hide UsersOk, IsRun, Backed, SupplyOk, PagesOk, Painted, HeapRuns.Used, Borrowed, Loose, Once, Linked, TablesOwned;
    ghost var users0, mem0, owned := h.users, m.mem, a.owned;
    OwnedLoose(mem0, owned);
    Return(h, a.owned, [], before);
    BorrowReturned(before, h.Map(), h.users, record);
    h.Kfree(record);
    a.Destroy(m);
    AllReleased(h.area, users0, mem0, owned, record);
  }

  lemma OwnedLoose(mem: Memory, owned: seq<nat>)
    requires Owns(mem, owned) && 0 !in owned
    ensures Once(owned) && Loose(owned, []) == Set(owned)
  {
  }

  lemma AllReleased(area: nat, users: map<nat, User>, mem: Memory, owned: seq<nat>, record: nat)
    requires Backed(area, users, mem) && record in users && users[record].size != PAGE
    ensures Backed(area, users - Set(owned) - {record}, mem - Set(owned))
  {
  }

  // ----- the whole life of a process

  /** A process over pages taken from the heap since `stocked`: elf_exec, any run of SYS_SBRK and
      vmm_destroy_address_space, or an elf_exec that fails. Memory is as before, and the heap has back the record and
      exactly the pages the process took, all of them from the supply. */
  method ExecToDestroy(h: KernelHeap, m: Machine, record: nat, segs: seq<Segment>, file: seq<byte>, entry: nat,
                       argv: seq<seq<byte>>, submitOk: bool,
                       increments: seq<int>, ghost before: Ledger, ghost stocked: map<nat, User>)
    returns (started: bool, taken: seq<nat>)
    requires h.Valid() && h.ready && m.Valid() && MASTER_PDPT in m.mem && Backed(h.area, h.users, m.mem)
    requires Handed(stocked, h.users, m.supply) && Borrowed(before, h.Map(), h.users)
    requires record != 0 ==> record !in before.users && record in stocked && stocked[record].size == RECORD
    requires forall p :: p in before.users ==> p in stocked
    requires forall i :: 0 <= i < |increments| ==> increments[i] < TWO64 / 2
    modifies h, h.heap.blocks, set b | b in h.heap.blocks :: b.bm
    modifies m
    ensures h.Valid() && h.ready && h.heap.blocks == old(h.heap.blocks) && m.Valid()
    ensures started ==> record != 0 && submitOk && InWindow(entry) && !HasRefused(segs) && !HasShort(segs, file)
    ensures m.mem == old(m.mem) && h.users == old(h.users) - Set(taken) - {record}
    ensures (forall p :: p in taken ==> p != 0 && p in old(m.supply)) && Borrowed(before, h.Map(), h.users)
  {
    hide UsersOk, IsRun, Painted, HeapRuns.Used, Borrowed, Loose, Once, Linked, TablesOwned, Backed, SupplyOk, PagesOk,
      Handed, HasRefused, HasShort, SegmentMapped, Free, Grown, Drawn, NewOnly, Owns;
    ghost var mem0, users0, supply0 := m.mem, h.users, m.supply;
    RecordLive(stocked, h.users, m.supply, record, h.area, h.Map(), h.header);
    ghost var args, argc;
    var task;
    task, args, argc := Exec(m, segs, file, entry, argv, record != 0, submitOk);
    started, taken := task != null, [];
    if task != null {
      ghost var mem1, supply1, owned1, t1 := m.mem, m.supply, task.space.owned, task.space.t;
      var grants := task.SbrkRun(m, increments);
      DrawnTwice(mem0, supply0, mem1, supply1, m.mem, m.supply);
      taken := task.space.owned;
      NewOnlyGrown(mem0, mem1, owned1, t1, m.mem, taken, task.space.t);
      DrawnBacked(h.area, stocked, users0, mem0, supply0, m.mem, m.supply, taken);
      RemoveNew(mem0, m.mem, taken);
      DestroyAndFree(h, m, task.space, record, before);
    } else if record != 0 {
      BorrowReturned(before, h.Map(), h.users, record);
      h.Kfree(record);
    }
  }

  /** The record's pointer stays live while pages are taken; 0 is no pointer. */
  lemma RecordLive(users0: map<nat, User>, users: map<nat, User>, supply: seq<nat>, record: nat, area: nat,
                   bm: seq<byte>, header: map<nat, nat>)
    requires Handed(users0, users, supply) && UsersOk(area, bm, header, users)
    ensures record != 0 && record in users0 ==> record in users && users[record] == users0[record]
    ensures 0 !in users
  {
    hide UsersOk;
    if 0 in users {
      RangesDisjoint(area, bm, header, users, 0, 0);
    }
  }

  /** The same from kmalloc of the record on, with `n` pages to be had, and with the pages not taken given back: at the
      end memory, the live allocations, the bitmap and its count of used slots are what they were. */
  method Lifetime(h: KernelHeap, m: Machine, n: nat, segs: seq<Segment>, file: seq<byte>, entry: nat,
                       argv: seq<seq<byte>>, submitOk: bool,
                  increments: seq<int>) returns (started: bool)
    requires h.Valid() && h.ready && m.Valid() && MASTER_PDPT in m.mem && Backed(h.area, h.users, m.mem)
    requires forall i :: 0 <= i < |increments| ==> increments[i] < TWO64 / 2
    modifies h, h.heap.blocks, set b | b in h.heap.blocks :: b.bm
    modifies m
    ensures h.Valid() && h.ready && h.heap.blocks == old(h.heap.blocks) && m.Valid()
    ensures started ==> submitOk && InWindow(entry) && !HasRefused(segs) && !HasShort(segs, file)
    ensures m.mem == old(m.mem) && h.users == old(h.users)
    ensures h.Map() == old(h.Map()) && h.heap.blocks[0].used == old(h.heap.blocks[0].used)
  {
    hide UsersOk, IsRun, Painted, HeapRuns.Used, Borrowed, Loose, Once, Backed, SupplyOk, PagesOk, Handed, CeilDiv,
      OneMoreRun, HasRefused, HasShort, Set, HasRoom;
    ghost var before := Ledger(h.Map(), h.users);
    var record := Record(h, m.mem);
    ghost var bm1, stocked := h.Map(), h.users;
    Restock(h, m, n);
    BorrowTwice(before, bm1, stocked, h.Map(), h.users);
    var pages := m.supply;
    ghost var users2 := h.users;
    var taken;
    started, taken := ExecToDestroy(h, m, record, segs, file, entry, argv, submitOk, increments, before, stocked);
    SuppliedLoose(stocked, users2, pages, taken, record);
    Return(h, pages, taken, before);
    SuppliedReturned(stocked, users2, pages, taken, record);
    m.supply := [];
    NoSupply(m.mem);
    BorrowSettled(before, h.Map(), h.users);
  }

  /** kmalloc(sizeof(vmm_as_t), 0). */
  method Record(h: KernelHeap, ghost mem: Memory) returns (record: nat)
    requires h.Valid() && h.ready && Backed(h.area, h.users, mem)
    modifies h, h.heap.blocks, set b | b in h.heap.blocks :: b.bm
    ensures h.Valid() && h.ready && h.heap.blocks == old(h.heap.blocks) && Backed(h.area, h.users, mem)
    ensures h.users.Keys == old(h.users).Keys + if record == 0 then {} else {record}
    ensures h.users - {record} == old(h.users)
    ensures record != 0 ==> record !in old(h.users) && record in h.users && h.users[record].size == RECORD
    ensures Borrowed(Ledger(old(h.Map()), old(h.users)), h.Map(), h.users)
  {
    hide UsersOk, IsRun, HeapRuns.Used, Borrowed, Backed, CeilDiv, OneMoreRun, HasRoom, NextFree;
    ghost var bm, users := h.Map(), h.users;
    BorrowNone(bm, users);
    ghost var x;
    record, x := h.Kmalloc(RECORD, false, 0);
    if record != 0 {
      BorrowOne(Ledger(bm, users), bm, users, h.Map(), record, h.users[record]);
      BackedOneMore(h.area, users, mem, record, h.users[record]);
    } else {
      RecordLive(users, users, [], 0, h.area, h.Map(), h.header) by { HandNone(users); }
    }
  }

  lemma NoSupply(mem: Memory)
    ensures SupplyOk(mem, [])
  {
  }

  /** What of a supply was not kept is still live when what was kept, and the record, are gone. */
  lemma SuppliedLoose(users0: map<nat, User>, users: map<nat, User>, supply: seq<nat>, kept: seq<nat>, record: nat)
    requires Handed(users0, users, supply) && (record != 0 ==> record in users0)
    ensures Once(supply)
    ensures forall p :: p in Loose(supply, kept) ==> p in users - Set(kept) - {record} && p !in users0
  {
  }

  /** Giving back what was kept and then the rest gives back the whole supply. */
  lemma SuppliedReturned(users0: map<nat, User>, users: map<nat, User>, supply: seq<nat>, kept: seq<nat>, record: nat)
    requires Handed(users0, users, supply) && forall p :: p in kept ==> p != 0 && p in supply
    ensures users - Set(kept) - Loose(supply, kept) == users0
    ensures users - Set(kept) - {record} - Loose(supply, kept) == users0 - {record}
  {
    assert forall p :: p in users && p !in users0 ==> p in Set(kept) || p in Loose(supply, kept);
    assert forall p :: p in users0 ==> p !in Set(kept) && p !in Loose(supply, kept);
  }

  lemma BackedOneMore(area: nat, users: map<nat, User>, mem: Memory, p: nat, u: User)
    requires Backed(area, users, mem) && p !in users
    ensures Backed(area, users[p := u], mem)
  {
  }
}
