/** kmalloc and kfree over one 16 MiB bitmap heap: a header word in front of every allocation, optional page
    alignment. */
module Kmalloc {
  import opened Words
  import opened HeapRuns
  import opened Heap

  const KHEAP_SIZE: nat := 16 * 1024 * 1024
  const KHEAP_BSIZE: nat := 64

  /** Header word plus worst-case alignment padding. */
  function Extra(align: bool): nat { 8 + (if align then PAGE else 0) }

  /** The byte count kmalloc asks the heap for, in 64-bit arithmetic. */
  function Request(size: nat, align: bool): nat { (size + Extra(align)) % TWO64 }

  /** Where the user range starts in a raw allocation. */
  function UserStart(raw: nat, align: bool): nat {
    if align then (raw + 8 + 0xFFF) / PAGE * PAGE else raw + 8
  }

  /** The user range [p, p + size) lies behind the header and inside the allocated slots exactly when adding the extra
      bytes did not wrap around 64 bits. */
  lemma RangeFits(raw: nat, size: nat, align: bool, slots: nat)
    requires size < TWO64 && raw + KHEAP_SIZE < TWO64 && slots * KHEAP_BSIZE <= KHEAP_SIZE
    requires slots == CeilDiv(Request(size, align), KHEAP_BSIZE)
    ensures var p := UserStart(raw, align);
            && raw + 8 <= p <= raw + Extra(align) && (align ==> p % PAGE == 0)
            && (p + size <= raw + slots * KHEAP_BSIZE <==> size + Extra(align) < TWO64)
  {
    CeilDivEnough(Request(size, align), KHEAP_BSIZE);
  }

  /** It can wrap: 2^64 - 1 bytes are granted one slot of 64. */
  lemma HugeRequestOverruns(raw: nat)
    requires raw + KHEAP_SIZE < TWO64
    ensures Request(TWO64 - 1, false) == 7 && CeilDiv(7, KHEAP_BSIZE) == 1
    ensures UserStart(raw, false) + (TWO64 - 1) > raw + KHEAP_BSIZE
  {
  }

  /** Address of slot `x` of a heap area. */
  function SlotAddr(area: nat, x: nat): nat { area + HEADER + x * KHEAP_BSIZE }

  /** A live allocation: its run of slots and the bytes asked for. */
  datatype User = User(start: nat, slots: nat, size: nat)

  /** Header word and user range lie inside the allocation's own run of slots, and the word names the run's start. */
  ghost predicate UserOk(area: nat, bm: seq<byte>, header: map<nat, nat>, p: nat, u: User) {
    && IsRun(bm, u.start, u.slots)
    && SlotAddr(area, u.start) + 8 <= p && p + u.size <= SlotAddr(area, u.start + u.slots)
    && p - 8 in header && header[p - 8] == SlotAddr(area, u.start)
  }

  /** Slots the bitmap itself lies in. */
  ghost function Own(bm: seq<byte>): nat { CeilDiv(|bm|, KHEAP_BSIZE) }

  ghost predicate StartsUser(users: map<nat, User>, s: nat) { exists p :: p in users && users[p].start == s }

  /** The runs are the bitmap's own, at the front, and one for each live allocation. */
  ghost predicate UsersOk(area: nat, bm: seq<byte>, header: map<nat, nat>, users: map<nat, User>) {
    && IsRun(bm, 0, Own(bm))
    && (forall p :: p in users ==> Own(bm) <= users[p].start && UserOk(area, bm, header, p, users[p]))
    && (forall p, q :: p in users && q in users && p != q ==> users[p].start != users[q].start)
    && RunsNamed(bm, users)
  }

  ghost predicate RunsNamed(bm: seq<byte>, users: map<nat, User>) {
    forall s, n :: IsRun(bm, s, n) && s != 0 ==> StartsUser(users, s)
  }

  /** A heap with nothing but the bitmap's own slots in use. */
  lemma NoUsers(area: nat, bm: seq<byte>, header: map<nat, nat>)
    requires bm != [] && forall i :: 0 <= i < |bm| ==> bm[i] == if i < Own(bm) then 5 else 0
    ensures UsersOk(area, bm, header, map[])
  {
    CeilDivEnough(|bm|, KHEAP_BSIZE);
    hide Own;
    assert IsRun(bm, 0, Own(bm));
  }

  /** No slot is lost: every slot in use is the bitmap's or belongs to exactly one live allocation. */
  lemma SlotsAccounted(area: nat, bm: seq<byte>, header: map<nat, nat>, users: map<nat, User>, i: nat)
    requires UsersOk(area, bm, header, users) && i < |bm|
    ensures bm[i] != 0 <==> i < Own(bm) || exists p :: p in users && Holds(users[p], i)
    ensures forall p, q :: p in users && q in users && Holds(users[p], i) && Holds(users[q], i) ==> p == q
    ensures forall p :: p in users && Holds(users[p], i) ==> Own(bm) <= i
  {
    hide IsRun, Own;
    forall p, q | p in users && q in users && Holds(users[p], i) && Holds(users[q], i)
      ensures p == q
    {
      assert UserOk(area, bm, header, p, users[p]) && UserOk(area, bm, header, q, users[q]);
      RunsApart(bm, users[p].start, users[p].slots, users[q].start, users[q].slots);
    }
    forall p | p in users && Holds(users[p], i)
      ensures bm[i] != 0
    {
      assert UserOk(area, bm, header, p, users[p]);
      RunNonzero(bm, users[p].start, users[p].slots, i);
    }
    if i < Own(bm) {
      RunNonzero(bm, 0, Own(bm), i);
    } else if bm[i] != 0 {
      var s, n := RunAt(bm, i);
      RunsApart(bm, 0, Own(bm), s, n);
      assert StartsUser(users, s);
      var p :| p in users && users[p].start == s;
      assert UserOk(area, bm, header, p, users[p]);
      RunsApart(bm, s, n, s, users[p].slots);
    }
  }

  ghost predicate Holds(u: User, i: nat) { u.start <= i < u.start + u.slots }

  /** Header words and user ranges of different allocations share no byte, and all lie in the arena. */
  lemma RangesDisjoint(area: nat, bm: seq<byte>, header: map<nat, nat>, users: map<nat, User>, p: nat, q: nat)
    requires UsersOk(area, bm, header, users) && p in users && q in users
    ensures 8 <= p && area <= p - 8 && p + users[p].size <= SlotAddr(area, |bm|)
    ensures p != q ==> p + users[p].size <= q - 8 || q + users[q].size <= p - 8
  {
    hide IsRun;
    assert UserOk(area, bm, header, p, users[p]) && UserOk(area, bm, header, q, users[q]);
    if p != q {
      RunsApart(bm, users[p].start, users[p].slots, users[q].start, users[q].slots);
    }
  }

  /** A new run with its header word adds one live pointer and disturbs none. */
  lemma AddUser(area: nat, bm: seq<byte>, bm': seq<byte>, header: map<nat, nat>, users: map<nat, User>, x: nat, n: nat,
                p: nat, size: nat)
    requires UsersOk(area, bm, header, users) && 0 < n && OneMoreRun(bm, bm', x, n)
    requires SlotAddr(area, x) + 8 <= p && p + size <= SlotAddr(area, x + n)
    ensures p !in users
    ensures UsersOk(area, bm', header[p - 8 := SlotAddr(area, x)], users[p := User(x, n, size)])
  {
    hide IsRun, OneMoreRun, CeilDiv, RunsNamed;
    var header' := header[p - 8 := SlotAddr(area, x)];
    RunsAfterAlloc(bm, bm', x, n, x, n);
    RunsAfterAlloc(bm, bm', x, n, 0, Own(bm));
    forall q | q in users ensures q != p && users[q].start != x && UserOk(area, bm', header', q, users[q]) {
      assert UserOk(area, bm, header, q, users[q]);
      RunsAfterAlloc(bm, bm', x, n, users[q].start, users[q].slots);
    }
    NamedAfterAlloc(bm, bm', users, x, n, p, User(x, n, size));
  }

  lemma NamedAfterAlloc(bm: seq<byte>, bm': seq<byte>, users: map<nat, User>, x: nat, n: nat, p: nat, u: User)
    requires RunsNamed(bm, users) && 0 < n && OneMoreRun(bm, bm', x, n) && p !in users && u.start == x
    ensures RunsNamed(bm', users[p := u])
  {
    hide IsRun, OneMoreRun;
    var users' := users[p := u];
    forall s, k | IsRun(bm', s, k) && s != 0 ensures StartsUser(users', s) {
      RunsAfterAlloc(bm, bm', x, n, s, k);
      if s == x {
        assert users'[p].start == x;
      } else {
        assert StartsUser(users, s);
        var q :| q in users && users[q].start == s;
        assert q in users' && users'[q].start == s;
      }
    }
  }

  /** Clearing a live pointer's run drops that pointer and disturbs no other. */
  lemma DropUser(area: nat, bm: seq<byte>, header: map<nat, nat>, users: map<nat, User>, p: nat)
    requires UsersOk(area, bm, header, users) && p in users
    ensures UserOk(area, bm, header, p, users[p])
    ensures UsersOk(area, Painted(bm, users[p].start, users[p].slots, 0), header, users - {p})
  {
    hide IsRun, Painted, CeilDiv, RunsNamed;
    assert UserOk(area, bm, header, p, users[p]);
    var s, n := users[p].start, users[p].slots;
    var bm' := Painted(bm, s, n, 0);
    ClearRemovesRun(bm, s, n, 0, Own(bm));
    forall q | q in users && q != p ensures UserOk(area, bm', header, q, users[q]) {
      assert UserOk(area, bm, header, q, users[q]);
      ClearRemovesRun(bm, s, n, users[q].start, users[q].slots);
    }
    NamedAfterClear(bm, users, p);
  }

  lemma NamedAfterClear(bm: seq<byte>, users: map<nat, User>, p: nat)
    requires RunsNamed(bm, users) && p in users && IsRun(bm, users[p].start, users[p].slots)
    ensures RunsNamed(Painted(bm, users[p].start, users[p].slots, 0), users - {p})
  {
    hide IsRun, Painted;
    var s, n := users[p].start, users[p].slots;
    var bm', users' := Painted(bm, s, n, 0), users - {p};
    forall z, k | IsRun(bm', z, k) && z != 0 ensures StartsUser(users', z) {
      ClearRemovesRun(bm, s, n, z, k);
      assert StartsUser(users, z);
      var q :| q in users && users[q].start == z;
      assert q in users' && users'[q].start == z;
    }
  }

  class KernelHeap {
    const area: nat
    const heap: HeapBM
    var ready: bool
    var header: map<nat, nat>              // the 8-byte words in front of user ranges
    ghost var users: map<nat, User>        // live pointers

    ghost predicate Valid()
      reads this, heap, heap.blocks, set b | b in heap.blocks :: b.bm
    {
      && Placed()
      && (if ready then UsersOk(area, heap.blocks[0].bm[..], header, users) else users == map[])
    }

    /** The one block covers the arena. */
    ghost predicate Placed()
      reads this, heap, heap.blocks, set b | b in heap.blocks :: b.bm
    {
      && heap.Valid()
      && (if ready then |heap.blocks| == 1 && OurBlock(heap.blocks[0]) else heap.blocks == [])
    }

    ghost predicate OurBlock(b: Block) { b.addr == area && b.size == KHEAP_SIZE - HEADER && b.bsize == KHEAP_BSIZE }

    ghost function Map(): seq<byte>
      requires |heap.blocks| == 1
      reads this, heap, heap.blocks, set b | b in heap.blocks :: b.bm
    {
      heap.blocks[0].bm[..]
    }

    constructor (area: nat)
      ensures Valid() && this.area == area && !ready && fresh(heap)
    {
      this.area, ready, header, users := area, false, map[], map[];
      heap := new HeapBM();
    }

    /** kheap_ensure_init: the bitmap's own slots become the first run, nobody's allocation. */
    method EnsureInit()
      requires Valid()
      modifies this, heap
      ensures Valid() && ready && users == old(users) && header == old(header)
      ensures old(ready) ==> heap.blocks == old(heap.blocks)
      ensures !old(ready) ==> fresh(heap.blocks[0]) && fresh(heap.blocks[0].bm)
    {
      hide Used, CeilDiv, IsRun;
      if !ready {
        heap.AddBlock(area, KHEAP_SIZE, KHEAP_BSIZE);
        NoUsers(area, heap.blocks[0].bm[..], header);
        ready := true;
      }
    }

    /** kmalloc on an initialised heap. The sum with the extra bytes is taken modulo 2^64, as the source takes it; as
        long as it does not wrap, exactly one run and one live pointer are added. If it wraps to 0, nothing is reserved
        and the pointer leads into a slot that is free, or behind the last one. */
    method Kmalloc(size: nat, align: bool, edge: byte) returns (p: nat, ghost x: nat)
      requires Valid() && ready && size < TWO64
      modifies this, heap.blocks, set b | b in heap.blocks :: b.bm
      ensures Placed() && ready && heap.blocks == old(heap.blocks)
      ensures (p != 0 ==> p == UserStart(SlotAddr(area, x), align))
      ensures p == 0 ==> Valid() && users == old(users) && Map() == old(Map())
      ensures Request(size, align) > 0 ==>
        var n := CeilDiv(Request(size, align), KHEAP_BSIZE);
        && (p == 0 <==> !HasRoom(old(Map()), n)) && (p != 0 ==> OneMoreRun(old(Map()), Map(), x, n))
      ensures Request(size, align) == 0 ==> Map() == old(Map()) && (p != 0 ==> NextFree(Map(), edge, x))
      ensures p != 0 && size + Extra(align) < TWO64 ==>
        && Valid() && p !in old(users)
        && users == old(users)[p := User(x, CeilDiv(Request(size, align), KHEAP_BSIZE), size)]
    {
      hide Used, CeilDiv, HasRoom, OneMoreRun, FreeAt, IsRun, UsersOk, Request, UserStart, NextFree, Block.Valid;
      ghost var bm := Map();
      var total := Request(size, align);
      ghost var n := CeilDiv(total, KHEAP_BSIZE);
      CeilDivEnough(total, KHEAP_BSIZE);
      ghost var i;
      var raw;
      ghost var b := heap.blocks[0];
      raw, i, x := heap.Alloc(total, [edge]);
      assert heap.blocks == [b];
      assert Placed();
      assert total > 0 ==> (raw == 0 <==> !HasRoom(bm, n));
      if raw == 0 {
        assert Map() == bm;
        return 0, 0;
      }
      assert i == 0 && raw == SlotAddr(area, x);
      p := UserStart(raw, align);
      StartInside(area, x, size, align);
      header := header[p - 8 := raw];
      if size + Extra(align) < TWO64 {
        AddUser(area, bm, Map(), old(header), users, x, n, p, size);
        users := users[p := User(x, n, size)];
      }
    }

    /** kfree of a live pointer: its run is cleared and nothing else. */
    method Kfree(ptr: nat)
      requires Valid() && (ptr != 0 && ready ==> ptr in users)
      modifies this, heap.blocks, set b | b in heap.blocks :: b.bm
      ensures Valid() && ready == old(ready) && heap.blocks == old(heap.blocks)
      ensures ptr == 0 || !ready ==> users == old(users) && (ready ==> Map() == old(Map()))
      ensures ptr != 0 && ready ==>
        && users == old(users) - {ptr} && old(users[ptr].start + users[ptr].slots <= |Map()|)
        && Map() == Painted(old(Map()), old(users[ptr].start), old(users[ptr].slots), 0)
    {
      hide Used, CeilDiv, Painted, IsRun, UsersOk;
      if ptr == 0 || !ready {
        return;
      }
      DropUser(area, Map(), header, users, ptr);
      ghost var s, n := users[ptr].start, users[ptr].slots;
      var raw := header[ptr - 8];
      ghost var bm := Map();
      RunNonzero(bm, s, n, s);
      ghost var m := heap.Free(raw, 0, s);
      StretchIsRun(bm, s, m, n);
      users := users - {ptr};
    }

    /** kfree undoes kmalloc: bitmap and used count are exactly what they were. */
    method MallocFree(size: nat, align: bool, edge: byte) returns (p: nat)
      requires Valid() && ready && size + Extra(align) < TWO64
      modifies this, heap.blocks, set b | b in heap.blocks :: b.bm
      ensures Valid() && ready && heap.blocks == old(heap.blocks) && users == old(users)
      ensures Map() == old(Map()) && heap.blocks[0].used == old(heap.blocks[0].used)
    {
      hide Used, CeilDiv, Painted, HasRoom, OneMoreRun, FreeAt, IsRun, UsersOk;
      ghost var bm := Map();
      ghost var x;
      p, x := Kmalloc(size, align, edge);
      if p != 0 {
        ghost var n := CeilDiv(Request(size, align), KHEAP_BSIZE);
        AllocThenFree(bm, Map(), x, n);
        Kfree(p);
      }
    }
  }

  /** Without wrap-around the user range starts within the allocated slots. */
  lemma StartInside(area: nat, x: nat, size: nat, align: bool)
    ensures var n, p := CeilDiv(Request(size, align), KHEAP_BSIZE), UserStart(SlotAddr(area, x), align);
            && SlotAddr(area, x) + 8 <= p
            && (size + Extra(align) < TWO64 ==> p + size <= SlotAddr(area, x + n) && Request(size, align) > 0)
  {
    CeilDivEnough(Request(size, align), KHEAP_BSIZE);
  }
}
