/** What a process sees through its window, page by page: allocation followed by mapping, as kernel/elf.c and SYS_SBRK
    do it, keeps every process on frames of its own. */
module UserMemory {
  import opened Words
  import opened Paging
  import opened Products
  import opened Vmm
  import opened PageBytes

  predicate Rw(e: nat) { Present(e) && Writable(e) && User(e) }

  ghost predicate AllRw(mem: Memory, pml4: nat, lo: nat, hi: nat) {
    forall x :: lo <= x < hi ==> Rw(Walk(mem, pml4, x))
  }

  /** Nothing outside [lo, hi) is translated differently. */
  ghost predicate SameOutside(mem: Memory, mem': Memory, pml4: nat, lo: nat, hi: nat) {
    forall x: nat :: InWindow(x) && !(lo <= x < hi) ==> Walk(mem', pml4, x) == Walk(mem, pml4, x)
  }

  /** What was readable and writable still is. */
  ghost predicate RwKept(mem: Memory, mem': Memory, pml4: nat) {
    forall x: nat :: InWindow(x) && Rw(Walk(mem, pml4, x)) ==> Rw(Walk(mem', pml4, x))
  }

  /** The byte the process reads at `x`, -1 where nothing is mapped. */
  ghost function ReadsAs(mem: Memory, pml4: nat, x: nat): int {
    var e := Walk(mem, pml4, x);
    if Present(e) && Target(e) in mem && |mem[Target(e)]| == ENTRIES then PageByte(mem[Target(e)], x % PAGE) else -1
  }

  /** What a range is to hold: the first `size` bytes of `file` from `base` on, and zeros. */
  datatype Image = Image(base: nat, size: nat, file: seq<byte>) {
    function At(x: nat): int { if base <= x < base + size && x - base < |file| then file[x - base] else 0 }
  }

  const Zeros: Image := Image(0, 0, [])

  ghost predicate Shows(mem: Memory, pml4: nat, lo: nat, hi: nat, image: Image) {
    forall x: nat :: lo <= x < hi ==> ReadsAs(mem, pml4, x) == image.At(x)
  }

  /** Every byte outside [lo, hi) reads as before. */
  ghost predicate BytesKept(mem: Memory, mem': Memory, pml4: nat, lo: nat, hi: nat) {
    forall x: nat :: InWindow(x) && !(lo <= x < hi) ==> ReadsAs(mem', pml4, x) == ReadsAs(mem, pml4, x)
  }

  /** No mapped page is a table or a page of somebody else, and no frame is mapped twice. */
  ghost predicate Private(mem: Memory, owned: seq<nat>, t: Tables) {
    && (forall x: nat :: InWindow(x) && Present(Walk(mem, t.pml4, x)) ==>
       OwnFrame(owned, t, Target(Walk(mem, t.pml4, x))))
    && (forall x: nat, y: nat :: SharedFrame(mem, t.pml4, x, y) ==> Target(x) == Target(y))
  }

  ghost predicate SharedFrame(mem: Memory, pml4: nat, x: nat, y: nat) {
    && InWindow(x) && InWindow(y) && Present(Walk(mem, pml4, x)) && Present(Walk(mem, pml4, y))
    && Target(Walk(mem, pml4, x)) == Target(Walk(mem, pml4, y))
  }

  ghost predicate OwnFrame(owned: seq<nat>, t: Tables, frame: nat) { frame in owned && !IsTable(t, frame) }

  // ----- one page

  lemma FrameLeaf(p: nat)
    requires Aligned(p)
    ensures Rw(Leaf(p, RW_U)) && Target(Leaf(p, RW_U)) == p
  {
    RowIndex(p / PAGE, 0, PAGE);
  }

  /** A fresh frame mapped at `va` keeps the process private. */
  lemma PrivateStep(mem: Memory, owned: seq<nat>, t: Tables, mem': Memory, owned': seq<nat>, t': Tables, va: nat,
                    p: nat)
    requires Private(mem, owned, t) && Owns(mem, owned) && TablesOwned(owned, t)
    requires Grown(mem, owned, t, mem', owned', t') && PointUpdate(mem, mem', t.pml4, va, Leaf(p, RW_U))
    requires Aligned(p) && p !in mem && p in owned' && !IsTable(t', p)
    ensures Private(mem', owned', t')
  {
    hide Walk, Leaf, IsTable, Present, Target;
    FrameLeaf(p);
    forall x | InWindow(x) && Present(Walk(mem', t'.pml4, x))
      ensures OwnFrame(owned', t', Target(Walk(mem', t'.pml4, x)))
    {
      if Target(x) != va {
        assert OwnFrame(owned, t, Target(Walk(mem, t.pml4, x)));
      }
    }
    forall x: nat, y: nat | SharedFrame(mem', t'.pml4, x, y)
      ensures Target(x) == Target(y)
    {
      assert Target(x) != va ==> OwnFrame(owned, t, Target(Walk(mem, t.pml4, x)));
      assert Target(y) != va ==> OwnFrame(owned, t, Target(Walk(mem, t.pml4, y)));
      assert Target(x) != va && Target(y) != va ==> SharedFrame(mem, t.pml4, x, y);
    }
  }

  /** Failing halfway changes no translation, so nothing stops being private. */
  lemma PrivateKept(mem: Memory, owned: seq<nat>, t: Tables, mem': Memory, owned': seq<nat>, t': Tables)
    requires Private(mem, owned, t) && Owns(mem, owned) && Grown(mem, owned, t, mem', owned', t')
    requires SameWalks(mem, mem', t.pml4)
    ensures Private(mem', owned', t')
  {
    hide Walk, IsTable, Present, Target;
    forall x | InWindow(x) && Present(Walk(mem', t'.pml4, x))
      ensures OwnFrame(owned', t', Target(Walk(mem', t'.pml4, x)))
    {
      assert OwnFrame(owned, t, Target(Walk(mem, t.pml4, x)));
    }
    forall x: nat, y: nat | SharedFrame(mem', t'.pml4, x, y)
      ensures Target(x) == Target(y)
    {
      assert SharedFrame(mem, t.pml4, x, y);
    }
  }

  /** A frame that is neither a table nor in use before is written: nothing translates differently. */
  lemma Refilled(mem: Memory, owned: seq<nat>, t: Tables, mem1: Memory, owned1: seq<nat>, t1: Tables, p: nat, row: Page)
    requires PagesOk(mem1) && Owns(mem1, owned1) && TablesOwned(owned1, t1) && Linked(mem1, t1)
    requires Grown(mem, owned, t, mem1, owned1, t1) && p in mem1 && p !in mem && !IsTable(t1, p)
    ensures PagesOk(mem1[p := row]) && Owns(mem1[p := row], owned1) && Linked(mem1[p := row], t1)
    ensures Grown(mem, owned, t, mem1[p := row], owned1, t1) && SameWalks(mem1, mem1[p := row], t1.pml4)
    ensures mem1[p := row].Keys == mem1.Keys
  {
    assert IsTable(t1, t1.pml4) && IsTable(t1, t1.pdpt);
    hide Linked, Walk, SameWalks, IsTable;
    assert forall q :: IsTable(t1, q) ==> q in owned1 && q != p;
    TablesDecide(mem1, mem1[p := row], t1);
  }

  /** What reads as before when own frames keep their contents: everything translated as before. */
  lemma FramesKept(mem: Memory, owned: seq<nat>, t: Tables, mem': Memory, owned': seq<nat>, t': Tables, x: nat)
    requires Private(mem, owned, t) && Owns(mem, owned) && Grown(mem, owned, t, mem', owned', t') && InWindow(x)
    requires Walk(mem', t.pml4, x) == Walk(mem, t.pml4, x)
    ensures ReadsAs(mem', t.pml4, x) == ReadsAs(mem, t.pml4, x)
  {
    hide Walk, IsTable, Present, Target;
    if Present(Walk(mem, t.pml4, x)) {
      assert OwnFrame(owned, t, Target(Walk(mem, t.pml4, x)));
    }
  }

  lemma AllKept(mem: Memory, owned: seq<nat>, t: Tables, mem': Memory, owned': seq<nat>, t': Tables)
    requires Private(mem, owned, t) && Owns(mem, owned) && Grown(mem, owned, t, mem', owned', t')
    requires SameWalks(mem, mem', t.pml4)
    ensures BytesKept(mem, mem', t.pml4, 0, 0)
  {
    hide Walk, Private, Grown, ReadsAs, Owns;
    forall x: nat | InWindow(x)
      ensures ReadsAs(mem', t.pml4, x) == ReadsAs(mem, t.pml4, x)
    {
      FramesKept(mem, owned, t, mem', owned', t', x);
    }
  }

  /** The page at `va` reads as what was stored in its frame, everything else as before. */
  ghost predicate PageShown(mem: Memory, mem': Memory, pml4: nat, va: nat, row: Page) {
    forall x: nat :: InWindow(x) ==>
      ReadsAs(mem', pml4, x) == if Target(x) == va then PageByte(row, x % PAGE) else ReadsAs(mem, pml4, x)
  }

  lemma PageShows(mem: Memory, owned: seq<nat>, t: Tables, mem': Memory, owned': seq<nat>, t': Tables, va: nat, p: nat,
                  row: Page)
    requires Private(mem, owned, t) && Owns(mem, owned) && Grown(mem, owned, t, mem', owned', t')
    requires PointUpdate(mem, mem', t.pml4, va, Leaf(p, RW_U)) && Aligned(p) && p in mem' && mem'[p] == row
    ensures PageShown(mem, mem', t.pml4, va, row)
  {
    hide Walk, Private, Grown, Owns, Leaf, PageByte;
    FrameLeaf(p);
    forall x: nat | InWindow(x)
      ensures ReadsAs(mem', t.pml4, x)
           == if Target(x) == va then PageByte(row, x % PAGE) else ReadsAs(mem, t.pml4, x)
    {
      if Target(x) != va {
        FramesKept(mem, owned, t, mem', owned', t', x);
      }
    }
  }

  /** A page is allocated, mapped readable, writable and user at `va`, and `data` stored in it from `off` on. */
  method MapFresh(m: Machine, a: AddressSpace, va: nat, off: nat, data: seq<byte>) returns (rc: int, p: nat)
    requires a.Valid(m) && Private(m.mem, a.owned, a.t)
    modifies a`owned, a`t, m
    ensures a.Valid(m) && Private(m.mem, a.owned, a.t)
    ensures rc == 0 ==> PointUpdate(old(m.mem), m.mem, a.pml4, va, Leaf(p, RW_U))
    ensures rc == 0 ==> Aligned(p) && p !in old(m.mem) && InWindow(va) && Aligned(va)
    ensures rc == 0 ==> PageShown(old(m.mem), m.mem, a.pml4, va, Fill(ZeroPage(), off, data))
    ensures rc != 0 ==> SameWalks(old(m.mem), m.mem, a.pml4) && BytesKept(old(m.mem), m.mem, a.pml4, 0, 0)
    ensures rc != 0 && InWindow(va) && Aligned(va) ==> |a.owned| == MAX_PAGES || 0 in old(m.supply) || m.supply == []
    ensures Grown(old(m.mem), old(a.owned), old(a.t), m.mem, a.owned, a.t)
    ensures Drawn(old(m.mem), old(m.supply), m.mem, m.supply)
  {
    hide PagesOk, SupplyOk, Owns, Linked, Walk, SameWalks, Grown, TablesOwned, PointUpdate, Leaf, IsTable, Private,
      Drawn, PageShown, BytesKept, Fill, ReadsAs;
    ghost var mem0, owned0, t0, supply0 := m.mem, a.owned, a.t, m.supply;
    NoGrowth(mem0, owned0, t0);
    p := a.AllocPage(m);
    if p == 0 {
      AllKept(mem0, owned0, t0, m.mem, a.owned, a.t);
      return -1, 0;
    }
    GrownPage(mem0, owned0, t0, p);
    OwnedMore(owned0, t0, p);
    ghost var mem1, owned1, supply1 := m.mem, a.owned, m.supply;
    rc := a.MapPage(m, va, p, RW_U);
    DrawnTwice(mem0, supply0, mem1, supply1, m.mem, m.supply);
    GrownTwice(mem0, owned0, t0, mem1, owned1, t0, m.mem, a.owned, a.t);
    FrameKept(mem1, owned1, t0, m.mem, a.owned, a.t, p);
    if rc == 0 {
      ghost var mem2, row := m.mem, Fill(ZeroPage(), off, data);
      WalksThenPoint(mem0, mem1, mem2, a.pml4, va, Leaf(p, RW_U));
      Refilled(mem0, owned0, t0, mem2, a.owned, a.t, p, row);
      m.mem := m.mem[p := Fill(m.mem[p], off, data)];
      SupplySameKeys(mem2, m.mem, m.supply);
      DrawnSameKeys(mem0, supply0, mem2, m.mem, m.supply);
      PointThenWalks(mem0, mem2, m.mem, a.pml4, va, Leaf(p, RW_U));
      PrivateStep(mem0, owned0, t0, m.mem, a.owned, a.t, va, p);
      PageShows(mem0, owned0, t0, m.mem, a.owned, a.t, va, p, row);
    } else {
      SameWalksTwice(mem0, mem1, m.mem, a.pml4);
      PrivateKept(mem0, owned0, t0, m.mem, a.owned, a.t);
      AllKept(mem0, owned0, t0, m.mem, a.owned, a.t);
    }
  }

  lemma DrawnSameKeys(mem: Memory, supply: seq<nat>, mem1: Memory, mem2: Memory, supply1: seq<nat>)
    requires Drawn(mem, supply, mem1, supply1) && mem2.Keys == mem1.Keys
    ensures Drawn(mem, supply, mem2, supply1)
  {
    assert forall p :: p in mem2 <==> p in mem2.Keys;
  }

  lemma PointThenWalks(mem: Memory, mem1: Memory, mem2: Memory, pml4: nat, va: nat, e: nat)
    requires PointUpdate(mem, mem1, pml4, va, e) && SameWalks(mem1, mem2, pml4)
    ensures PointUpdate(mem, mem2, pml4, va, e)
  {
    hide Walk, Target;
  }

  lemma FrameKept(mem: Memory, owned: seq<nat>, t: Tables, mem': Memory, owned': seq<nat>, t': Tables, p: nat)
    requires Grown(mem, owned, t, mem', owned', t') && p in mem && !IsTable(t, p) && p in owned
    ensures p in mem' && mem'[p] == mem[p] && !IsTable(t', p) && p in owned'
  {
  }

  // ----- a run of pages

  /** One more page at `va` on a run that started at `lo`. */
  lemma RunStep(mem0: Memory, mem: Memory, mem': Memory, pml4: nat, lo: nat, va: nat, p: nat)
    requires SameOutside(mem0, mem, pml4, lo, va) && AllRw(mem, pml4, lo, va) && RwKept(mem0, mem, pml4)
    requires PointUpdate(mem, mem', pml4, va, Leaf(p, RW_U)) && Aligned(va) && Aligned(p)
    requires USER_BASE <= lo <= va < USER_END
    ensures SameOutside(mem0, mem', pml4, lo, va + PAGE) && AllRw(mem', pml4, lo, va + PAGE) && RwKept(mem0, mem', pml4)
  {
    hide Walk, Leaf, Rw;
    FrameLeaf(p);
    forall x: nat | InWindow(x)
      ensures Target(x) == va <==> va <= x < va + PAGE
    {
      PageStart(x);
      if va <= x < va + PAGE {
        InPage(x, va);
      }
    }
    hide Target;
    NextAligned(va, va);
  }

  /** The bytes of one more page of an image, `pos` of them having gone into the pages before it. */
  lemma ImageStep(mem0: Memory, mem: Memory, mem': Memory, pml4: nat, lo: nat, va: nat, off: nat, image: Image,
                  pos: nat, data: seq<byte>)
    requires Aligned(lo) && Aligned(va) && USER_BASE <= lo <= va < USER_END && off < PAGE && image.base == lo + off
    requires BytesKept(mem0, mem, pml4, lo, va) && Shows(mem, pml4, lo, va, image)
    requires pos == Taken(image, va) && pos + |data| == Taken(image, va + PAGE) <= |image.file|
    requires data == image.file[pos..pos + |data|]
    requires PageShown(mem, mem', pml4, va, Fill(ZeroPage(), if va == lo then off else 0, data))
    ensures BytesKept(mem0, mem', pml4, lo, va + PAGE) && Shows(mem', pml4, lo, va + PAGE, image)
  {
    hide ReadsAs, PageByte, Fill, Target;
    var start := if va == lo then off else 0;
    forall x: nat | InWindow(x)
      ensures Target(x) == va <==> va <= x < va + PAGE
    {
      PageStart(x);
      if va <= x < va + PAGE {
        InPage(x, va);
      }
    }
    NextAligned(va, va);
    forall x | lo <= x < va + PAGE
      ensures ReadsAs(mem', pml4, x) == image.At(x)
    {
      if x >= va {
        assert x % PAGE == x - va;
        FillByte(ZeroPage(), start, data, x - va);
        ZeroByte(x - va);
      }
    }
  }

  /** The bytes of the image that belong in front of `va`. */
  function Taken(image: Image, va: nat): nat {
    if va <= image.base then 0 else if image.size <= va - image.base then image.size else va - image.base
  }

  lemma RunStart(mem: Memory, pml4: nat, lo: nat, image: Image)
    ensures SameOutside(mem, mem, pml4, lo, lo) && AllRw(mem, pml4, lo, lo) && RwKept(mem, mem, pml4)
    ensures BytesKept(mem, mem, pml4, lo, lo) && Shows(mem, pml4, lo, lo, image)
  {
  }

  lemma RunStops(mem0: Memory, mem: Memory, mem': Memory, pml4: nat, lo: nat, va: nat, hi: nat)
    requires SameOutside(mem0, mem, pml4, lo, va) && RwKept(mem0, mem, pml4) && SameWalks(mem, mem', pml4) && va <= hi
    requires BytesKept(mem0, mem, pml4, lo, va) && BytesKept(mem, mem', pml4, 0, 0)
    ensures SameOutside(mem0, mem', pml4, lo, hi) && RwKept(mem0, mem', pml4) && BytesKept(mem0, mem', pml4, lo, hi)
  {
    hide Walk, Rw, ReadsAs;
  }

  lemma RunShort(mem0: Memory, mem: Memory, mem': Memory, pml4: nat, lo: nat, va: nat, hi: nat, row: Page)
    requires BytesKept(mem0, mem, pml4, lo, va) && PageShown(mem, mem', pml4, va, row) && Aligned(va)
    requires lo <= va && va + PAGE <= hi
    ensures BytesKept(mem0, mem', pml4, lo, hi)
  {
    hide ReadsAs, PageByte;
    forall x: nat | Target(x) == va
      ensures va <= x < va + PAGE
    {
      PageStart(x);
    }
  }

  /** The file holds fewer bytes than the pages of [lo, hi) are to show. */
  predicate Short(image: Image, lo: nat, hi: nat) { lo < hi && |image.file| < Taken(image, hi) }

  /** The loop of load_segment, and of SYS_SBRK with nothing to read: pages mapped over [lo, hi), showing `size` bytes
      of the file from lo + off on and zeros. Whatever happens, nothing outside changes; only running out of pages or a
      file that is too short stops it. */
  method MapRun(m: Machine, a: AddressSpace, lo: nat, hi: nat, off: nat, size: nat, file: seq<byte>) returns (ok: bool)
    requires a.Valid(m) && Private(m.mem, a.owned, a.t) && off < PAGE
    requires Aligned(lo) && Aligned(hi) && (lo < hi ==> USER_BASE <= lo && hi <= USER_END)
    modifies a`owned, a`t, m
    ensures a.Valid(m) && Private(m.mem, a.owned, a.t)
    ensures ok ==> AllRw(m.mem, a.pml4, lo, hi) && Shows(m.mem, a.pml4, lo, hi, Image(lo + off, size, file))
    ensures ok ==> !Short(Image(lo + off, size, file), lo, hi)
    ensures !ok ==>
      Short(Image(lo + off, size, file), lo, hi) || |a.owned| == MAX_PAGES || 0 in old(m.supply) || m.supply == []
    ensures SameOutside(old(m.mem), m.mem, a.pml4, lo, hi) && RwKept(old(m.mem), m.mem, a.pml4)
    ensures BytesKept(old(m.mem), m.mem, a.pml4, lo, hi)
    ensures Grown(old(m.mem), old(a.owned), old(a.t), m.mem, a.owned, a.t)
    ensures Drawn(old(m.mem), old(m.supply), m.mem, m.supply)
  {
    hide PagesOk, SupplyOk, Owns, Linked, Walk, SameWalks, Grown, TablesOwned, PointUpdate, Leaf, IsTable, Private;
    hide AllRw, Shows, BytesKept, PageShown, SameOutside, RwKept, Aligned, Drawn, Fill, ReadsAs;
    ghost var mem0, owned0, t0, supply0 := m.mem, a.owned, a.t, m.supply;
    ghost var image := Image(lo + off, size, file);
    NoGrowth(mem0, owned0, t0);
    DrawnNone(mem0, supply0);
    RunStart(mem0, a.pml4, lo, image);
    if lo >= hi {
      EmptyRun(m.mem, a.pml4, lo, hi, image);
      return true;
    }
    var va, pos := lo, 0;
    while va < hi
      invariant Aligned(va) && lo <= va <= hi && a.Valid(m) && Private(m.mem, a.owned, a.t)
      invariant AllRw(m.mem, a.pml4, lo, va) && Shows(m.mem, a.pml4, lo, va, image)
      invariant SameOutside(mem0, m.mem, a.pml4, lo, va) && RwKept(mem0, m.mem, a.pml4)
      invariant BytesKept(mem0, m.mem, a.pml4, lo, va) && pos == Taken(image, va) <= |file|
      invariant (va > lo ==> va > lo + off)
      invariant Grown(mem0, owned0, t0, m.mem, a.owned, a.t) && Drawn(mem0, supply0, m.mem, m.supply)
      invariant a.pml4 == old(a.pml4)
    {
      ghost var mem1, owned1, t1, supply1 := m.mem, a.owned, a.t, m.supply;
      NextAligned(va, hi);
      var start := if va == lo then off else 0;
      var toRead := if size - pos < PAGE - start then size - pos else PAGE - start;
      var data := file[pos..if pos + toRead <= |file| then pos + toRead else |file|];
      var rc, p := MapFresh(m, a, va, start, data);
      DrawnTwice(mem0, supply0, mem1, supply1, m.mem, m.supply);
      GrownTwice(mem0, owned0, t0, mem1, owned1, t1, m.mem, a.owned, a.t);
      if rc != 0 {
        RunStops(mem0, mem1, m.mem, a.pml4, lo, va, hi);
        return false;
      }
      RunStep(mem0, mem1, m.mem, a.pml4, lo, va, p);
      if |data| != toRead {
        RunWiden(mem0, m.mem, a.pml4, lo, va + PAGE, hi);
        RunShort(mem0, mem1, m.mem, a.pml4, lo, va, hi, Fill(ZeroPage(), start, data));
        return false;
      }
      ImageStep(mem0, mem1, m.mem, a.pml4, lo, va, off, image, pos, data);
      va, pos := va + PAGE, pos + toRead;
    }
    ok := true;
  }

  lemma RunWiden(mem: Memory, mem': Memory, pml4: nat, lo: nat, mid: nat, hi: nat)
    requires SameOutside(mem, mem', pml4, lo, mid) && mid <= hi
    ensures SameOutside(mem, mem', pml4, lo, hi)
  {
    hide Walk;
  }

  lemma EmptyRun(mem: Memory, pml4: nat, lo: nat, hi: nat, image: Image)
    requires lo >= hi
    ensures AllRw(mem, pml4, lo, hi) && Shows(mem, pml4, lo, hi, image) && SameOutside(mem, mem, pml4, lo, hi)
    ensures BytesKept(mem, mem, pml4, lo, hi)
  {
  }
}
