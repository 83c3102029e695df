/** A new process's memory as kernel/elf.c builds it: segments, stack and arguments. */
module ElfExec {
  import opened Words
  import opened Paging
  import opened Products
  import opened Vmm
  import opened UserMemory
  import opened PageBytes
  import opened Process

  const STACK_PAGES: nat := 4
  const STACK_TOP: nat := USER_END - PAGE            // the page above is the guard
  const ARGV_VA: nat := STACK_TOP - (STACK_PAGES + 1) * PAGE

  /** A program header: whether it is PT_LOAD, its 64-bit address and sizes, and where in the file its bytes start. */
  datatype Segment = Segment(load: bool, vaddr: nat, memsz: nat, filesz: nat, offset: nat) {
    predicate Is64() { vaddr < TWO64 && memsz < TWO64 && filesz < TWO64 }

    predicate Counts() { load && memsz != 0 }

    function Start(): nat { Target(vaddr) }

    /** The end rounded up to a page, modulo 2^64 as the code computes it. */
    function End(): nat { Target((vaddr + memsz + PAGE - 1) % TWO64) }

    predicate Refused() { Start() < USER_BASE || End() > USER_END || filesz > memsz }

    /** What its pages are to show. */
    function Bytes(file: seq<byte>): Image { Image(vaddr, filesz, if offset <= |file| then file[offset..] else []) }

    /** It gets the page of `x`. */
    predicate Covers(x: nat) { Counts() && Start() <= x < End() }

    /** The file ends before the last byte to be read. */
    predicate IsShort(file: seq<byte>) { Counts() && Short(Bytes(file), Start(), End()) }
  }

  /** The loader covers the whole of an accepted segment exactly when rounding its end up does not wrap. */
  lemma CoveredUnlessWrapped(s: Segment)
    requires s.Is64() && s.Counts() && !s.Refused()
    ensures s.Start() <= s.vaddr && (s.vaddr + s.memsz <= s.End() <==> s.vaddr + s.memsz + PAGE - 1 < TWO64)
  {
    PageStart(s.vaddr);
    var e := s.vaddr + s.memsz + PAGE - 1;
    PageStart(e % TWO64);
    if e < TWO64 {
      assert e % TWO64 == e;
    }
  }

  /** Such a segment exists: it is accepted and gets no page at all. */
  lemma WrappedSegmentAccepted()
    ensures var s := Segment(true, USER_BASE, TWO64 - USER_BASE, 0, 0);
      s.Is64() && s.Counts() && !s.Refused() && s.End() == 0
  {
  }

  /** Nothing is mapped from `from` to the end of the window. */
  ghost predicate EmptyAbove(mem: Memory, pml4: nat, from: nat) {
    forall x: nat :: InWindow(x) && from <= x ==> Walk(mem, pml4, x) == 0
  }

  ghost predicate SegmentMapped(mem: Memory, pml4: nat, s: Segment) {
    s.Counts() ==> !s.Refused() && AllRw(mem, pml4, s.Start(), s.End())
  }

  lemma SegmentKept(mem: Memory, mem': Memory, pml4: nat, segs: seq<Segment>)
    requires RwKept(mem, mem', pml4) && forall i :: 0 <= i < |segs| ==> SegmentMapped(mem, pml4, segs[i])
    ensures forall i :: 0 <= i < |segs| ==> SegmentMapped(mem', pml4, segs[i])
  {
    hide Walk, Rw, Target;
    forall i | 0 <= i < |segs|
      ensures SegmentMapped(mem', pml4, segs[i])
    {
      assert SegmentMapped(mem, pml4, segs[i]);
    }
  }

  // ----- what the loaded program reads

  /** The byte at `x` once the segments are loaded in order, -1 where no segment has a page. */
  ghost function Loaded(segs: seq<Segment>, file: seq<byte>, x: nat): int {
    if segs == [] then -1
    else
      var s := segs[|segs| - 1];
      if s.Covers(x) then s.Bytes(file).At(x) else Loaded(segs[..|segs| - 1], file, x)
  }

  ghost predicate AllLoaded(mem: Memory, pml4: nat, segs: seq<Segment>, file: seq<byte>) {
    forall x: nat :: InWindow(x) ==> ReadsAs(mem, pml4, x) == Loaded(segs, file, x)
  }

  /** The last segment that has a page there decides: a byte of a segment reads as that segment has it exactly when the
      last one to cover its page has the same byte there, so always if no later one does. */
  lemma {:induction false} LastDecides(segs: seq<Segment>, file: seq<byte>, x: nat, i: nat)
    requires i < |segs| && segs[i].Covers(x) && forall j :: i < j < |segs| ==> !segs[j].Covers(x)
    ensures Loaded(segs, file, x) == segs[i].Bytes(file).At(x)
  {
    if i < |segs| - 1 {
      LastDecides(segs[..|segs| - 1], file, x, i);
    }
  }

  /** Where no segment has a page nothing is mapped, and nowhere else. */
  lemma {:induction false} NoneDecides(segs: seq<Segment>, file: seq<byte>, x: nat)
    ensures Loaded(segs, file, x) == -1 <==> forall i :: 0 <= i < |segs| ==> !segs[i].Covers(x)
  {
    if segs != [] {
      var n := |segs| - 1;
      NoneDecides(segs[..n], file, x);
      assert forall i :: 0 <= i < n ==> segs[..n][i] == segs[i];
    }
  }

  /** Two accepted segments that share a page: the later one's frame hides what the earlier one had there. */
  lemma SharedPageLost(file: seq<byte>)
    requires |file| == 16 && file[0] == 0x7F
    ensures var a, b := Segment(true, USER_BASE, 16, 16, 0), Segment(true, USER_BASE + 16, 16, 0, 16);
      && a.Counts() && b.Counts() && !a.Refused() && !b.Refused() && !a.IsShort(file) && !b.IsShort(file)
      && a.vaddr + a.memsz <= b.vaddr
      && a.Bytes(file).At(USER_BASE) == 0x7F && Loaded([a, b], file, USER_BASE) == 0
  {
    var a, b := Segment(true, USER_BASE, 16, 16, 0), Segment(true, USER_BASE + 16, 16, 0, 16);
    assert b.Covers(USER_BASE);
    LastDecides([a, b], file, USER_BASE, 1);
  }

  lemma LoadedMore(mem: Memory, mem': Memory, pml4: nat, segs: seq<Segment>, s: Segment, file: seq<byte>)
    requires AllLoaded(mem, pml4, segs, file) && s.Counts() && USER_BASE <= s.Start() && s.End() <= USER_END
    requires BytesKept(mem, mem', pml4, s.Start(), s.End())
    requires Shows(mem', pml4, s.Start(), s.End(), s.Bytes(file))
    ensures AllLoaded(mem', pml4, segs + [s], file)
  {
    hide ReadsAs, Segment.Start, Segment.End, Segment.Bytes;
    assert (segs + [s])[..|segs|] == segs;
  }

  lemma LoadedSkip(mem: Memory, pml4: nat, segs: seq<Segment>, s: Segment, file: seq<byte>)
    requires AllLoaded(mem, pml4, segs, file) && !s.Counts()
    ensures AllLoaded(mem, pml4, segs + [s], file) && !s.IsShort(file)
  {
    hide ReadsAs, Segment.Start, Segment.End, Segment.Bytes;
    assert (segs + [s])[..|segs|] == segs;
  }

  lemma LoadedNone(mem: Memory, pml4: nat, file: seq<byte>)
    requires EmptyAbove(mem, pml4, USER_BASE)
    ensures AllLoaded(mem, pml4, [], file)
  {
    hide Walk;
  }

  lemma EmptyKept(mem: Memory, mem': Memory, pml4: nat, lo: nat, hi: nat, from: nat, from': nat)
    requires EmptyAbove(mem, pml4, from) && SameOutside(mem, mem', pml4, lo, hi) && from <= from' && hi <= from'
    ensures EmptyAbove(mem', pml4, from')
  {
    hide Walk;
  }

  ghost predicate OutOfPages(owned: seq<nat>, supply: seq<nat>, supply': seq<nat>) {
    |owned| == MAX_PAGES || 0 in supply || supply' == []
  }

  ghost predicate HasRefused(segs: seq<Segment>) {
    exists i :: 0 <= i < |segs| && segs[i].Counts() && segs[i].Refused()
  }

  ghost predicate HasShort(segs: seq<Segment>, file: seq<byte>) {
    exists i :: 0 <= i < |segs| && segs[i].IsShort(file)
  }

  /** The segment loop of elf_exec: every PT_LOAD segment mapped and read in, nothing mapped above the highest end. It
      fails only on a refused segment, a file that is too short, or for want of pages. */
  method LoadSegments(m: Machine, a: AddressSpace, segs: seq<Segment>, file: seq<byte>)
    returns (ok: bool, maxEnd: nat)
    requires a.Valid(m) && Private(m.mem, a.owned, a.t) && EmptyAbove(m.mem, a.pml4, USER_BASE)
    modifies a`owned, a`t, m
    ensures a.Valid(m) && Private(m.mem, a.owned, a.t) && Grown(old(m.mem), old(a.owned), old(a.t), m.mem, a.owned, a.t)
    ensures Drawn(old(m.mem), old(m.supply), m.mem, m.supply)
    ensures ok ==> forall i :: 0 <= i < |segs| ==> SegmentMapped(m.mem, a.pml4, segs[i])
    ensures ok ==> AllLoaded(m.mem, a.pml4, segs, file) && !HasShort(segs, file)
    ensures ok ==> forall i :: 0 <= i < |segs| && segs[i].Counts() ==> segs[i].End() <= maxEnd
    ensures ok ==> maxEnd == USER_BASE || exists i :: 0 <= i < |segs| && segs[i].Counts() && segs[i].End() == maxEnd
    ensures ok ==> Aligned(maxEnd) && USER_BASE <= maxEnd <= USER_END && EmptyAbove(m.mem, a.pml4, maxEnd)
    ensures !ok ==> HasRefused(segs) || HasShort(segs, file) || OutOfPages(a.owned, old(m.supply), m.supply)
  {
    hide Linked, Walk, Grown, IsTable, Private, AllRw, Shows, BytesKept, SameOutside, RwKept, Aligned, Target, PagesOk,
      SupplyOk, Owns, TablesOwned, EmptyAbove, SegmentMapped, Segment.End, Segment.Start, Segment.Bytes,
      Segment.IsShort, AllLoaded, Drawn;
    maxEnd := USER_BASE;
    BaseAligned();
    ghost var mem0, owned0, t0, supply0 := m.mem, a.owned, a.t, m.supply;
    NoGrowth(mem0, owned0, t0);
    DrawnNone(mem0, supply0);
    LoadedNone(mem0, a.pml4, file);
    for i := 0 to |segs|
      invariant a.Valid(m) && Private(m.mem, a.owned, a.t) && Grown(mem0, owned0, t0, m.mem, a.owned, a.t)
      invariant Drawn(mem0, supply0, m.mem, m.supply) && a.pml4 == old(a.pml4)
      invariant forall j :: 0 <= j < i ==> SegmentMapped(m.mem, a.pml4, segs[..i][j])
      invariant AllLoaded(m.mem, a.pml4, segs[..i], file) && forall j :: 0 <= j < i ==> !segs[j].IsShort(file)
      invariant forall j :: 0 <= j < i && segs[j].Counts() ==> segs[j].End() <= maxEnd
      invariant maxEnd == USER_BASE || exists j :: 0 <= j < i && segs[j].Counts() && segs[j].End() == maxEnd
      invariant Aligned(maxEnd) && USER_BASE <= maxEnd <= USER_END && EmptyAbove(m.mem, a.pml4, maxEnd)
    {
      var s := segs[i];
      assert segs[..i + 1] == segs[..i] + [s];
      if s.Counts() {
        if s.Refused() { return false, maxEnd; }
        ghost var mem1, owned1, t1, supply1 := m.mem, a.owned, a.t, m.supply;
        SegmentPages(s);
        SegmentBytes(s, file);
        ok := MapRun(m, a, s.Start(), s.End(), s.vaddr - s.Start(), s.filesz, s.Bytes(file).file);
        DrawnTwice(mem0, supply0, mem1, supply1, m.mem, m.supply);
        GrownTwice(mem0, owned0, t0, mem1, owned1, t1, m.mem, a.owned, a.t);
        if !ok { return; }
        SegmentKept(mem1, m.mem, a.pml4, segs[..i]);
        SegmentDone(m.mem, a.pml4, s);
        LoadedMore(mem1, m.mem, a.pml4, segs[..i], s, file);
        var end := if s.End() > maxEnd then s.End() else maxEnd;
        EmptyKept(mem1, m.mem, a.pml4, s.Start(), s.End(), maxEnd, end);
        maxEnd := end;
      } else {
        SegmentSkipped(m.mem, a.pml4, s);
        LoadedSkip(m.mem, a.pml4, segs[..i], s, file);
      }
    }
    assert segs[..|segs|] == segs;
    ok := true;
  }

  lemma BaseAligned()
    ensures Aligned(USER_BASE) && Aligned(USER_END) && Aligned(ARGV_VA) && Aligned(STACK_TOP)
  {
  }

  lemma SegmentPages(s: Segment)
    ensures Aligned(s.Start()) && Aligned(s.End())
    ensures !s.Refused() ==> USER_BASE <= s.Start() && s.End() <= USER_END
  {
    PageStart(s.vaddr);
    PageStart((s.vaddr + s.memsz + PAGE - 1) % TWO64);
  }

  lemma SegmentBytes(s: Segment, file: seq<byte>)
    requires s.Counts()
    ensures s.Start() <= s.vaddr < s.Start() + PAGE
    ensures Image(s.vaddr, s.filesz, s.Bytes(file).file) == s.Bytes(file)
    ensures s.IsShort(file) == Short(s.Bytes(file), s.Start(), s.End())
  {
    PageStart(s.vaddr);
  }

  lemma SegmentDone(mem: Memory, pml4: nat, s: Segment)
    requires !s.Refused() && AllRw(mem, pml4, s.Start(), s.End())
    ensures SegmentMapped(mem, pml4, s)
  {
  }

  lemma SegmentSkipped(mem: Memory, pml4: nat, s: Segment)
    requires !s.Counts()
    ensures SegmentMapped(mem, pml4, s)
  {
  }

  // ----- the argument page

  const MAX_ARGS: nat := 8
  const ARGS_HEADER: nat := 8 + 8 * MAX_ARGS         // sizeof(proc_args_t): the count and the pointers
  const ARGS_ROOM: nat := PAGE - ARGS_HEADER

  /** Where string `i` starts behind the header: the strings lie end to end, each with its NUL. */
  function StringAt(argv: seq<seq<byte>>, i: nat): nat
    requires i <= |argv|
  {
    if i == 0 then 0 else StringAt(argv, i - 1) + |argv[i - 1]| + 1
  }

  function Word64(page: seq<byte>, off: nat): nat
    requires off + 8 <= |page|
  {
    WordOf(page[off..off + 8])
  }

  /** What the process is to find: the count, then for each of the first `n` arguments a pointer, in its own addresses,
      to a string that is that argument; the other pointers null. */
  ghost predicate Passed(page: seq<byte>, argv: seq<seq<byte>>, n: nat) {
    && |page| == PAGE && n <= |argv| && n <= MAX_ARGS && StringAt(argv, n) <= ARGS_ROOM && Word64(page, 0) == n
    && (forall i :: 0 <= i < n ==> Word64(page, 8 + 8 * i) == ARGV_VA + ARGS_HEADER + StringAt(argv, i))
    && (forall i :: n <= i < MAX_ARGS ==> Word64(page, 8 + 8 * i) == 0)
    && (forall i :: 0 <= i < n ==> StringHeld(page, argv, i))
  }

  ghost predicate StringHeld(page: seq<byte>, argv: seq<seq<byte>>, i: nat)
    requires i < |argv|
  {
    var off := ARGS_HEADER + StringAt(argv, i);
    off + |argv[i]| < |page| && page[off..off + |argv[i]| + 1] == argv[i] + [0]
  }

  /** As many as there are places for and as fit the page, in order. */
  ghost predicate AllThatFit(argv: seq<seq<byte>>, n: nat) {
    n <= |argv| && (n == |argv| || n == MAX_ARGS || StringAt(argv, n + 1) > ARGS_ROOM)
  }

  function Put(page: seq<byte>, off: nat, data: seq<byte>): (r: seq<byte>)
    requires off + |data| <= |page|
    ensures |r| == |page| && r[off..off + |data|] == data
    ensures forall k :: 0 <= k < |page| && !(off <= k < off + |data|) ==> r[k] == page[k]
  {
    page[..off] + data + page[off + |data|..]
  }

  lemma PutApart(page: seq<byte>, off: nat, data: seq<byte>, lo: nat, hi: nat)
    requires off + |data| <= |page| && lo <= hi <= |page| && (hi <= off || off + |data| <= lo)
    ensures Put(page, off, data)[lo..hi] == page[lo..hi]
  {
  }

  lemma {:induction false} StringsGrow(argv: seq<seq<byte>>, i: nat, n: nat)
    requires i < n <= |argv|
    ensures StringAt(argv, i) + |argv[i]| + 1 <= StringAt(argv, n)
  {
    if i + 1 < n {
      StringsGrow(argv, i, n - 1);
    }
  }

  /** The pointers and strings written so far, the rest of the header still zero. */
  ghost predicate Written(page: seq<byte>, argv: seq<seq<byte>>, n: nat) {
    && |page| == PAGE && n <= |argv| && n <= MAX_ARGS && StringAt(argv, n) <= ARGS_ROOM
    && (forall i :: 0 <= i < n ==> Word64(page, 8 + 8 * i) == ARGV_VA + ARGS_HEADER + StringAt(argv, i))
    && (forall i :: 0 <= i < n ==> StringHeld(page, argv, i))
  }

  /** A word of the header behind the pointers written so far, or the count. */
  lemma WrittenHeader(page: seq<byte>, argv: seq<seq<byte>>, n: nat, off: nat, w: nat)
    requires Written(page, argv, n) && w < TWO64 && (off == 0 || 8 + 8 * n <= off) && off + 8 <= ARGS_HEADER
    ensures Written(Put(page, off, WordBytes(w)), argv, n) && Word64(Put(page, off, WordBytes(w)), off) == w
    ensures forall o: nat :: o + 8 <= ARGS_HEADER && (o + 8 <= off || off + 8 <= o) ==>
      Word64(Put(page, off, WordBytes(w)), o) == Word64(page, o)
  {
    var page' := Put(page, off, WordBytes(w));
    WordBack(w);
    hide Put, WordBytes, WordOf;
    forall i | 0 <= i < n
      ensures Word64(page', 8 + 8 * i) == Word64(page, 8 + 8 * i) && StringHeld(page', argv, i)
    {
      var at := ARGS_HEADER + StringAt(argv, i);
      assert StringHeld(page, argv, i);
      PutApart(page, off, WordBytes(w), 8 + 8 * i, 16 + 8 * i);
      PutApart(page, off, WordBytes(w), at, at + |argv[i]| + 1);
    }
    forall o: nat | o + 8 <= ARGS_HEADER && (o + 8 <= off || off + 8 <= o)
      ensures Word64(page', o) == Word64(page, o)
    {
      PutApart(page, off, WordBytes(w), o, o + 8);
    }
  }

  /** One more string, its pointer still missing. */
  lemma StringPut(page: seq<byte>, argv: seq<seq<byte>>, n: nat)
    requires Written(page, argv, n) && n < |argv| && n < MAX_ARGS && StringAt(argv, n + 1) <= ARGS_ROOM
    ensures var off := ARGS_HEADER + StringAt(argv, n);
      && off + |argv[n]| < PAGE && Written(Put(page, off, argv[n] + [0]), argv, n)
      && StringHeld(Put(page, off, argv[n] + [0]), argv, n)
  {
    var off := ARGS_HEADER + StringAt(argv, n);
    hide Put, WordOf;
    forall i | 0 <= i < n
      ensures Word64(Put(page, off, argv[n] + [0]), 8 + 8 * i) == Word64(page, 8 + 8 * i)
      ensures StringHeld(Put(page, off, argv[n] + [0]), argv, i)
    {
      var at := ARGS_HEADER + StringAt(argv, i);
      StringsGrow(argv, i, n);
      assert StringHeld(page, argv, i);
      PutApart(page, off, argv[n] + [0], 8 + 8 * i, 16 + 8 * i);
      PutApart(page, off, argv[n] + [0], at, at + |argv[i]| + 1);
    }
  }

  /** Its pointer. */
  lemma PointerPut(page: seq<byte>, argv: seq<seq<byte>>, n: nat)
    requires Written(page, argv, n) && n < |argv| && n < MAX_ARGS && StringAt(argv, n + 1) <= ARGS_ROOM
    requires StringHeld(page, argv, n)
    ensures Written(Put(page, 8 + 8 * n, WordBytes(ARGV_VA + ARGS_HEADER + StringAt(argv, n))), argv, n + 1)
  {
    hide Put, WordBytes, WordOf, Word64;
    var w, at := ARGV_VA + ARGS_HEADER + StringAt(argv, n), ARGS_HEADER + StringAt(argv, n);
    WrittenHeader(page, argv, n, 8 + 8 * n, w);
    PutApart(page, 8 + 8 * n, WordBytes(w), at, at + |argv[n]| + 1);
  }

  /** The argument page as elf_exec builds it, from a page of zeros. */
  method BuildArgs(argv: seq<seq<byte>>) returns (page: seq<byte>, copied: nat)
    ensures Passed(page, argv, copied) && AllThatFit(argv, copied)
  {
    hide Put, WordBytes, WordOf, StringHeld, Word64;
    var argc := if |argv| > MAX_ARGS then MAX_ARGS else |argv|;
    page := seq(PAGE, _ => 0);
    copied := 0;
    var strOff := 0;
    while copied < argc
      invariant 0 <= copied <= argc && strOff == StringAt(argv, copied) && Written(page, argv, copied)
    {
      if strOff + |argv[copied]| + 1 > ARGS_ROOM { break; }
      StringPut(page, argv, copied);
      page := Put(page, ARGS_HEADER + strOff, argv[copied] + [0]);
      PointerPut(page, argv, copied);
      page := Put(page, 8 + 8 * copied, WordBytes(ARGV_VA + ARGS_HEADER + strOff));
      strOff := strOff + |argv[copied]| + 1;
      copied := copied + 1;
    }
    WrittenHeader(page, argv, copied, 0, copied);
    page := Put(page, 0, WordBytes(copied));
    for i := copied to MAX_ARGS
      invariant Written(page, argv, copied) && Word64(page, 0) == copied
      invariant forall j :: copied <= j < i ==> Word64(page, 8 + 8 * j) == 0
    {
      WrittenHeader(page, argv, copied, 8 + 8 * i, 0);
      page := Put(page, 8 + 8 * i, WordBytes(0));
    }
  }

  // ----- the stack

  /** One more page below a run that ends at `hi`. */
  lemma RunStepDown(mem0: Memory, mem: Memory, mem': Memory, pml4: nat, va: nat, hi: nat, p: nat)
    requires SameOutside(mem0, mem, pml4, va + PAGE, hi) && AllRw(mem, pml4, va + PAGE, hi) && RwKept(mem0, mem, pml4)
    requires PointUpdate(mem, mem', pml4, va, Leaf(p, RW_U)) && Aligned(va) && Aligned(p)
    requires USER_BASE <= va && va + PAGE <= hi <= USER_END
    ensures SameOutside(mem0, mem', pml4, va, hi) && AllRw(mem', pml4, va, hi) && RwKept(mem0, mem', pml4)
  {
    hide Walk, Leaf, Rw;
    FrameLeaf(p);
    PageIsRange(va);
    hide Target;
  }

  lemma PageIsRange(va: nat)
    requires Aligned(va)
    ensures forall x: nat :: Target(x) == va <==> va <= x < va + PAGE
  {
    forall x: nat
      ensures Target(x) == va <==> va <= x < va + PAGE
    {
      PageStart(x);
      if va <= x < va + PAGE {
        InPage(x, va);
      }
    }
  }

  /** Its bytes: those of `data` and zeros, the bytes above as they were. */
  lemma BytesStepDown(mem0: Memory, mem: Memory, mem': Memory, pml4: nat, va: nat, hi: nat, data: seq<byte>)
    requires BytesKept(mem0, mem, pml4, va + PAGE, hi) && Shows(mem, pml4, va + PAGE, hi, Zeros) && Aligned(va)
    requires PageShown(mem, mem', pml4, va, Fill(ZeroPage(), 0, data))
    requires USER_BASE <= va && va + PAGE <= hi <= USER_END
    ensures BytesKept(mem0, mem', pml4, va, hi) && Shows(mem', pml4, va + PAGE, hi, Zeros)
    ensures Shows(mem', pml4, va, va + PAGE, Image(va, |data|, data))
    ensures data == [] ==> Shows(mem', pml4, va, hi, Zeros)
  {
    hide ReadsAs, PageByte, Fill;
    PageIsRange(va);
    hide Target;
    forall x: nat | va <= x < va + PAGE
      ensures ReadsAs(mem', pml4, x) == if x - va < |data| then data[x - va] else 0
    {
      assert x % PAGE == x - va;
      FillByte(ZeroPage(), 0, data, x - va);
      ZeroByte(x - va);
    }
  }

  /** The stack's pages from the top down, zeroed, and the argument page directly below them. */
  method MapStack(m: Machine, a: AddressSpace, args: seq<byte>) returns (ok: bool)
    requires a.Valid(m) && Private(m.mem, a.owned, a.t)
    modifies a`owned, a`t, m
    ensures a.Valid(m) && Private(m.mem, a.owned, a.t) && Grown(old(m.mem), old(a.owned), old(a.t), m.mem, a.owned, a.t)
    ensures Drawn(old(m.mem), old(m.supply), m.mem, m.supply)
    ensures ok ==> AllRw(m.mem, a.pml4, ARGV_VA, STACK_TOP)
    ensures ok ==> SameOutside(old(m.mem), m.mem, a.pml4, ARGV_VA, STACK_TOP) && RwKept(old(m.mem), m.mem, a.pml4)
    ensures ok ==> BytesKept(old(m.mem), m.mem, a.pml4, ARGV_VA, STACK_TOP)
    ensures ok ==> Shows(m.mem, a.pml4, ARGV_VA + PAGE, STACK_TOP, Zeros)
    ensures ok ==> Shows(m.mem, a.pml4, ARGV_VA, ARGV_VA + PAGE, Image(ARGV_VA, |args|, args))
    ensures !ok ==> OutOfPages(a.owned, old(m.supply), m.supply)
  {
    hide Linked, Walk, Grown, IsTable, Private, AllRw, Shows, BytesKept, PageShown, SameOutside, RwKept, Target,
      PagesOk, SupplyOk, Owns, TablesOwned, PointUpdate, Leaf, SameWalks, Drawn, Fill;
    ghost var mem0, owned0, t0, supply0 := m.mem, a.owned, a.t, m.supply;
    NoGrowth(mem0, owned0, t0);
    DrawnNone(mem0, supply0);
    RunStart(mem0, a.pml4, STACK_TOP, Zeros);
    for i := 0 to STACK_PAGES + 1
      invariant a.Valid(m) && Private(m.mem, a.owned, a.t) && Grown(mem0, owned0, t0, m.mem, a.owned, a.t)
      invariant Drawn(mem0, supply0, m.mem, m.supply) && a.pml4 == old(a.pml4)
      invariant AllRw(m.mem, a.pml4, STACK_TOP - i * PAGE, STACK_TOP)
      invariant SameOutside(mem0, m.mem, a.pml4, STACK_TOP - i * PAGE, STACK_TOP) && RwKept(mem0, m.mem, a.pml4)
      invariant BytesKept(mem0, m.mem, a.pml4, STACK_TOP - i * PAGE, STACK_TOP)
      invariant i <= STACK_PAGES ==> Shows(m.mem, a.pml4, STACK_TOP - i * PAGE, STACK_TOP, Zeros)
      invariant i > STACK_PAGES ==>
        && Shows(m.mem, a.pml4, ARGV_VA + PAGE, STACK_TOP, Zeros)
        && Shows(m.mem, a.pml4, ARGV_VA, ARGV_VA + PAGE, Image(ARGV_VA, |args|, args))
    {
      var va := STACK_TOP - (i + 1) * PAGE;
      var data := if i < STACK_PAGES then [] else args;
      ghost var mem1, owned1, t1, supply1 := m.mem, a.owned, a.t, m.supply;
      var rc, p := MapFresh(m, a, va, 0, data);
      DrawnTwice(mem0, supply0, mem1, supply1, m.mem, m.supply);
      GrownTwice(mem0, owned0, t0, mem1, owned1, t1, m.mem, a.owned, a.t);
      if rc != 0 { return false; }
      assert va + PAGE == STACK_TOP - i * PAGE;
      RunStepDown(mem0, mem1, m.mem, a.pml4, va, STACK_TOP, p);
      BytesStepDown(mem0, mem1, m.mem, a.pml4, va, STACK_TOP, data);
    }
    ok := true;
  }

  // ----- elf_exec

  /** Every byte of the window as a started process reads it: its arguments, a zeroed stack, its segments, and nothing
      else. */
  ghost predicate Started(mem: Memory, pml4: nat, segs: seq<Segment>, file: seq<byte>, args: seq<byte>) {
    |args| == PAGE && forall x: nat :: InWindow(x) ==>
      ReadsAs(mem, pml4, x) ==
        if ARGV_VA <= x < ARGV_VA + PAGE then args[x - ARGV_VA]
        else if ARGV_VA + PAGE <= x < STACK_TOP then 0
        else Loaded(segs, file, x)
  }

  lemma StartedOne(mem: Memory, mem': Memory, pml4: nat, segs: seq<Segment>, file: seq<byte>, args: seq<byte>)
    requires AllLoaded(mem, pml4, segs, file) && BytesKept(mem, mem', pml4, ARGV_VA, STACK_TOP) && |args| == PAGE
    requires Shows(mem', pml4, ARGV_VA + PAGE, STACK_TOP, Zeros)
    requires Shows(mem', pml4, ARGV_VA, ARGV_VA + PAGE, Image(ARGV_VA, |args|, args))
    ensures Started(mem', pml4, segs, file, args)
  {
    hide ReadsAs, Loaded;
  }

  ghost predicate ReadsWord(mem: Memory, pml4: nat, x: nat, w: nat) {
    forall j :: 0 <= j < 8 ==> ReadsAs(mem, pml4, x + j) == ByteOf(w, j)
  }

  /** What a started process finds at the address it is handed: the count, and behind pointer `i` the `i`-th argument,
      byte for byte up to its NUL. */
  lemma ArgumentRead(mem: Memory, pml4: nat, segs: seq<Segment>, file: seq<byte>, args: seq<byte>,
                     argv: seq<seq<byte>>, n: nat, i: nat)
    requires Started(mem, pml4, segs, file, args) && Passed(args, argv, n) && i < n
    ensures ReadsWord(mem, pml4, ARGV_VA, n)
    ensures var p := ARGV_VA + ARGS_HEADER + StringAt(argv, i);
      && ReadsWord(mem, pml4, ARGV_VA + 8 + 8 * i, p) && p + |argv[i]| < ARGV_VA + PAGE
      && forall k :: 0 <= k <= |argv[i]| ==> ReadsAs(mem, pml4, p + k) == (argv[i] + [0])[k]
  {
    hide ReadsAs, Loaded, WordOf, ByteOf;
    ArgsWord(mem, pml4, segs, file, args, 0);
    ArgsWord(mem, pml4, segs, file, args, 8 + 8 * i);
    var off := ARGS_HEADER + StringAt(argv, i);
    assert StringHeld(args, argv, i);
    forall k | 0 <= k <= |argv[i]|
      ensures ReadsAs(mem, pml4, ARGV_VA + off + k) == (argv[i] + [0])[k]
    {
      assert args[off..off + |argv[i]| + 1][k] == args[off + k];
    }
  }

  lemma ArgsWord(mem: Memory, pml4: nat, segs: seq<Segment>, file: seq<byte>, args: seq<byte>, off: nat)
    requires Started(mem, pml4, segs, file, args) && off + 8 <= PAGE
    ensures ReadsWord(mem, pml4, ARGV_VA + off, Word64(args, off))
  {
    hide ReadsAs, Loaded, WordOf, ByteOf;
    forall j | 0 <= j < 8
      ensures ReadsAs(mem, pml4, ARGV_VA + off + j) == ByteOf(Word64(args, off), j)
    {
      ByteOfWord(args[off..off + 8], j);
    }
  }

  /** elf_exec from the program headers on, `structOk` and `submitOk` being whether the address-space record and the
      task slot are to be had. A started task reads its segments, its stack and its arguments, and nothing else, all on
      frames of its own; if no segment reaches past the argument page then everything between the last segment and that
      page is free for the heap, and so is the guard page. A failed one leaves memory exactly as it was. */
  method Exec(m: Machine, segs: seq<Segment>, file: seq<byte>, entry: nat, argv: seq<seq<byte>>, structOk: bool,
              submitOk: bool) returns (task: Task?, ghost args: seq<byte>, ghost argc: nat)
    requires m.Valid() && MASTER_PDPT in m.mem
    modifies m
    ensures m.Valid() && Drawn(old(m.mem), old(m.supply), m.mem, m.supply)
    ensures task == null ==> m.mem == old(m.mem)
    ensures task != null ==> structOk && submitOk && !HasRefused(segs) && !HasShort(segs, file)
    ensures task != null ==> fresh(task) && task.space != null && fresh(task.space)
    ensures task != null ==> task.Valid(m) && InWindow(entry) && NewOnly(old(m.mem), m.mem, task.space.owned)
    ensures task != null ==> task.heapBrk == task.heapStart && task.heapEnd == ARGV_VA
    ensures task != null ==> forall i :: 0 <= i < |segs| ==> SegmentMapped(m.mem, task.space.pml4, segs[i])
    ensures task != null ==> forall i :: 0 <= i < |segs| && segs[i].Counts() ==> segs[i].End() <= task.heapStart
    ensures task != null ==> AllRw(m.mem, task.space.pml4, ARGV_VA, STACK_TOP)
    ensures task != null ==> Started(m.mem, task.space.pml4, segs, file, args)
    ensures task != null ==> Passed(args, argv, argc) && AllThatFit(argv, argc)
    ensures task != null && task.heapStart <= ARGV_VA ==>
      Free(m.mem, task.space.pml4, task.heapStart, ARGV_VA) && Free(m.mem, task.space.pml4, STACK_TOP, USER_END)
  {
    hide Linked, Walk, Grown, IsTable, Private, AllRw, SameOutside, RwKept, Target, PagesOk, SupplyOk, Owns,
      TablesOwned, EmptyAbove, SegmentMapped, Segment.End, Segment.Start, NewOnly, WindowEmpty, Free, CanTake, Set,
      HasRefused, HasShort, Aligned, HeapOk, Entry, Drawn, Shows, BytesKept, AllLoaded, Started, Passed, AllThatFit;
    task, args, argc := null, [], 0;
    ghost var mem0, supply0 := m.mem, m.supply;
    var a := AddressSpace.Create(m, structOk);
    if a == null { return; }
    ghost var supply1 := m.supply;
    FreshSpace(m.mem, a.owned, a.t);
    ghost var mem1, owned1, t1 := m.mem, a.owned, a.t;
    var ok, maxEnd := LoadSegments(m, a, segs, file);
    DrawnTwice(mem0, supply0, mem1, supply1, m.mem, m.supply);
    NewOnlyGrown(mem0, mem1, owned1, t1, m.mem, a.owned, a.t);
    if ok && InWindow(entry) {
      NoneRefused(m.mem, a.pml4, segs);
      ghost var mem2, owned2, t2, supply2 := m.mem, a.owned, a.t, m.supply;
      var page, copied := BuildArgs(argv);
      args, argc := page, copied;
      PassedPage(args, argv, argc);
      ok := MapStack(m, a, page);
      DrawnTwice(mem0, supply0, mem2, supply2, m.mem, m.supply);
      NewOnlyGrown(mem0, mem2, owned2, t2, m.mem, a.owned, a.t);
      if ok && submitOk {
        SegmentKept(mem2, m.mem, a.pml4, segs);
        Layout(mem2, m.mem, a.pml4, maxEnd);
        StartedOne(mem2, m.mem, a.pml4, segs, file, args);
        task := new Task(a, maxEnd, ARGV_VA);
        return;
      }
    }
    RemoveNew(mem0, m.mem, a.owned);
    DrawnKept(mem0, supply0, m.mem, mem0, m.supply);
    a.Destroy(m);
  }

  lemma PassedPage(page: seq<byte>, argv: seq<seq<byte>>, n: nat)
    requires Passed(page, argv, n)
    ensures |page| == PAGE
  {
  }

  /** A new address space maps nothing, so it is private. */
  lemma FreshSpace(mem: Memory, owned: seq<nat>, t: Tables)
    requires WindowEmpty(mem, t.pml4)
    ensures Private(mem, owned, t) && EmptyAbove(mem, t.pml4, USER_BASE)
  {
    hide Walk;
  }

  lemma NoneRefused(mem: Memory, pml4: nat, segs: seq<Segment>)
    requires forall i :: 0 <= i < |segs| ==> SegmentMapped(mem, pml4, segs[i])
    ensures !HasRefused(segs)
  {
  }

  lemma Layout(mem: Memory, mem': Memory, pml4: nat, maxEnd: nat)
    requires EmptyAbove(mem, pml4, maxEnd) && SameOutside(mem, mem', pml4, ARGV_VA, STACK_TOP)
    requires Aligned(maxEnd) && USER_BASE <= maxEnd <= USER_END
    ensures HeapOk(mem', pml4, maxEnd, maxEnd, ARGV_VA)
    ensures maxEnd <= ARGV_VA ==> Free(mem', pml4, maxEnd, ARGV_VA) && Free(mem', pml4, STACK_TOP, USER_END)
  {
    hide Walk;
    BaseAligned();
  }

  ghost predicate Free(mem: Memory, pml4: nat, lo: nat, hi: nat) {
    forall x: nat :: InWindow(x) && lo <= x < hi ==> Walk(mem, pml4, x) == 0
  }
}
