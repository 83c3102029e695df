/** Which user pointers the kernel may dereference (cpu/vmm.c, cpu/paging.c), in 64-bit arithmetic. */
module UserRange {
  import opened Words
  import opened Paging
  import opened Products

  /** A byte at `x` is backed by a page the process may touch. */
  predicate UserByte(mem: Memory, pml4: nat, x: nat) { Present(Walk(mem, pml4, x)) && User(Walk(mem, pml4, x)) }

  ghost predicate AllUser(mem: Memory, pml4: nat, lo: nat, hi: nat) {
    forall x :: lo <= x < hi ==> UserByte(mem, pml4, x)
  }

  lemma ByPage(mem: Memory, pml4: nat, x: nat)
    ensures Walk(mem, pml4, Target(x)) == Walk(mem, pml4, x)
  {
    PageStart(x);
    GigOf(x);
  }

  lemma GigOf(x: nat)
    ensures PdptIndex(Target(x)) == PdptIndex(x)
  {
    var k := x / PAGE;
    var g, r := k / 0x4_0000, k % 0x4_0000;
    assert x == k * PAGE + x % PAGE && k == g * 0x4_0000 + r;
    RowIndex(g, r * PAGE, 0x4000_0000);
    RowIndex(g, r * PAGE + x % PAGE, 0x4000_0000);
  }

  lemma PageBeyond()
    ensures PdptIndex(USER_END) == 2
  {
  }

  /** vmm_range_mapped wraps modulo 2^64 without noticing; this is when the wrapped end lies in the page of `va`. */
  predicate WrapsToSamePage(va: nat, len: nat) { va + len > TWO64 && Target(va + len - TWO64 - 1) == Target(va) }

  /** The `k`-th page looked at, in 64-bit arithmetic, and how many follow the first. */
  function PageAt(va: nat, k: nat): nat { (Target(va) + k * PAGE) % TWO64 }

  function Span(va: nat, len: nat): nat
    requires len > 0
  {
    (Target((va + len - 1) % TWO64) - Target(va)) % TWO64 / PAGE
  }

  ghost predicate PagesUser(mem: Memory, pml4: nat, va: nat, len: nat)
    requires len > 0
  {
    forall k: nat :: k <= Span(va, len) ==> UserByte(mem, pml4, PageAt(va, k))
  }

  /** vmm_range_mapped, for every 64-bit pointer and length: the bounds test on the wrapped end, then every page from
      the first to the last, around the end of the address space if need be. */
  method RangeMapped(mem: Memory, pml4: nat, va: nat, len: nat) returns (r: bool)
    requires va < TWO64 && len < TWO64
    ensures r <==> len == 0 || (USER_BASE <= va && (va + len) % TWO64 <= USER_END && PagesUser(mem, pml4, va, len))
  {
    hide Target, UserByte, Walk, PdptIndex, PdIndex, PtIndex, Entry, PageAt, Span;
    if len == 0 { return true; }
    if va < USER_BASE || (va + len) % TWO64 > USER_END { return false; }
    var last := Target((va + len - 1) % TWO64);
    var page := Target(va);
    FirstPage(va, len);
    var e0 := Entry(mem, pml4, 0);
    if !Present(e0) {
      ByLevels(mem, pml4, page);
      assert !UserByte(mem, pml4, PageAt(va, 0));
      return false;
    }
    var pdpt := Target(e0);
    ghost var k := 0;
    while true
      invariant page == PageAt(va, k) && k <= Span(va, len)
      invariant forall j: nat :: j < k ==> UserByte(mem, pml4, PageAt(va, j))
      decreases Span(va, len) - k
    {
      var e1 := Entry(mem, pdpt, PdptIndex(page));
      var e2 := Entry(mem, Target(e1), PdIndex(page));
      var e3 := Entry(mem, Target(e2), PtIndex(page));
      ByLevels(mem, pml4, page);
      if !Present(e1) || !Present(e2) || !Present(e3) || !User(e3) { return false; }
      PageNext(va, k);
      PageLast(va, len, k);
      if page == last { break; }
      page := (page + PAGE) % TWO64;
      k := k + 1;
    }
    r := true;
  }

  lemma FirstPage(va: nat, len: nat)
    requires va < TWO64 && 0 < len
    ensures PageAt(va, 0) == Target(va) && 0 <= Span(va, len)
  {
    PageStart(va);
  }

  lemma TargetBelow(x: nat)
    requires x < TWO64
    ensures Target(x) + PAGE <= TWO64 && Target(x) == x / PAGE * PAGE
  {
    var k, n := x / PAGE, TWO64 / PAGE;
    assert k < n;
    RowOrder(k, n, PAGE);
  }

  lemma PageNext(va: nat, k: nat)
    ensures (PageAt(va, k) + PAGE) % TWO64 == PageAt(va, k + 1)
  {
  }

  /** The last page is reached after `Span` steps and no sooner. */
  lemma PageLast(va: nat, len: nat, k: nat)
    requires va < TWO64 && 0 < len && k <= Span(va, len)
    ensures PageAt(va, k) == Target((va + len - 1) % TWO64) <==> k == Span(va, len)
  {
    var first, last := Target(va), Target((va + len - 1) % TWO64);
    TargetBelow(va);
    TargetBelow((va + len - 1) % TWO64);
    var a, b := va / PAGE, (va + len - 1) % TWO64 / PAGE;
    var n := Span(va, len);
    assert n == if a <= b then b - a else b - a + TWO64 / PAGE;
  }

  // ----- what the page checks mean for the bytes

  /** Short of wrapping, every page of the range is the process's exactly when every byte is. */
  lemma UnwrappedBytes(mem: Memory, pml4: nat, va: nat, len: nat)
    requires 0 < len && va + len < TWO64
    ensures PagesUser(mem, pml4, va, len) <==> AllUser(mem, pml4, va, va + len)
  {
    hide UserByte, PageAt, Span;
    if PagesUser(mem, pml4, va, len) {
      forall x | va <= x < va + len ensures UserByte(mem, pml4, x) {
        ByteOnPage(mem, pml4, va, len, x);
      }
    }
    if AllUser(mem, pml4, va, va + len) {
      forall k: nat | k <= Span(va, len) ensures UserByte(mem, pml4, PageAt(va, k)) {
        var x := PageInRange(va, len, k);
        PageDecides(mem, pml4, x);
      }
    }
  }

  lemma PageDecides(mem: Memory, pml4: nat, x: nat)
    ensures UserByte(mem, pml4, Target(x)) == UserByte(mem, pml4, x)
  {
    hide Walk;
    ByPage(mem, pml4, x);
  }

  lemma ByteOnPage(mem: Memory, pml4: nat, va: nat, len: nat, x: nat)
    requires 0 < len && va + len < TWO64 && va <= x < va + len && PagesUser(mem, pml4, va, len)
    ensures UserByte(mem, pml4, x)
  {
    hide UserByte;
    var k := x / PAGE - va / PAGE;
    TargetBelow(va);
    TargetBelow(x);
    TargetBelow(va + len - 1);
    assert Span(va, len) == (va + len - 1) / PAGE - va / PAGE;
    assert PageAt(va, k) == Target(x);
    PageDecides(mem, pml4, x);
  }

  lemma PageInRange(va: nat, len: nat, k: nat) returns (x: nat)
    requires 0 < len && va + len < TWO64 && k <= Span(va, len)
    ensures va <= x < va + len && Target(x) == PageAt(va, k)
  {
    TargetBelow(va);
    TargetBelow(va + len - 1);
    var first, last := va / PAGE, (va + len - 1) / PAGE;
    assert Span(va, len) == last - first;
    x := if k == 0 then va else (first + k) * PAGE;
    assert x / PAGE == first + k;
    TargetBelow(x);
  }

  /** A range that starts in the window and wraps is refused, as long as the gigabyte behind the window is not mapped,
      unless its end wraps into the page it starts in. */
  lemma WrappedRefused(mem: Memory, pml4: nat, va: nat, len: nat)
    requires InWindow(va) && len < TWO64 <= va + len && (va + len) % TWO64 <= USER_END
    requires !Present(Entry(mem, Target(Entry(mem, pml4, 0)), 2))
    ensures PagesUser(mem, pml4, va, len) <==> WrapsToSamePage(va, len) && UserByte(mem, pml4, va)
  {
    hide UserByte, Entry;
    var e := (va + len - 1) % TWO64;
    TargetBelow(va);
    TargetBelow(e);
    PageDecides(mem, pml4, va);
    if WrapsToSamePage(va, len) {
      assert e == va + len - TWO64 - 1 && Span(va, len) == 0 && PageAt(va, 0) == Target(va);
    } else {
      var k := USER_END / PAGE - va / PAGE;
      assert PageAt(va, k) == USER_END;
      assert e / PAGE != va / PAGE;
      assert k <= Span(va, len);
      PageBeyond();
      ByLevels(mem, pml4, USER_END);
    }
  }

  /** A range that starts behind the window and passes the bounds test wraps, so the last page of the address space is
      among those looked at; it is refused as long as the last gigabyte of the PDPT is not mapped. */
  lemma HighRefused(mem: Memory, pml4: nat, va: nat, len: nat)
    requires USER_END <= va < TWO64 && 0 < len < TWO64 && (va + len) % TWO64 <= USER_END
    requires !Present(Entry(mem, Target(Entry(mem, pml4, 0)), ENTRIES - 1))
    ensures !PagesUser(mem, pml4, va, len)
  {
    hide UserByte, Entry;
    var top := TWO64 - PAGE;
    var e := (va + len - 1) % TWO64;
    TargetBelow(va);
    TargetBelow(e);
    var k := top / PAGE - va / PAGE;
    assert va + len >= TWO64 && PageAt(va, k) == top;
    assert k <= Span(va, len) by {
      if va + len == TWO64 {
        assert e / PAGE == top / PAGE;
      } else {
        assert e < USER_END && e / PAGE < va / PAGE;
      }
    }
    assert PdptIndex(top) == ENTRIES - 1;
    ByLevels(mem, pml4, top);
  }

  /** What vmm_range_mapped answers on an address space this driver builds: besides the ranges whose bytes are all the
      process's, it lets through exactly those that wrap into the page they start in. */
  lemma PassesInOwnSpace(mem: Memory, t: Tables, va: nat, len: nat)
    requires Linked(mem, t) && va < TWO64 && 0 < len < TWO64
    ensures USER_BASE <= va && (va + len) % TWO64 <= USER_END && PagesUser(mem, t.pml4, va, len)
       <==> InWindow(va) &&
            if va + len <= USER_END then AllUser(mem, t.pml4, va, va + len)
            else WrapsToSamePage(va, len) && UserByte(mem, t.pml4, va)
  {
    hide UserByte, PagesUser, AllUser, Target, PdptIndex, Present;
    EntryPdpt(mem, t);
    hide Linked, Entry;
    if va + len < TWO64 {
      UnwrappedBytes(mem, t.pml4, va, len);
    } else if InWindow(va) {
      if WrapsToSamePage(va, len) { WrapStaysLow(va, len); }
      if (va + len) % TWO64 <= USER_END {
        WrappedRefused(mem, t.pml4, va, len);
      }
    } else if USER_END <= va && (va + len) % TWO64 <= USER_END {
      HighRefused(mem, t.pml4, va, len);
    }
  }

  lemma EntryPdpt(mem: Memory, t: Tables)
    requires Linked(mem, t)
    ensures var pdpt := Target(Entry(mem, t.pml4, 0));
      !Present(Entry(mem, pdpt, 2)) && !Present(Entry(mem, pdpt, ENTRIES - 1))
  {
    Points(t.pdpt);
  }

  lemma WrapStaysLow(va: nat, len: nat)
    requires InWindow(va) && len < TWO64 <= va + len && WrapsToSamePage(va, len)
    ensures (va + len) % TWO64 <= USER_END
  {
    PageStart(va);
    PageStart(va + len - TWO64 - 1);
  }

  lemma ByLevels(mem: Memory, pml4: nat, page: nat)
    ensures var e0 := Entry(mem, pml4, 0);
      var e1 := Entry(mem, Target(e0), PdptIndex(page));
      var e2 := Entry(mem, Target(e1), PdIndex(page));
      var e3 := Entry(mem, Target(e2), PtIndex(page));
      UserByte(mem, pml4, page) <==> Present(e0) && Present(e1) && Present(e2) && Present(e3) && User(e3)
  {
    hide Entry, Target, PdptIndex, PdIndex, PtIndex;
  }

  /** What the processor lets user code touch: present and user at every level of the walk, for a write also
      writable. */
  predicate HardwareAllows(mem: Memory, pml4: nat, x: nat, write: bool) {
    var e0 := Entry(mem, pml4, 0);
    var e1 := Entry(mem, Target(e0), PdptIndex(x));
    var e2 := Entry(mem, Target(e1), PdIndex(x));
    var e3 := Entry(mem, Target(e2), PtIndex(x));
    Allows(e0, write) && Allows(e1, write) && Allows(e2, write) && Allows(e3, write)
  }

  predicate Allows(e: nat, write: bool) { Present(e) && User(e) && (write ==> Writable(e)) }

  /** In an address space this driver builds, the leaf alone decides: the check is what the processor does. */
  lemma LeafDecides(mem: Memory, t: Tables, x: nat)
    requires Linked(mem, t) && InWindow(x)
    ensures HardwareAllows(mem, t.pml4, x, false) <==> UserByte(mem, t.pml4, x)
    ensures HardwareAllows(mem, t.pml4, x, true) <==> UserByte(mem, t.pml4, x) && Writable(Walk(mem, t.pml4, x))
  {
    WalkLinked(mem, t, x);
    WindowIndex(x, x);
    Points(t.pdpt);
    if t.pd != 0 {
      Points(t.pd);
      if PdIndex(x) in t.pts {
        assert PtOk(mem, t, PdIndex(x));
        Points(t.pts[PdIndex(x)]);
      }
    }
  }

  /** The range test alone is not safe against wrap-around: one mapped page and a length just short of 2^64 pass. */
  lemma WrapSlipsThrough()
    ensures WrapsToSamePage(USER_BASE + 16, TWO64 - 8) && !(USER_BASE + 16 + (TWO64 - 8) <= USER_END)
  {
  }

  /** in_range: membership without ever forming p + len. */
  predicate InRange(p: nat, len: nat, start: nat, end: nat)
    requires p < TWO64 && len < TWO64 && start <= end < TWO64
    ensures InRange(p, len, start, end) <==> start <= p < end && p + len <= end
  {
    if len == 0 then p >= start && p < end
    else if p < start || p >= end then false
    else len <= end - p
  }

  /** is_user_range: for every 64-bit pointer and length, true exactly when the range lies in the shared arena, or in
      the window with every byte backed by a user page. No wrap-around gets through. */
  method IsUserRange(mem: Memory, cr3: nat, p: nat, len: nat, arenaStart: nat, arenaEnd: nat) returns (r: bool)
    requires p < TWO64 && len < TWO64 && arenaStart <= arenaEnd < TWO64
    ensures r <==>
      || (arenaStart <= p < arenaEnd && p + len <= arenaEnd)
      || (InWindow(p) && p + len <= USER_END && AllUser(mem, cr3, p, p + len))
  {
    hide AllUser, PagesUser, UserByte;
    if InRange(p, len, arenaStart, arenaEnd) { return true; }
    Empty(mem, cr3, p);
    if InRange(p, len, USER_BASE, USER_END) {
      r := RangeMapped(mem, cr3, p, len);
      if len > 0 {
        UnwrappedBytes(mem, cr3, p, len);
      }
    } else {
      r := false;
    }
  }

  lemma Empty(mem: Memory, pml4: nat, p: nat)
    ensures AllUser(mem, pml4, p, p)
  {
  }
}
