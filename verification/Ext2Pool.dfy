/** ext2's bitmaps with their two levels of free counters: per-group bitmaps, the group descriptors' counts and the
    superblock's. Blocks and inodes are two such pools. */
module Ext2Pool {
  import opened Products

  /** The groups' valid bitmap ranges laid end to end, each group's free count, and the superblock's count. */
  datatype Pool = Pool(used: seq<bool>, free: seq<nat>, spare: nat)

  function Lo(per: nat, g: nat): nat { g * per }

  /** The end of group `g`'s valid range: the last group may be short. */
  function Hi(p: Pool, per: nat, g: nat): nat {
    if Lo(per, g + 1) < |p.used| then Lo(per, g + 1) else |p.used|
  }

  /** Clear bits in [lo, hi). */
  ghost function Zeros(used: seq<bool>, lo: nat, hi: nat): nat
    requires hi <= |used|
  {
    if hi <= lo then 0 else Zeros(used, lo, hi - 1) + (if used[hi - 1] then 0 else 1)
  }

  ghost function Sum(free: seq<nat>): nat {
    if free == [] then 0 else Sum(free[..|free| - 1]) + free[|free| - 1]
  }

  ghost predicate Shaped(p: Pool, per: nat) {
    && per > 0 && |p.free| > 0 && Lo(per, |p.free| - 1) <= |p.used| <= Lo(per, |p.free|)
  }

  /** The accounting law: each group's count is the number of clear bits in its range, and the superblock's the sum. */
  ghost predicate Counted(p: Pool, per: nat)
    ensures Counted(p, per) ==> Shaped(p, per)
  {
    && Shaped(p, per) && p.spare == Sum(p.free)
    && forall g :: 0 <= g < |p.free| ==> p.free[g] == Zeros(p.used, Lo(per, g), Hi(p, per, g))
  }

  lemma {:induction false} ZerosNone(used: seq<bool>, lo: nat, hi: nat)
    requires hi <= |used|
    ensures Zeros(used, lo, hi) == 0 <==> forall i :: lo <= i < hi ==> used[i]
  {
    if hi > lo {
      ZerosNone(used, lo, hi - 1);
    }
  }

  /** Setting or clearing a bit moves the count by one if the bit is in range, and not at all otherwise. */
  lemma {:induction false} ZerosFlip(used: seq<bool>, lo: nat, hi: nat, i: nat, b: bool)
    requires hi <= |used| && i < |used| && used[i] != b
    ensures Zeros(used[i := b], lo, hi) == Zeros(used, lo, hi) + (if lo <= i < hi then if b then -1 else 1 else 0)
  {
    if hi > lo {
      ZerosFlip(used, lo, hi - 1, i, b);
      if i == hi - 1 {
        ZerosElsewhere(used, lo, hi - 1, i, b);
      }
    }
  }

  lemma {:induction false} ZerosElsewhere(used: seq<bool>, lo: nat, hi: nat, i: nat, b: bool)
    requires hi <= i < |used|
    ensures Zeros(used[i := b], lo, hi) == Zeros(used, lo, hi)
  {
    if hi > lo {
      ZerosElsewhere(used, lo, hi - 1, i, b);
    }
  }

  lemma {:induction false} SumUpdate(free: seq<nat>, g: nat, x: nat)
    requires g < |free|
    ensures Sum(free[g := x]) == Sum(free) - free[g] + x
    ensures Sum(free) >= free[g]
  {
    var n := |free| - 1;
    var free': seq<nat> := free[g := x];
    if g < n {
      SumUpdate(free[..n], g, x);
      assert free'[..n] == free[..n][g := x];
    } else {
      assert free'[..n] == free[..n];
    }
  }

  /** Bit `i` of group `g` set or cleared, with both counters moved. */
  function Flipped(p: Pool, g: nat, i: nat, b: bool): Pool
    requires g < |p.free| && i < |p.used| && (b ==> p.free[g] > 0 && p.spare > 0)
  {
    var d: int := if b then -1 else 1;
    Pool(p.used[i := b], p.free[g := p.free[g] + d], p.spare + d)
  }

  /** The groups' ranges tile the bits: `i` lies in the range of `g` and of no other group. */
  lemma GroupTiles(p: Pool, per: nat, g: nat, h: nat, i: nat)
    requires Shaped(p, per) && Lo(per, g) <= i < Hi(p, per, g)
    ensures Lo(per, h) <= i < Hi(p, per, h) ==> h == g
  {
    if h < g {
      RowOrder(h, g, per);
    } else if g < h {
      RowOrder(g, h, per);
    }
  }

  lemma CountPositive(p: Pool, per: nat, g: nat, i: nat)
    requires Counted(p, per) && g < |p.free| && Lo(per, g) <= i < Hi(p, per, g) && !p.used[i]
    ensures p.free[g] > 0 && p.spare > 0
  {
    hide Sum;
    ZerosNone(p.used, Lo(per, g), Hi(p, per, g));
    SumUpdate(p.free, g, 0);
  }

  /** Taking a free bit and giving back a used one keep the books. */
  lemma FlipCounted(p: Pool, per: nat, g: nat, i: nat, b: bool)
    requires Counted(p, per) && g < |p.free| && Lo(per, g) <= i < Hi(p, per, g) && p.used[i] != b
    requires b ==> p.free[g] > 0 && p.spare > 0
    ensures Counted(Flipped(p, g, i, b), per)
  {
    hide Sum, Zeros, Lo;
    var p' := Flipped(p, g, i, b);
    SumUpdate(p.free, g, p'.free[g]);
    forall h | 0 <= h < |p'.free|
      ensures p'.free[h] == Zeros(p'.used, Lo(per, h), Hi(p', per, h))
    {
      ZerosFlip(p.used, Lo(per, h), Hi(p, per, h), i, b);
      GroupTiles(p, per, g, h, i);
    }
  }

  /** The group a bit belongs to. */
  lemma GroupIndex(p: Pool, per: nat, i: nat)
    requires Shaped(p, per) && i < |p.used|
    ensures i / per < |p.free| && Lo(per, i / per) <= i < Hi(p, per, i / per)
    ensures forall g: nat :: Lo(per, g) <= i < Hi(p, per, g) ==> g == i / per
  {
    RowOf(i, per);
    if i / per >= |p.free| {
      if i / per > |p.free| { RowOrder(|p.free|, i / per, per); }
    }
    NextRow(i / per, per);
    forall g: nat | Lo(per, g) <= i < Hi(p, per, g)
      ensures g == i / per
    {
      GroupTiles(p, per, g, i / per, i);
    }
  }

  lemma NextRow(g: nat, per: nat)
    ensures Lo(per, g + 1) == Lo(per, g) + per
  {
  }

  /** One bit flipped, its group found by division. */
  function Flip(p: Pool, per: nat, i: nat, b: bool): Pool
    requires per > 0 && i < |p.used| && i / per < |p.free| && (b ==> p.free[i / per] > 0 && p.spare > 0)
  {
    Flipped(p, i / per, i, b)
  }

  ghost predicate Flippable(p: Pool, per: nat, i: nat, b: bool) {
    && per > 0 && i < |p.used| && i / per < |p.free| && (b ==> p.free[i / per] > 0 && p.spare > 0)
  }

  lemma FlipKeeps(p: Pool, per: nat, i: nat, b: bool)
    requires Counted(p, per) && i < |p.used| && p.used[i] != b
    ensures Flippable(p, per, i, b) && Counted(Flip(p, per, i, b), per)
  {
    hide Counted, Lo, Flipped, Hi;
    GroupIndex(p, per, i);
    if b {
      CountPositive(p, per, i / per, i);
    }
    FlipCounted(p, per, i / per, i, b);
  }

  /** The superblock's count is 0 exactly when no bit is clear. */
  lemma SpareNone(p: Pool, per: nat)
    requires Counted(p, per)
    ensures p.spare == 0 <==> forall i :: 0 <= i < |p.used| ==> p.used[i]
  {
    hide Sum, Zeros, Lo, Hi;
    if i: nat :| i < |p.used| && !p.used[i] {
      GroupIndex(p, per, i);
      CountPositive(p, per, i / per, i);
    } else {
      forall g | 0 <= g < |p.free| ensures p.free[g] == 0 {
        RangeInside(p, per, g);
        ZerosNone(p.used, Lo(per, g), Hi(p, per, g));
      }
      SumZero(p.free);
    }
  }

  lemma RangeInside(p: Pool, per: nat, g: nat)
    requires Shaped(p, per) && g < |p.free|
    ensures 0 <= Lo(per, g) && Hi(p, per, g) <= |p.used|
  {
    ProductSign(g, per);
  }

  lemma {:induction false} SumZero(free: seq<nat>)
    requires forall g :: 0 <= g < |free| ==> free[g] == 0
    ensures Sum(free) == 0
  {
    if free != [] {
      SumZero(free[..|free| - 1]);
    }
  }

  /** Giving back a bit that is clear already breaks the books: nothing is freed and both counters go up. */
  lemma FreeTwice(p: Pool, per: nat, i: nat)
    requires Counted(p, per) && i < |p.used| && !p.used[i]
    ensures Flippable(p, per, i, false) && !Counted(Flip(p, per, i, false), per)
  {
    hide Zeros, Sum, Lo;
    GroupIndex(p, per, i);
    var p' := Flip(p, per, i, false);
    assert p'.used == p.used;
    assert p'.free[i / per] != Zeros(p'.used, Lo(per, i / per), Hi(p', per, i / per));
  }

  // ----- runs inside one group

  predicate AllFree(used: seq<bool>, lo: nat, hi: nat)
    requires hi <= |used|
  {
    forall i :: lo <= i < hi ==> !used[i]
  }

  function Mark(used: seq<bool>, lo: nat, n: nat): (r: seq<bool>)
    requires lo + n <= |used|
    ensures |r| == |used| && forall i :: 0 <= i < |used| ==> r[i] == (used[i] || lo <= i < lo + n)
  {
    used[..lo] + seq(n, _ => true) + used[lo + n..]
  }

  /** A run taken as a whole. */
  function Taken(p: Pool, g: nat, lo: nat, n: nat): Pool
    requires g < |p.free| && lo + n <= |p.used| && n <= p.free[g] && n <= p.spare
  {
    Pool(Mark(p.used, lo, n), p.free[g := p.free[g] - n], p.spare - n)
  }

  ghost predicate FreeRun(p: Pool, per: nat, g: nat, lo: nat, n: nat) {
    g < |p.free| && Lo(per, g) <= lo && lo + n <= Hi(p, per, g) && AllFree(p.used, lo, lo + n)
  }

  /** A free run fits the counters, and taking it keeps the books. */
  lemma {:induction false} TakenCounted(p: Pool, per: nat, g: nat, lo: nat, n: nat)
    requires Counted(p, per) && FreeRun(p, per, g, lo, n)
    ensures n <= p.free[g] && n <= p.spare && Counted(Taken(p, g, lo, n), per)
  {
    hide Counted, Lo;
    if n == 0 {
      var free: seq<nat> := p.free[g := p.free[g]];
      assert Mark(p.used, lo, 0) == p.used && free == p.free;
    } else {
      TakenCounted(p, per, g, lo, n - 1);
      TakeOneMore(p, per, g, lo, n);
    }
  }

  lemma TakeOneMore(p: Pool, per: nat, g: nat, lo: nat, n: nat)
    requires FreeRun(p, per, g, lo, n) && 0 < n && n - 1 <= p.free[g] && n - 1 <= p.spare
    requires Counted(Taken(p, g, lo, n - 1), per)
    ensures n <= p.free[g] && n <= p.spare && Counted(Taken(p, g, lo, n), per)
  {
    hide Counted, Lo, Mark;
    var i, q := lo + n - 1, Taken(p, g, lo, n - 1);
    CountPositive(q, per, g, i);
    FlipCounted(q, per, g, i, true);
    assert q.used[i := true] == Mark(p.used, lo, n);
    FlipTaken(p, g, lo, n);
  }

  lemma FlipTaken(p: Pool, g: nat, lo: nat, n: nat)
    requires g < |p.free| && lo + n <= |p.used| && 0 < n <= p.free[g] && n <= p.spare
    ensures Flipped(Taken(p, g, lo, n - 1), g, lo + n - 1, true) == Taken(p, g, lo, n)
  {
    assert Mark(p.used, lo, n - 1)[lo + n - 1 := true] == Mark(p.used, lo, n);
  }

  /** Giving back the first of a run just taken is having taken the rest. */
  lemma GiveBack(p: Pool, g: nat, lo: nat, n: nat)
    requires g < |p.free| && lo + n <= |p.used| && 0 < n <= p.free[g] && n <= p.spare && AllFree(p.used, lo, lo + n)
    ensures Flipped(Taken(p, g, lo, n), g, lo, false) == Taken(p, g, lo + 1, n - 1)
  {
    var q, r := Taken(p, g, lo, n), Taken(p, g, lo + 1, n - 1);
    assert q.used[lo := false] == r.used;
  }

  lemma TakenNone(p: Pool, g: nat, lo: nat)
    requires g < |p.free| && lo <= |p.used|
    ensures Taken(p, g, lo, 0) == p
  {
    var free: seq<nat> := p.free[g := p.free[g]];
    assert Mark(p.used, lo, 0) == p.used && free == p.free;
  }

  // ----- the scans

  /** The nested scan of alloc_block and alloc_inode, which passes over groups whose count is zero and numbers below
      `skip`: it finds the lowest clear bit, and fails only if there is none. */
  method FindFree(p: Pool, per: nat, skip: nat) returns (found: bool, g: nat, i: nat)
    requires Counted(p, per)
    ensures found ==> g < |p.free| && Lo(per, g) <= i < Hi(p, per, g) && skip <= i && !p.used[i]
    ensures found ==> forall j :: skip <= j < i ==> p.used[j]
    ensures !found ==> forall j :: skip <= j < |p.used| ==> p.used[j]
  {
    hide Lo, Zeros, Sum;
    g, i := 0, 0;
    GroupBounds(p, per, 0);
    while g < |p.free|
      invariant 0 <= g <= |p.free|
      invariant forall j :: skip <= j < |p.used| && j < Lo(per, g) ==> p.used[j]
    {
      GroupBounds(p, per, g);
      if p.free[g] == 0 {
        ZerosNone(p.used, Lo(per, g), Hi(p, per, g));
      } else {
        i := Lo(per, g);
        while i < Hi(p, per, g)
          invariant Lo(per, g) <= i <= Hi(p, per, g)
          invariant forall j :: skip <= j < i ==> p.used[j]
        {
          if i >= skip && !p.used[i] { return true, g, i; }
          i := i + 1;
        }
      }
      g := g + 1;
    }
    GroupBounds(p, per, |p.free| - 1);
    found := false;
  }

  /** Group `g` starts inside the bits, and the next one starts where it ends. */
  lemma GroupBounds(p: Pool, per: nat, g: nat)
    requires Shaped(p, per) && g < |p.free|
    ensures Lo(per, 0) == 0 && Lo(per, g) <= Hi(p, per, g) <= |p.used|
    ensures Hi(p, per, g) == Lo(per, g + 1) || Hi(p, per, g) == |p.used| <= Lo(per, g + 1)
    ensures g == |p.free| - 1 ==> Hi(p, per, g) == |p.used|
  {
    if g < |p.free| - 1 {
      RowOrder(g, |p.free| - 1, per);
    }
    RowOrder(g, g + 1, per);
  }

  /** No clear run in [lo, hi) is longer than `n`. */
  ghost predicate NoLonger(used: seq<bool>, lo: nat, hi: nat, n: nat)
    requires hi <= |used|
  {
    forall a: nat, b: nat :: lo <= a <= b <= hi && AllFree(used, a, b) ==> b - a <= n
  }

  /** The longest clear run of a group, cut off at `want`. */
  method LongestRun(used: seq<bool>, lo: nat, hi: nat, want: nat) returns (start: nat, len: nat)
    requires lo <= hi <= |used| && want > 0
    ensures len <= want && (len > 0 ==> lo <= start && start + len <= hi && AllFree(used, start, start + len))
    ensures len < want ==> NoLonger(used, lo, hi, len)
  {
    var i, run, runStart := lo, 0, lo;
    start, len := lo, 0;
    while i < hi
      invariant lo <= i <= hi && run <= i - lo && run <= len < want
      invariant run > 0 ==> runStart == i - run
      invariant AllFree(used, i - run, i) && (i - run == lo || used[i - run - 1])
      invariant len > 0 ==> lo <= start && start + len <= i && AllFree(used, start, start + len)
      invariant NoLonger(used, lo, i, len)
    {
      if !used[i] {
        if run == 0 { runStart := i; }
        run := run + 1;
        ghost var was := len;
        if run > len { len, start := run, runStart; }
        LongestStep(used, lo, i, run, was);
        if len >= want { return; }
      } else {
        run := 0;
        LongestBlocked(used, lo, i, len);
      }
      i := i + 1;
    }
  }

  lemma NotFree(used: seq<bool>, a: nat, b: nat, k: nat)
    requires a <= k < b <= |used| && used[k]
    ensures !AllFree(used, a, b)
  {
  }

  lemma LongestStep(used: seq<bool>, lo: nat, i: nat, run: nat, len: nat)
    requires lo <= i < |used| && 0 < run <= i + 1 - lo && NoLonger(used, lo, i, len)
    requires i + 1 - run == lo || used[i - run]
    ensures NoLonger(used, lo, i + 1, if run > len then run else len)
  {
    forall a: nat, b: nat | lo <= a <= b <= i + 1
      ensures AllFree(used, a, b) ==> b - a <= if run > len then run else len
    {
      if b == i + 1 && a < i + 1 - run {
        NotFree(used, a, b, i - run);
      }
    }
  }

  lemma LongestBlocked(used: seq<bool>, lo: nat, i: nat, len: nat)
    requires lo <= i < |used| && used[i] && NoLonger(used, lo, i, len)
    ensures NoLonger(used, lo, i + 1, len)
  {
    forall a: nat, b: nat | lo <= a <= b <= i + 1
      ensures AllFree(used, a, b) ==> b - a <= len
    {
      if b == i + 1 && a <= i {
        NotFree(used, a, b, i);
      }
    }
  }

  /** The scan of alloc_block_run: it settles in the first group that has a clear bit, whatever later groups offer. */
  method FindRun(p: Pool, per: nat, want: nat) returns (g: nat, start: nat, len: nat)
    requires Counted(p, per) && want > 0
    ensures len <= want
    ensures len == 0 ==> forall j :: 0 <= j < |p.used| ==> p.used[j]
    ensures len > 0 ==> FreeRun(p, per, g, start, len) && forall j :: 0 <= j < Lo(per, g) && j < |p.used| ==> p.used[j]
    ensures 0 < len < want ==> NoLonger(p.used, Lo(per, g), Hi(p, per, g), len)
    ensures BestOfAll(p, per, want, len) <==> !LaterBetter(p, per, want)
  {
    hide Lo, Zeros, Sum, NoLonger, BestOfAll, LaterBetter;
    g, start, len := 0, 0, 0;
    GroupBounds(p, per, 0);
    while g < |p.free|
      invariant 0 <= g <= |p.free| && len == 0
      invariant forall j :: 0 <= j < |p.used| && j < Lo(per, g) ==> p.used[j]
    {
      GroupBounds(p, per, g);
      if p.free[g] == 0 {
        ZerosNone(p.used, Lo(per, g), Hi(p, per, g));
      } else {
        start, len := LongestRun(p.used, Lo(per, g), Hi(p, per, g), want);
        if len > 0 {
          BestUnlessLater(p, per, want, g, start, len);
          return;
        }
        NoRunNoBit(p.used, Lo(per, g), Hi(p, per, g));
      }
      g := g + 1;
    }
    GroupBounds(p, per, |p.free| - 1);
    NoBitBest(p, per, want);
  }

  /** No group has a clear run, cut off at `want`, that is longer than `n`: what alloc_block_run promises. */
  ghost predicate BestOfAll(p: Pool, per: nat, want: nat, n: nat) {
    forall h: nat, lo: nat, m: nat :: FreeRun(p, per, h, lo, m) && m <= want ==> m <= n
  }

  /** Group `g` is the first with a clear bit. */
  ghost predicate FirstOpen(p: Pool, per: nat, g: nat) {
    && g < |p.free| && (forall j :: 0 <= j < Lo(per, g) && j < |p.used| ==> p.used[j])
    && exists j :: Lo(per, g) <= j < Hi(p, per, g) && !p.used[j]
  }

  /** A later group has a run of `m` blocks, of at most the number wanted, and the first group with a clear bit none. */
  ghost predicate LaterRun(p: Pool, per: nat, want: nat, g: nat, h: nat, lo: nat, m: nat) {
    && FirstOpen(p, per, g) && g < h && FreeRun(p, per, h, lo, m) && 0 < m <= want
    && NoLonger(p.used, Lo(per, g), Hi(p, per, g), m - 1)
  }

  ghost predicate LaterBetter(p: Pool, per: nat, want: nat) {
    exists g: nat, h: nat, lo: nat, m: nat :: LaterRun(p, per, want, g, h, lo, m)
  }

  lemma OneFirstOpen(p: Pool, per: nat, g: nat, h: nat)
    requires Shaped(p, per) && FirstOpen(p, per, g) && FirstOpen(p, per, h)
    ensures g == h
  {
    if g < h {
      RowOrder(g, h, per);
      NextRow(g, per);
    } else if h < g {
      RowOrder(h, g, per);
      NextRow(h, per);
    }
  }

  /** The longest run of the first group with a clear bit is the best of all exactly when no later group has a
      better. */
  lemma BestUnlessLater(p: Pool, per: nat, want: nat, g: nat, start: nat, len: nat)
    requires Shaped(p, per) && g < |p.free| && 0 < len <= want && FreeRun(p, per, g, start, len)
    requires forall j :: 0 <= j < Lo(per, g) && j < |p.used| ==> p.used[j]
    requires len < want ==> NoLonger(p.used, Lo(per, g), Hi(p, per, g), len)
    ensures BestOfAll(p, per, want, len) <==> !LaterBetter(p, per, want)
  {
    hide Lo, NoLonger, Shaped;
    assert !p.used[start];
    assert FirstOpen(p, per, g);
    if LaterBetter(p, per, want) {
      var g': nat, h: nat, lo: nat, m: nat :| LaterRun(p, per, want, g', h, lo, m);
      OneFirstOpen(p, per, g, g');
      RunBounded(p, per, g, start, len, m - 1);
      assert FreeRun(p, per, h, lo, m) && m <= want;
    }
    forall h: nat, lo: nat, m: nat | FreeRun(p, per, h, lo, m) && m <= want
      ensures m <= len || LaterBetter(p, per, want)
    {
      if len < m {
        NotBefore(p, per, g, h, lo, m);
        RunBounded(p, per, h, lo, m, len);
        MoreLonger(p.used, Lo(per, g), Hi(p, per, g), len, m - 1);
        assert g < h ==> LaterRun(p, per, want, g, h, lo, m);
      }
    }
  }

  lemma RunBounded(p: Pool, per: nat, g: nat, lo: nat, m: nat, n: nat)
    requires FreeRun(p, per, g, lo, m)
    ensures Lo(per, g) <= Hi(p, per, g) <= |p.used| && NoLonger(p.used, Lo(per, g), Hi(p, per, g), n) ==> m <= n
  {
    hide Lo;
    assert AllFree(p.used, lo, lo + m);
  }

  /** Two runs in first groups with a clear bit lie in one group. */
  lemma SameFirst(p: Pool, per: nat, g: nat, lo: nat, n: nat, h: nat, lo': nat, m: nat)
    requires Shaped(p, per) && FirstOpen(p, per, g) && FirstOpen(p, per, h)
    requires FreeRun(p, per, g, lo, n) && FreeRun(p, per, h, lo', m) && NoLonger(p.used, Lo(per, g), Hi(p, per, g), n)
    ensures m <= n
  {
    hide Lo, FirstOpen, Shaped, NoLonger;
    OneFirstOpen(p, per, g, h);
    RunBounded(p, per, h, lo', m, n);
  }

  lemma MoreLonger(used: seq<bool>, lo: nat, hi: nat, n: nat, m: nat)
    requires hi <= |used| && NoLonger(used, lo, hi, n) && n <= m
    ensures NoLonger(used, lo, hi, m)
  {
  }

  lemma NotBefore(p: Pool, per: nat, g: nat, h: nat, lo: nat, m: nat)
    requires Shaped(p, per) && FreeRun(p, per, h, lo, m) && m > 0
    requires forall j :: 0 <= j < Lo(per, g) && j < |p.used| ==> p.used[j]
    ensures g <= h
  {
    if h < g {
      RowOrder(h, g, per);
      NextRow(h, per);
      NotFree(p.used, lo, lo + m, lo);
    }
  }

  lemma NoBitBest(p: Pool, per: nat, want: nat)
    requires forall j :: 0 <= j < |p.used| ==> p.used[j]
    ensures BestOfAll(p, per, want, 0) && !LaterBetter(p, per, want)
  {
    hide Lo;
    forall h: nat, lo: nat, m: nat | FreeRun(p, per, h, lo, m) ensures m == 0 {
      if m > 0 {
        NotFree(p.used, lo, lo + m, lo);
      }
    }
  }

  lemma NoRunNoBit(used: seq<bool>, lo: nat, hi: nat)
    requires lo <= hi <= |used| && NoLonger(used, lo, hi, 0)
    ensures forall j :: lo <= j < hi ==> used[j]
  {
    forall j | lo <= j < hi
      ensures used[j]
    {
      assert !used[j] ==> AllFree(used, j, j + 1);
    }
  }

  /** The best run of all groups, which the comment on alloc_block_run promises, is missed as soon as an earlier group
      has any clear bit: here two blocks are wanted, the second group has them, and the first group's single block is
      what the scan settles for. */
  lemma LaterRunMissed()
    ensures var p := Pool([false, true, false, false], [1, 2], 3);
      && Counted(p, 2) && FreeRun(p, 2, 1, 2, 2) && FreeRun(p, 2, 0, 0, 1) && NoLonger(p.used, Lo(2, 0), Hi(p, 2, 0), 1)
      && LaterBetter(p, 2, 2)
  {
    var p := Pool([false, true, false, false], [1, 2], 3);
    assert Zeros(p.used, 0, 2) == 1 by { assert Zeros(p.used, 0, 1) == 1; }
    assert Zeros(p.used, 2, 4) == 2 by { assert Zeros(p.used, 2, 3) == 1; }
    assert p.free[..1] == [1] && [1][..0] == [];
    assert Sum([1]) == 1;
    forall a: nat, b: nat | 0 <= a <= b <= 2
      ensures AllFree(p.used, a, b) ==> b - a <= 1
    {
      if b - a == 2 {
        NotFree(p.used, a, b, 1);
      }
    }
    assert !p.used[0] && FirstOpen(p, 2, 0);
    assert LaterRun(p, 2, 2, 0, 1, 2, 2);
  }
}
