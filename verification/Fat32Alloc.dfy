/** Cluster allocation: first free cluster from the hint, and longest free run. */
module Fat32Alloc {
  import opened BlockStore
  import opened Fat32Table
  import opened Fat32Driver
  import opened Fat32Volume
  import opened Fat32Chains

  /** Where both searches begin: the hint if it names a data cluster, else cluster 2. */
  function SearchStart(g: Geometry, hint: nat): (start: nat)
    ensures 2 <= start
    ensures g.IsCluster(hint) ==> start == hint
    ensures g.totalClusters > 0 ==> g.IsCluster(start)
  {
    if hint < 2 || hint > g.MaxCluster() then 2 else hint
  }

  /** The sector writes after the first `from` only ever touched clusters free in `v0`. */
  ghost predicate StepsGrow(steps: seq<View>, from: nat, v0: View) {
    from <= |steps| && forall k :: from <= k < |steps| ==> Grows(v0, steps[k])
  }

  /** No data cluster is free. */
  ghost predicate Full(v: View) { forall e :: 2 <= e < |v.fat| ==> v.fat[e] != 0 }

  /** `c` is where the circular search from `start` over the clusters meets its first free one. */
  ghost predicate FirstFreeFrom(fat: seq<nat>, start: nat, c: nat) {
    && 2 <= c < |fat| && fat[c] == 0
    && if c >= start then forall e :: start <= e < c ==> fat[e] != 0
       else (forall e :: start <= e < |fat| ==> fat[e] != 0) && (forall e :: 2 <= e < c ==> fat[e] != 0)
  }

  /** fat32_alloc_cluster: the first free cluster at or after the start, else the first before it; 0 when full. */
  method AllocCluster(vol: Volume) returns (c: nat)
    requires vol.Valid()
    modifies vol, vol.d
    ensures vol.Valid() && SameOutside(old(vol.d.disk), vol.d.disk, vol.g)
    ensures c == 0 <==> Full(old(vol.v))
    ensures c == 0 ==> vol.v == old(vol.v) && vol.steps == old(vol.steps) && vol.hint == old(vol.hint)
    ensures c != 0 ==>
      && FirstFreeFrom(old(vol.v).fat, SearchStart(vol.g, old(vol.hint)), c) && vol.hint == c + 1
      && vol.v == old(vol.v).(fat := old(vol.v).fat[c := EOC])
    ensures old(vol.steps) <= vol.steps && StepsGrow(vol.steps, |old(vol.steps)|, old(vol.v))
  {
    hide Volume.Valid;
    var start := SearchStart(vol.g, vol.hint);
    c := FindFree(vol, start, vol.g.MaxCluster() + 1);
    if c == 0 {
      c := FindFree(vol, 2, start);
    }
    if c != 0 {
      vol.SetEntry(c, EOC);
      vol.hint := c + 1;
    }
  }

  /** One scan of fat32_alloc_cluster: the first free cluster in [lo, hi), or 0. */
  method FindFree(vol: Volume, lo: nat, hi: nat) returns (c: nat)
    requires vol.Valid() && 2 <= lo && hi <= vol.g.MaxCluster() + 1
    modifies vol.d
    ensures vol.Valid() && vol.d.disk == old(vol.d.disk)
    ensures c != 0 ==> lo <= c < hi && vol.v.fat[c] == 0
    ensures forall e :: lo <= e < (if c == 0 then hi else c) ==> vol.v.fat[e] != 0
  {
    hide Volume.Valid;
    c := lo;
    while c < hi
      invariant lo <= c && (c <= hi || c == lo)
      invariant forall e :: lo <= e < c ==> vol.v.fat[e] != 0
      invariant vol.Valid() && vol.d.disk == old(vol.d.disk)
    {
      var n := vol.NextCluster(c);
      if n == 0 {
        return;
      }
      c := c + 1;
    }
    c := 0;
  }

  /** Every free run inside [lo, hi) is at most `n` long. */
  ghost predicate LongestWithin(fat: seq<nat>, lo: nat, hi: nat, n: nat) {
    forall a: nat, l: nat :: lo <= a && a + l <= hi && FreeRun(fat, a, l) ==> l <= n
  }

  /** One pass of fat32_alloc_run over [lo, hi], continuing from the best run of an earlier pass. */
  method ScanRuns(vol: Volume, lo: nat, hi: nat, want: nat, start0: nat, len0: nat)
    returns (bestStart: nat, bestLen: nat)
    requires vol.Valid() && 2 <= lo && hi <= vol.g.MaxCluster()
    requires len0 < want && (len0 > 0 ==> FreeRun(vol.v.fat, start0, len0))
    modifies vol.d
    ensures vol.Valid()
    ensures vol.d.disk == old(vol.d.disk)
    ensures len0 <= bestLen <= want && (bestLen > 0 ==> FreeRun(vol.v.fat, bestStart, bestLen))
    ensures bestLen < want ==> LongestWithin(vol.v.fat, lo, hi + 1, bestLen)
    ensures (bestStart == start0 && bestLen == len0)
      || (0 < bestLen && lo <= bestStart && bestStart + bestLen <= hi + 1)
  {
    hide Volume.Valid, LongestWithin, Geometry.PowerOfTwo, FreeRun;
    ghost var fat := vol.v.fat;
    bestStart, bestLen := start0, len0;
    NoRunYet(fat, lo, len0);
    var runStart, runLen := 0, 0;
    var c := lo;
    while c <= hi
      invariant lo <= c && (c <= hi + 1 || c == lo) && vol.Valid() && vol.d.disk == old(vol.d.disk)
      invariant runLen <= c - lo && runLen <= bestLen && (runLen > 0 ==> runStart == c - runLen)
      invariant runLen > 0 ==> FreeRun(fat, runStart, runLen)
      invariant c - runLen == lo || fat[c - runLen - 1] != 0
      invariant len0 <= bestLen < want && (bestLen > 0 ==> FreeRun(fat, bestStart, bestLen))
      invariant LongestWithin(fat, lo, c, bestLen)
      invariant (bestStart == start0 && bestLen == len0) || (0 < bestLen && lo <= bestStart && bestStart + bestLen <= c)
    {
      var n := vol.NextCluster(c);
      if n == 0 {
        if runLen == 0 {
          runStart := c;
        }
        runLen := runLen + 1;
        RunLonger(fat, runStart, runLen - 1);
        RunEndsHere(fat, lo, c, runLen, bestLen);
        if runLen > bestLen {
          bestLen, bestStart := runLen, runStart;
        }
        if bestLen >= want {
          return;
        }
      } else {
        RunCannotCross(fat, lo, c, bestLen);
        runLen := 0;
      }
      c := c + 1;
    }
    if hi + 1 < c {
      NoRunWithin(fat, lo, hi + 1, bestLen);
    }
  }

  lemma RunLonger(fat: seq<nat>, a: nat, n: nat)
    requires 2 <= a && a + n < |fat| && fat[a + n] == 0 && (n > 0 ==> FreeRun(fat, a, n))
    ensures FreeRun(fat, a, n + 1)
  {
  }

  lemma NoRunYet(fat: seq<nat>, lo: nat, n: nat)
    ensures LongestWithin(fat, lo, lo, n)
  {
  }

  lemma NoRunWithin(fat: seq<nat>, lo: nat, hi: nat, n: nat)
    requires hi < lo
    ensures LongestWithin(fat, lo, hi, n)
  {
  }

  lemma RunEndsHere(fat: seq<nat>, lo: nat, c: nat, runLen: nat, best: nat)
    requires 2 <= lo <= c < |fat| && 0 < runLen <= c + 1 - lo
    requires c + 1 - runLen == lo || fat[c - runLen] != 0
    requires LongestWithin(fat, lo, c, best)
    ensures LongestWithin(fat, lo, c + 1, if runLen > best then runLen else best)
  {
    forall a: nat, l: nat | lo <= a && a + l <= c + 1 && FreeRun(fat, a, l)
      ensures l <= if runLen > best then runLen else best
    {
    }
  }

  lemma RunCannotCross(fat: seq<nat>, lo: nat, c: nat, best: nat)
    requires c < |fat| && fat[c] != 0 && LongestWithin(fat, lo, c, best)
    ensures LongestWithin(fat, lo, c + 1, best)
  {
    forall a: nat, l: nat | lo <= a && a + l <= c + 1 && FreeRun(fat, a, l) ensures l <= best {
    }
  }

  /** A run the allocator can see: it does not straddle the search start. */
  predicate OneSide(start: nat, a: nat, n: nat) { start <= a || a + n <= start }

  /** No free run, cut off at `want`, is longer than `n`: what fat32_alloc_run promises. */
  ghost predicate LongestOfAll(fat: seq<nat>, want: nat, n: nat) {
    forall a: nat, m: nat :: FreeRun(fat, a, m) && m <= want ==> m <= n
  }

  /** Some free run, no longer than `want`, has no equal on either side of the search start. */
  ghost predicate Straddled(fat: seq<nat>, start: nat, want: nat) {
    exists a: nat, m: nat :: FreeRun(fat, a, m) && m <= want && NoneOneSide(fat, start, m)
  }

  ghost predicate NoneOneSide(fat: seq<nat>, start: nat, m: nat) {
    forall b: nat :: OneSide(start, b, m) ==> !FreeRun(fat, b, m)
  }

  /** The longest run on one side is the longest of all exactly when none straddles the start that has no equal. */
  lemma LongestUnlessStraddled(fat: seq<nat>, start: nat, want: nat, first: nat, got: nat)
    requires got <= want && (got > 0 ==> FreeRun(fat, first, got) && OneSide(start, first, got))
    requires forall a: nat, n: nat :: FreeRun(fat, a, n) && OneSide(start, a, n) && n <= want ==> n <= got
    requires 2 <= start
    ensures LongestOfAll(fat, want, got) <==> !Straddled(fat, start, want)
  {
    if a: nat, m: nat :| FreeRun(fat, a, m) && m <= want && NoneOneSide(fat, start, m) {
      if m <= got && got > 0 {
        assert FreeRun(fat, first, m) && OneSide(start, first, m);
      }
    }
    forall a: nat, m: nat | FreeRun(fat, a, m) && m <= want ensures m <= got || Straddled(fat, start, want) {
      assert got < m ==> NoneOneSide(fat, start, m);
    }
  }

  lemma BothSides(fat: seq<nat>, start: nat, want: nat, n: nat)
    requires 2 <= start && n <= want
    requires n < want ==>
      LongestWithin(fat, start, |fat|, n) && (2 <= start - 1 ==> LongestWithin(fat, 2, start, n))
    ensures forall a: nat, m: nat :: FreeRun(fat, a, m) && OneSide(start, a, m) && m <= want ==> m <= n
  {
  }

  /** fat32_alloc_run: reserves the longest free run not straddling the search start, capped at `want0` (at least 1).
      0 exactly when no cluster is free. */
  method AllocRun(vol: Volume, want0: nat) returns (first: nat, got: nat)
    requires vol.Valid()
    modifies vol, vol.d
    ensures vol.Valid() && SameOutside(old(vol.d.disk), vol.d.disk, vol.g)
    ensures first == 0 <==> got == 0
    ensures first == 0 <==> Full(old(vol.v))
    ensures first == 0 ==> vol.v == old(vol.v) && vol.steps == old(vol.steps) && vol.hint == old(vol.hint)
    ensures first != 0 ==>
      && 1 <= got <= (if want0 == 0 then 1 else want0)
      && FreeRun(old(vol.v).fat, first, got) && OneSide(SearchStart(vol.g, old(vol.hint)), first, got)
      && vol.hint == first + got
      && vol.v == old(vol.v).(fat := Linked(old(vol.v).fat, first, got, got))
    ensures forall a: nat, n: nat ::
      FreeRun(old(vol.v).fat, a, n) && OneSide(SearchStart(vol.g, old(vol.hint)), a, n) && n <= want0 ==> n <= got
    ensures var want := if want0 == 0 then 1 else want0;
            LongestOfAll(old(vol.v).fat, want, got) <==>
              !Straddled(old(vol.v).fat, SearchStart(vol.g, old(vol.hint)), want)
    ensures old(vol.steps) <= vol.steps && StepsGrow(vol.steps, |old(vol.steps)|, old(vol.v))
  {
    hide Volume.Valid, LongestOfAll, Straddled;
    ghost var v0 := vol.v;
    var want := if want0 == 0 then 1 else want0;
    var start := SearchStart(vol.g, vol.hint);
    var bestStart, bestLen := ScanRuns(vol, start, vol.g.MaxCluster(), want, 0, 0);
    if bestLen < want && 2 <= start - 1 {
      bestStart, bestLen := ScanRuns(vol, 2, start - 1, want, bestStart, bestLen);
    }
    BothSides(v0.fat, start, want, bestLen);
    LongestUnlessStraddled(v0.fat, start, want, bestStart, bestLen);
    if bestLen == 0 {
      assert forall e :: 2 <= e < |v0.fat| && v0.fat[e] == 0 ==> FreeRun(v0.fat, e, 1);
      return 0, 0;
    }
    assert v0.fat[bestStart] == 0;
    LinkRun(vol, bestStart, bestLen);
    vol.hint := bestStart + bestLen;
    first, got := bestStart, bestLen;
  }

  /** The loop that chains a reserved run together. */
  method LinkRun(vol: Volume, first: nat, n: nat)
    requires vol.Valid() && n > 0 && FreeRun(vol.v.fat, first, n)
    modifies vol.d, vol`v, vol`steps
    ensures vol.Valid() && SameOutside(old(vol.d.disk), vol.d.disk, vol.g)
    ensures vol.v == old(vol.v).(fat := Linked(old(vol.v).fat, first, n, n))
    ensures old(vol.steps) <= vol.steps && StepsGrow(vol.steps, |old(vol.steps)|, old(vol.v))
  {
    hide Volume.Valid;
    ghost var v0 := vol.v;
    assert Linked(v0.fat, first, n, 0) == v0.fat;
    for i := 0 to n
      invariant vol.Valid() && SameOutside(old(vol.d.disk), vol.d.disk, vol.g)
      invariant vol.v == v0.(fat := Linked(v0.fat, first, n, i))
      invariant old(vol.steps) <= vol.steps && StepsGrow(vol.steps, |old(vol.steps)|, v0)
    {
      var c := first + i;
      var next := if i + 1 < n then c + 1 else EOC;
      assert v0.fat[c] == 0;
      vol.SetEntry(c, next);
      assert Linked(v0.fat, first, n, i)[c := next] == Linked(v0.fat, first, n, i + 1);
      assert Grows(v0, vol.v);
    }
  }

  /** fat32_set_fat_entry(.., 0) over a run: the loop that gives an unused run back. */
  method FreeSpan(vol: Volume, first: nat, n: nat)
    requires vol.Valid() && 2 <= first && first + n <= vol.g.MaxCluster() + 1
    modifies vol.d, vol`v, vol`steps
    ensures vol.Valid() && SameOutside(old(vol.d.disk), vol.d.disk, vol.g)
    ensures vol.v == old(vol.v).(fat := Cleared(old(vol.v).fat, Span(first, n)))
    ensures old(vol.steps) <= vol.steps && StepsLose(vol.steps, |old(vol.steps)|, old(vol.v), Span(first, n))
  {
    hide Volume.Valid;
    ghost var v0 := vol.v;
    ghost var ch := Span(first, n);
    assert Cleared(v0.fat, ch[..0]) == v0.fat;
    for i := 0 to n
      invariant vol.Valid() && SameOutside(old(vol.d.disk), vol.d.disk, vol.g)
      invariant vol.v == v0.(fat := Cleared(v0.fat, ch[..i]))
      invariant old(vol.steps) <= vol.steps && StepsLose(vol.steps, |old(vol.steps)|, v0, ch)
    {
      vol.SetEntry(first + i, 0);
      ClearNext(v0.fat, ch, i);
    }
    assert ch[..n] == ch;
  }

  /** The writes after the first `from` changed nothing but FAT entries of clusters in `ch`. */
  ghost predicate StepsLose(steps: seq<View>, from: nat, v0: View, ch: seq<nat>) {
    from <= |steps| && forall k :: from <= k < |steps| ==> Loses(v0, steps[k], ch)
  }

  ghost predicate Loses(v0: View, v: View, ch: seq<nat>) {
    v.data == v0.data && |v.fat| == |v0.fat| && forall c :: 0 <= c < |v.fat| && c !in ch ==> v.fat[c] == v0.fat[c]
  }

  /** The FAT with every cluster of `ch` marked free. */
  ghost function Cleared(fat: seq<nat>, ch: seq<nat>): (r: seq<nat>)
    ensures |r| == |fat|
    ensures forall c :: 0 <= c < |fat| ==> r[c] == if c in ch then 0 else fat[c]
  {
    seq(|fat|, c requires 0 <= c < |fat| => if c in ch then 0 else fat[c])
  }

  lemma ClearNext(fat: seq<nat>, ch: seq<nat>, i: nat)
    requires i < |ch| && ch[i] < |fat|
    ensures Cleared(fat, ch[..i])[ch[i] := 0] == Cleared(fat, ch[..i + 1])
  {
    assert ch[..i + 1] == ch[..i] + [ch[i]];
  }
}
