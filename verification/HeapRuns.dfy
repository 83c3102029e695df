/** Bitmaps of slot ids: a run is a maximal stretch of one nonzero id, and the runs are the live allocations. */
module HeapRuns {
  import opened Words

  /** Slots s..s+n hold one nonzero id and both neighbours differ. */
  ghost predicate IsRun(bm: seq<byte>, s: nat, n: nat)
    ensures IsRun(bm, s, n) ==> 0 < n && s + n <= |bm|
  {
    && 0 < n && s + n <= |bm| && bm[s] != 0
    && (forall i :: s <= i < s + n ==> bm[i] == bm[s])
    && (s == 0 || bm[s - 1] != bm[s])
    && (s + n == |bm| || bm[s + n] != bm[s])
  }

  /** Slots a..a+n are all free. */
  ghost predicate FreeAt(bm: seq<byte>, a: nat, n: nat)
    ensures FreeAt(bm, a, n) ==> a + n <= |bm|
  {
    a + n <= |bm| && forall i :: a <= i < a + n ==> bm[i] == 0
  }

  /** The bitmap with slots s..s+n set to `id`. */
  ghost function Painted(bm: seq<byte>, s: nat, n: nat, id: byte): (r: seq<byte>)
    requires s + n <= |bm|
    ensures |r| == |bm| && forall i :: 0 <= i < |bm| ==> r[i] == if s <= i < s + n then id else bm[i]
  {
    bm[..s] + seq(n, _ => id) + bm[s + n..]
  }

  /** An id usable at free slots s..s+n: nonzero and unlike both neighbours. */
  ghost predicate Fresh(bm: seq<byte>, s: nat, n: nat, id: byte)
    requires s + n <= |bm|
  {
    id != 0 && (s > 0 ==> id != bm[s - 1]) && (s + n < |bm| ==> id != bm[s + n])
  }

  /** Some n free slots in a row exist. */
  ghost predicate HasRoom(bm: seq<byte>, n: nat) { exists a: nat :: FreeAt(bm, a, n) }

  /** `bm'` is `bm` with one more run: n slots, free before, painted with a fresh id. */
  ghost predicate OneMoreRun(bm: seq<byte>, bm': seq<byte>, s: nat, n: nat)
    ensures OneMoreRun(bm, bm', s, n) ==> s + n <= |bm| == |bm'| && HasRoom(bm, n)
  {
    FreeAt(bm, s, n) && exists id: byte :: Fresh(bm, s, n, id) && bm' == Painted(bm, s, n, id)
  }

  /** Painting free slots with a fresh id adds exactly that run. */
  lemma PaintAddsRun(bm: seq<byte>, s: nat, n: nat, id: byte, s': nat, n': nat)
    requires 0 < n && FreeAt(bm, s, n) && Fresh(bm, s, n, id)
    ensures IsRun(Painted(bm, s, n, id), s', n') <==> IsRun(bm, s', n') || (s' == s && n' == n)
  {
    var r := Painted(bm, s, n, id);
    if s' == s && n' == n {
    } else if IsRun(bm, s', n') {
      RunAvoidsFree(bm, s, n, s', n');
    } else if IsRun(r, s', n') {
      PaintedRunOld(bm, s, n, id, s', n');
    }
  }

  lemma RunNonzero(bm: seq<byte>, s: nat, n: nat, i: nat)
    requires IsRun(bm, s, n) && s <= i < s + n
    ensures bm[i] != 0
  {
  }

  lemma RunAvoidsFree(bm: seq<byte>, s: nat, n: nat, s': nat, n': nat)
    requires FreeAt(bm, s, n) && IsRun(bm, s', n')
    ensures n > 0 ==> s' + n' <= s || s + n <= s'
  {
    if n > 0 && s' < s + n && s < s' + n' {
      RunNonzero(bm, s', n', if s > s' then s else s');
    }
  }

  /** Every other run of the painted bitmap was there before. */
  lemma PaintedRunOld(bm: seq<byte>, s: nat, n: nat, id: byte, s': nat, n': nat)
    requires 0 < n && FreeAt(bm, s, n) && Fresh(bm, s, n, id)
    requires IsRun(Painted(bm, s, n, id), s', n') && !(s' == s && n' == n)
    ensures IsRun(bm, s', n')
  {
    var r := Painted(bm, s, n, id);
    assert IsRun(r, s, n);
    RunsApart(r, s, n, s', n');
  }

  /** Two runs are the same or do not overlap. */
  lemma RunsApart(bm: seq<byte>, s: nat, n: nat, s': nat, n': nat)
    requires IsRun(bm, s, n) && IsRun(bm, s', n')
    ensures (s == s' && n == n') || s + n <= s' || s' + n' <= s
  {
    if s < s' + n' && s' < s + n {
      assert bm[s] == bm[s'] by {
        var i := if s > s' then s else s';
        assert bm[i] == bm[s] && bm[i] == bm[s'];
      }
    }
  }

  /** Every slot in use lies in a run. */
  lemma RunAt(bm: seq<byte>, i: nat) returns (s: nat, n: nat)
    requires i < |bm| && bm[i] != 0
    ensures IsRun(bm, s, n) && s <= i < s + n
  {
    s := i;
    while s > 0 && bm[s - 1] == bm[i]
      invariant s <= i && forall k :: s <= k <= i ==> bm[k] == bm[i]
    {
      s := s - 1;
    }
    var e := i + 1;
    while e < |bm| && bm[e] == bm[i]
      invariant i < e <= |bm| && forall k :: s <= k < e ==> bm[k] == bm[i]
    {
      e := e + 1;
    }
    n := e - s;
  }

  /** Clearing a run removes exactly that run. */
  lemma ClearRemovesRun(bm: seq<byte>, s: nat, n: nat, s': nat, n': nat)
    requires IsRun(bm, s, n)
    ensures IsRun(Painted(bm, s, n, 0), s', n') <==> IsRun(bm, s', n') && s' != s
  {
    var r := Painted(bm, s, n, 0);
    assert FreeAt(r, s, n);
    if IsRun(bm, s', n') {
      RunsApart(bm, s, n, s', n');
    }
    if IsRun(r, s', n') {
      RunAvoidsFree(r, s, n, s', n');
    }
  }

  /** Clearing what was painted restores the bitmap. */
  lemma PaintThenClear(bm: seq<byte>, s: nat, n: nat, id: byte)
    requires FreeAt(bm, s, n)
    ensures Painted(Painted(bm, s, n, id), s, n, 0) == bm
  {
  }

  // ----- counting

  ghost function Used(bm: seq<byte>): (u: nat)
    ensures u <= |bm|
  {
    if bm == [] then 0 else Used(bm[1..]) + (if bm[0] != 0 then 1 else 0)
  }

  lemma {:induction false} UsedConcat(a: seq<byte>, b: seq<byte>)
    ensures Used(a + b) == Used(a) + Used(b)
  {
    if a == [] {
      assert a + b == b;
    } else {
      UsedConcat(a[1..], b);
      assert (a + b)[1..] == a[1..] + b;
    }
  }

  lemma {:induction false} UsedUniform(bm: seq<byte>)
    requires forall i :: 0 <= i < |bm| ==> (bm[i] == 0 <==> bm[0] == 0)
    ensures Used(bm) == if bm != [] && bm[0] != 0 then |bm| else 0
  {
    if |bm| > 1 {
      assert bm[1..][0] == bm[1];
      UsedUniform(bm[1..]);
    }
  }

  lemma UsedSplit(bm: seq<byte>, s: nat, n: nat)
    requires s + n <= |bm|
    ensures Used(bm) == Used(bm[..s]) + Used(bm[s..s + n]) + Used(bm[s + n..])
  {
    hide Used;
    assert bm == bm[..s] + bm[s..s + n] + bm[s + n..];
    UsedConcat(bm[..s], bm[s..s + n]);
    UsedConcat(bm[..s] + bm[s..s + n], bm[s + n..]);
  }

  /** Painting n free slots uses n more. */
  lemma UsedPaint(bm: seq<byte>, s: nat, n: nat, id: byte)
    requires FreeAt(bm, s, n) && id != 0
    ensures Used(Painted(bm, s, n, id)) == Used(bm) + n <= |bm|
  {
    hide Used, Painted;
    var r := Painted(bm, s, n, id);
    UsedSplit(bm, s, n);
    UsedSplit(r, s, n);
    assert r[..s] == bm[..s] && r[s + n..] == bm[s + n..];
    UsedUniform(bm[s..s + n]);
    UsedUniform(r[s..s + n]);
  }

  /** The slots from `s` on that share its id: what k_heapBMFree clears. A whole run if `s` is its start. */
  ghost predicate Stretch(bm: seq<byte>, s: nat, n: nat)
    ensures Stretch(bm, s, n) ==> 0 < n && s + n <= |bm|
  {
    && 0 < n && s + n <= |bm| && (forall i :: s <= i < s + n ==> bm[i] == bm[s])
    && (s + n == |bm| || bm[s + n] != bm[s])
  }

  lemma StretchIsRun(bm: seq<byte>, s: nat, m: nat, n: nat)
    requires Stretch(bm, s, m) && IsRun(bm, s, n)
    ensures m == n
  {
  }

  /** Clearing n slots in use gives n back. */
  lemma UsedClear(bm: seq<byte>, s: nat, n: nat)
    requires Stretch(bm, s, n) && bm[s] != 0
    ensures Used(Painted(bm, s, n, 0)) == Used(bm) - n
  {
    PaintThenPaint(bm, s, n);
    UsedPaint(Painted(bm, s, n, 0), s, n, bm[s]);
  }

  lemma PaintThenPaint(bm: seq<byte>, s: nat, n: nat)
    requires Stretch(bm, s, n)
    ensures Painted(Painted(bm, s, n, 0), s, n, bm[s]) == bm && FreeAt(Painted(bm, s, n, 0), s, n)
  {
  }

  /** The runs after an allocation are the runs before it and the new one. */
  lemma RunsAfterAlloc(bm: seq<byte>, bm': seq<byte>, s: nat, n: nat, s': nat, n': nat)
    requires 0 < n && OneMoreRun(bm, bm', s, n)
    ensures IsRun(bm', s', n') <==> IsRun(bm, s', n') || (s' == s && n' == n)
    ensures IsRun(bm, s', n') ==> s' + n' <= s || s + n <= s'
  {
    hide IsRun, Painted, Fresh;
    var id: byte :| Fresh(bm, s, n, id) && bm' == Painted(bm, s, n, id);
    PaintAddsRun(bm, s, n, id, s', n');
    if IsRun(bm, s', n') {
      RunAvoidsFree(bm, s, n, s', n');
    }
  }

  /** Freeing what was just allocated restores the bitmap. */
  lemma AllocThenFree(bm: seq<byte>, bm': seq<byte>, s: nat, n: nat)
    requires OneMoreRun(bm, bm', s, n)
    ensures Painted(bm', s, n, 0) == bm
  {
    var id: byte :| Fresh(bm, s, n, id) && bm' == Painted(bm, s, n, id);
    PaintThenClear(bm, s, n, id);
  }
}
