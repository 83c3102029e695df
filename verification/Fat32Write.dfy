/** fat32_write against the file as a byte string. */
module Fat32Write {
  import opened Words
  import opened BlockStore
  import opened Products
  import opened Fat32Table
  import opened Fat32Driver
  import opened Fat32Volume
  import opened Fat32Chains
  import opened Fat32Files
  import opened Fat32Alloc
  import opened Fat32Dirents
  import opened Fat32Overlay

  // ----- growing the chain

  /** The tail walk of fat32_write. */
  method FindTail(vol: Volume, start: nat, ghost ch: seq<nat>) returns (tail: nat, count: nat)
    requires vol.Valid() && IsChain(vol.v.fat, ch) && start == ch[0]
    modifies vol.d
    ensures vol.Valid() && vol.d.disk == old(vol.d.disk)
    ensures tail == ch[|ch| - 1] && count == |ch|
  {
    hide Volume.Valid;
    tail, count := start, 1;
    var n := vol.NextCluster(tail);
    while n < EOC
      invariant vol.Valid() && vol.d.disk == old(vol.d.disk)
      invariant 1 <= count <= |ch| && tail == ch[count - 1] && n == vol.v.fat[tail]
      decreases |ch| - count
    {
      ChainEnd(vol.v.fat, ch, count - 1);
      tail, count := n, count + 1;
      n := vol.NextCluster(tail);
    }
    ChainEnd(vol.v.fat, ch, count - 1);
  }

  /** Zeroing of a freshly reserved run. */
  method ZeroRun(vol: Volume, first: nat, n: nat)
    requires vol.Valid() && 2 <= first && first + n <= vol.g.MaxCluster() + 1
    modifies vol.d, vol`v, vol`steps
    ensures vol.Valid() && SameOutside(old(vol.d.disk), vol.d.disk, vol.g)
    ensures DataOnly(old(vol.v), vol.v, Span(first, n))
    ensures forall c :: first <= c < first + n ==> AllZero(vol.v.data[c])
    ensures old(vol.steps) <= vol.steps && StepsDataOnly(vol.steps, |old(vol.steps)|, old(vol.v), Span(first, n))
  {
    hide Volume.Valid;
    ghost var v0 := vol.v;
    var zeros := seq(vol.g.spc, _ => ZeroSector());
    for i := 0 to n
      invariant vol.Valid() && SameOutside(old(vol.d.disk), vol.d.disk, vol.g)
      invariant DataOnly(v0, vol.v, Span(first, n))
      invariant forall c :: first <= c < first + i ==> vol.v.data[c] == zeros
      invariant old(vol.steps) <= vol.steps && StepsDataOnly(vol.steps, |old(vol.steps)|, v0, Span(first, n))
    {
      assert Span(first, n)[i] == first + i;
      WriteCluster(vol, first + i, zeros);
    }
  }

  ghost predicate AllZero(cluster: seq<Sector>) { forall s :: 0 <= s < |cluster| ==> cluster[s] == ZeroSector() }

  /** `ch'` is `ch` grown by zeroed clusters that were free in `v0`; nothing else in use changed, and `ch` kept its
      data. */
  ghost predicate Extended(v0: View, v: View, ch: seq<nat>, ch': seq<nat>) {
    && Confined(v0, v, ch) && ch <= ch' && IsChain(v.fat, ch')
    && (forall i :: |ch| <= i < |ch'| ==> v0.fat[ch'[i]] == 0 && AllZero(v.data[ch'[i]]))
    && (forall i :: 0 <= i < |ch| ==> v.data[ch[i]] == v0.data[ch[i]])
  }

  /** One round of the growth loop: a zeroed run linked behind the tail. */
  method AppendRun(vol: Volume, tail: nat, want: nat, ghost ch: seq<nat>)
    returns (got: nat, tail': nat, ghost ch': seq<nat>)
    requires vol.Valid() && IsChain(vol.v.fat, ch) && tail == ch[|ch| - 1] && want > 0
    modifies vol, vol.d
    ensures vol.Valid() && SameOutside(old(vol.d.disk), vol.d.disk, vol.g)
    ensures got <= want && |ch'| == |ch| + got && Extended(old(vol.v), vol.v, ch, ch') && tail' == ch'[|ch'| - 1]
    ensures got == 0 <==> Full(old(vol.v))
    ensures got == 0 ==> vol.v == old(vol.v)
  {
    hide Volume.Valid;
    ghost var v0, disk0 := vol.v, vol.d.disk;
    var first;
    first, got := AllocRun(vol, want);
    if first == 0 {
      return 0, tail, ch;
    }
    ghost var v1, disk1 := vol.v, vol.d.disk;
    ZeroRun(vol, first, got);
    ghost var v2, disk2 := vol.v, vol.d.disk;
    vol.SetEntry(tail, first);
    OutsideTrans(disk0, disk1, disk2, vol.g);
    OutsideTrans(disk0, disk2, vol.d.disk, vol.g);
    tail' := first + got - 1;
    ch' := ch + Span(first, got);
    Appended(v0, v1, v2, vol.v, ch, first, got);
  }

  lemma Appended(v0: View, v1: View, v2: View, v3: View, ch: seq<nat>, first: nat, n: nat)
    requires |v0.data| == |v0.fat| <= EOC && IsChain(v0.fat, ch) && n > 0 && FreeRun(v0.fat, first, n)
    requires v1 == v0.(fat := Linked(v0.fat, first, n, n)) && DataOnly(v1, v2, Span(first, n))
    requires v3 == v2.(fat := v2.fat[ch[|ch| - 1] := first]) && |v2.data| == |v0.data|
    requires forall c :: first <= c < first + n ==> AllZero(v2.data[c])
    ensures Extended(v0, v3, ch, ch + Span(first, n))
  {
    var run := Span(first, n);
    forall i | 0 <= i < |ch| ensures v1.fat[ch[i]] == v0.fat[ch[i]] && ch[i] !in run {
      ChainEnd(v0.fat, ch, i);
    }
    SameChain(v0.fat, v1.fat, ch);
    LinkedIsChain(v0.fat, first, n);
    ChainJoin(v1.fat, ch, run);
    hide IsChain, Linked;
    assert Confined(v0, v3, ch) by { LinkConfined(v0, v1, v2, v3, ch, first, n); }
  }

  lemma LinkConfined(v0: View, v1: View, v2: View, v3: View, ch: seq<nat>, first: nat, n: nat)
    requires |v0.data| == |v0.fat| && IsChain(v0.fat, ch) && FreeRun(v0.fat, first, n)
    requires v1 == v0.(fat := Linked(v0.fat, first, n, n)) && DataOnly(v1, v2, Span(first, n))
    requires v3 == v2.(fat := v2.fat[ch[|ch| - 1] := first])
    ensures Confined(v0, v3, ch)
  {
  }

  lemma ExtendedTrans(v0: View, v1: View, v2: View, a: seq<nat>, b: seq<nat>, c: seq<nat>)
    requires Extended(v0, v1, a, b) && Extended(v1, v2, b, c) && IsChain(v0.fat, a) && |v0.fat| <= EOC
    ensures Extended(v0, v2, a, c)
  {
    forall i | 0 <= i < |b| ensures b[i] in a || (b[i] < |v0.fat| && v0.fat[b[i]] == 0) {
      assert i < |a| ==> b[i] == a[i];
    }
    ConfinedTrans(v0, v1, v2, a, b);
    forall i | |a| <= i < |c| ensures v0.fat[c[i]] == 0 && AllZero(v2.data[c[i]]) {
      if i < |b| {
        assert c[i] == b[i] && v2.data[b[i]] == v1.data[b[i]];
      } else {
        FreshStaysFree(v0, v1, v2, a, b, c, i);
      }
    }
    forall i | 0 <= i < |a| ensures v2.data[a[i]] == v0.data[a[i]] {
      assert b[i] == a[i];
    }
  }

  lemma FreshStaysFree(v0: View, v1: View, v2: View, a: seq<nat>, b: seq<nat>, c: seq<nat>, i: nat)
    requires Extended(v0, v1, a, b) && Extended(v1, v2, b, c) && |v1.fat| <= EOC && |b| <= i < |c|
    ensures v0.fat[c[i]] == 0
  {
    assert v1.fat[c[i]] == 0;
    if c[i] in a {
      var j :| 0 <= j < |a| && a[j] == c[i];
      assert b[j] == a[j];
      ChainEnd(v1.fat, b, j);
    }
  }

  /** The growth loop: as many clusters as the write needs, unless the volume fills up first. */
  method Extend(vol: Volume, tail0: nat, count0: nat, needed: nat, ghost ch: seq<nat>)
    returns (count: nat, ghost ch': seq<nat>)
    requires vol.Valid() && IsChain(vol.v.fat, ch) && tail0 == ch[|ch| - 1] && count0 == |ch|
    modifies vol, vol.d
    ensures vol.Valid() && SameOutside(old(vol.d.disk), vol.d.disk, vol.g)
    ensures Extended(old(vol.v), vol.v, ch, ch') && count == |ch'|
    ensures count <= (if count0 > needed then count0 else needed)
    ensures count < needed ==> Full(vol.v)
    ensures Full(old(vol.v)) ==> count == count0
    ensures count == count0 ==> vol.v == old(vol.v) && ch' == ch
  {
    hide Volume.Valid, Extended, SameOutside, Full;
    ghost var v0 := vol.v;
    var tail := tail0;
    count, ch' := count0, ch;
    ExtendedRefl(v0, ch);
    OutsideRefl(vol.d.disk, vol.g);
    ghost var full := false;
    while count < needed
      invariant vol.Valid() && SameOutside(old(vol.d.disk), vol.d.disk, vol.g)
      invariant Extended(v0, vol.v, ch, ch') && IsChain(vol.v.fat, ch') && count == |ch'| && tail == ch'[|ch'| - 1]
      invariant count0 <= count <= if count0 > needed then count0 else needed
      invariant count == count0 ==> vol.v == v0 && ch' == ch
      invariant Full(v0) ==> count == count0
      decreases needed - count
    {
      ghost var v1, b, disk1 := vol.v, ch', vol.d.disk;
      var got;
      got, tail, ch' := AppendRun(vol, tail, needed - count, b);
      OutsideTrans(old(vol.d.disk), disk1, vol.d.disk, vol.g);
      if got == 0 {
        ch' := b;
        return;
      }
      ExtendedTrans(v0, v1, vol.v, ch, b, ch');
      ExtendedChain(v1, vol.v, b, ch');
      count := count + got;
    }
  }

  lemma ExtendedRefl(v: View, ch: seq<nat>)
    requires IsChain(v.fat, ch) && |v.data| == |v.fat|
    ensures Extended(v, v, ch, ch)
  {
  }

  lemma ExtendedChain(v0: View, v: View, ch: seq<nat>, ch': seq<nat>)
    requires Extended(v0, v, ch, ch')
    ensures IsChain(v.fat, ch')
  {
  }

  // ----- writing the bytes

  lemma SectorsStep(g: Geometry, i: nat, n: nat)
    requires i < n
    ensures Sectors(g, i + 1) == Sectors(g, i) + g.spc <= Sectors(g, n)
  {
    RowOrder(i, n, g.spc);
    assert (i + 1) * g.spc == i * g.spc + g.spc;
  }

  /** The cluster starting at file sector `sec` carries the overlay of `data` at `offset`. */
  ghost predicate Overlaid(was: seq<Sector>, now: seq<Sector>, sec: nat, offset: nat, data: seq<byte>) {
    |now| == |was| && forall s :: 0 <= s < |was| ==> now[s] == Overlay(was[s], 512 * sec + 512 * s, offset, data)
  }

  /** Clusters 0..i of the chain carry the overlay; the others still hold `v0`'s data. */
  ghost predicate OverlaidTo(g: Geometry, v0: View, v: View, ch: seq<nat>, i: nat, offset: nat, data: seq<byte>)
    requires Shaped(g, v0) && Shaped(g, v) && InRange(g, ch) && i <= |ch|
  {
    && DataOnly(v0, v, ch)
    && (forall j :: 0 <= j < i ==> Overlaid(v0.data[ch[j]], v.data[ch[j]], Sectors(g, j), offset, data))
    && (forall j :: i <= j < |ch| ==> v.data[ch[j]] == v0.data[ch[j]])
  }

  /** The two loops after the growth: skip whole clusters before the offset, then rewrite cluster by cluster. */
  method Rewrite(vol: Volume, start: nat, offset: nat, data: seq<byte>, ghost ch: seq<nat>) returns (done: nat)
    requires vol.Valid() && IsChain(vol.v.fat, ch) && start == ch[0] && InRange(vol.g, ch)
    requires 0 < |data| && offset + |data| <= Capacity(vol.g, ch) <= FOUR_GIB && offset + |data| < FOUR_GIB
    modifies vol.d, vol`v, vol`steps
    ensures vol.Valid() && SameOutside(old(vol.d.disk), vol.d.disk, vol.g)
    ensures done == Reached(offset, |data|)
    ensures OverlaidTo(vol.g, old(vol.v), vol.v, ch, |ch|, offset, Cut(offset, data))
  {
    hide Volume.Valid, Sectors, Overlay, IsChain, SameOutside, OverlaidTo, Cut;
    ghost var v0, g, cut := vol.v, vol.g, Cut(offset, data);
    var size := vol.g.spc * 512;
    var cluster, pos, i := SkipClusters(vol, start, offset, ch);
    SkippedOverlay(g, v0, ch, i, offset, cut);
    OutsideRefl(vol.d.disk, vol.g);
    done := 0;
    while done < |data| && cluster < EOC
      invariant vol.Valid() && SameOutside(old(vol.d.disk), vol.d.disk, vol.g)
      invariant i <= |ch| && pos == 512 * Sectors(g, i) && offset < pos + size
      invariant vol.v.fat == v0.fat && if i < |ch| then cluster == ch[i] else cluster >= EOC
      invariant done == Done(pos, offset, |cut|) && OverlaidTo(g, v0, vol.v, ch, i, offset, cut)
      decreases |ch| - i
    {
      ghost var v1, disk1 := vol.v, vol.d.disk;
      SectorsStep(g, i, |ch|);
      var found;
      found, done := RewriteCluster(vol, cluster, pos, offset, data, done);
      OutsideTrans(old(vol.d.disk), disk1, vol.d.disk, vol.g);
      OverlayNext(g, v0, v1, vol.v, ch, i, offset, cut);
      if !found {
        i := i + 1;
        break;
      }
      pos := pos + size;
      cluster := vol.NextCluster(cluster);
      ChainEnd(v0.fat, ch, i);
      i := i + 1;
    }
    RestOverlay(g, v0, vol.v, ch, i, offset, cut);
  }

  method SkipClusters(vol: Volume, start: nat, offset: nat, ghost ch: seq<nat>)
    returns (cluster: nat, pos: nat, ghost i: nat)
    requires vol.Valid() && IsChain(vol.v.fat, ch) && start == ch[0] && InRange(vol.g, ch)
    requires offset < Capacity(vol.g, ch)
    modifies vol.d
    ensures vol.Valid() && vol.d.disk == old(vol.d.disk)
    ensures i < |ch| && cluster == ch[i] && pos == 512 * Sectors(vol.g, i) <= offset < pos + 512 * vol.g.spc
  {
    hide Volume.Valid, Sectors;
    var size := vol.g.spc * 512;
    cluster, pos, i := start, 0, 0;
    SectorsZero(vol.g);
    while pos + size <= offset && cluster < EOC
      invariant vol.Valid() && vol.d.disk == old(vol.d.disk)
      invariant i <= |ch| && pos == 512 * Sectors(vol.g, i) <= offset
      invariant if i < |ch| then cluster == ch[i] else cluster >= EOC
      decreases |ch| - i
    {
      SectorsStep(vol.g, i, |ch|);
      ChainEnd(vol.v.fat, ch, i);
      pos := pos + size;
      cluster := vol.NextCluster(cluster);
      i := i + 1;
    }
  }

  lemma SectorsZero(g: Geometry)
    ensures Sectors(g, 0) == 0
  {
  }

  lemma SectorsMono(g: Geometry, i: nat, n: nat)
    requires i <= n
    ensures Sectors(g, i) <= Sectors(g, n) && (i < n ==> Sectors(g, i) + g.spc <= Sectors(g, n))
  {
    if i < n {
      SectorsStep(g, i, n);
    }
  }

  lemma SkippedOverlay(g: Geometry, v: View, ch: seq<nat>, i: nat, offset: nat, data: seq<byte>)
    requires Shaped(g, v) && InRange(g, ch) && i < |ch| && 512 * Sectors(g, i) <= offset
    ensures OverlaidTo(g, v, v, ch, i, offset, data)
  {
    hide Sectors;
    forall j | 0 <= j < i ensures Overlaid(v.data[ch[j]], v.data[ch[j]], Sectors(g, j), offset, data) {
      SectorsMono(g, j, i);
      OverlaidOutside(v.data[ch[j]], Sectors(g, j), offset, data);
    }
  }

  lemma OverlayNext(g: Geometry, v0: View, v1: View, v2: View, ch: seq<nat>, i: nat, offset: nat, data: seq<byte>)
    requires Shaped(g, v0) && Shaped(g, v1) && Shaped(g, v2) && InRange(g, ch) && i < |ch| && IsChain(v0.fat, ch)
    requires OverlaidTo(g, v0, v1, ch, i, offset, data) && DataOnly(v1, v2, [ch[i]])
    requires Overlaid(v1.data[ch[i]], v2.data[ch[i]], Sectors(g, i), offset, data)
    ensures OverlaidTo(g, v0, v2, ch, i + 1, offset, data)
  {
    hide Sectors, Overlaid;
    ChainAcyclic(v0.fat, ch);
    forall j | 0 <= j < |ch| && j != i ensures v2.data[ch[j]] == v1.data[ch[j]] {
      assert ch[j] != ch[i];
    }
  }

  lemma RestOverlay(g: Geometry, v0: View, v: View, ch: seq<nat>, i: nat, offset: nat, data: seq<byte>)
    requires Shaped(g, v0) && Shaped(g, v) && InRange(g, ch) && i <= |ch|
    requires OverlaidTo(g, v0, v, ch, i, offset, data)
    requires Done(512 * Sectors(g, i), offset, |data|) == |data| || i == |ch|
    requires offset + |data| <= Capacity(g, ch)
    ensures OverlaidTo(g, v0, v, ch, |ch|, offset, data)
    ensures (i == |ch| ==> Done(512 * Sectors(g, i), offset, |data|) == |data|)
  {
    hide Sectors;
    forall j | 0 <= j < |ch| ensures Overlaid(v0.data[ch[j]], v.data[ch[j]], Sectors(g, j), offset, data) {
      if i <= j {
        SectorsMono(g, i, j);
        OverlaidOutside(v0.data[ch[j]], Sectors(g, j), offset, data);
      }
    }
  }

  lemma OverlaidOutside(cluster: seq<Sector>, sec: nat, offset: nat, data: seq<byte>)
    requires 512 * (sec + |cluster|) <= offset || offset + |data| <= 512 * sec || data == []
    ensures Overlaid(cluster, cluster, sec, offset, data)
  {
    forall s | 0 <= s < |cluster| ensures cluster[s] == Overlay(cluster[s], 512 * sec + 512 * s, offset, data) {
      OverlayOutside(cluster[s], 512 * sec + 512 * s, offset, data);
    }
  }

  // ----- the whole write

  /** An overlaid chain reads as the spliced byte string. */
  lemma OverlayContent(g: Geometry, v0: View, v1: View, v2: View, ch: seq<nat>, ch': seq<nat>, size: nat, offset: nat,
                       data: seq<byte>)
    requires Shaped(g, v0) && Shaped(g, v1) && Shaped(g, v2) && InRange(g, ch) && InRange(g, ch') && ch <= ch'
    requires forall i :: 0 <= i < |ch| ==> v1.data[ch[i]] == v0.data[ch[i]]
    requires OverlaidTo(g, v1, v2, ch', |ch'|, offset, data)
    requires size <= Capacity(g, ch) && offset <= size && offset + |data| <= Capacity(g, ch')
    ensures var size' := if offset + |data| > size then offset + |data| else size;
            size' <= Capacity(g, ch') && Content(g, v2, ch', size') == Written(Content(g, v0, ch, size), offset, data)
  {
    hide OverlaidTo, Sectors, FileSector;
    SectorsMono(g, |ch|, |ch'|);
    var size' := if offset + |data| > size then offset + |data| else size;
    var old_ := Content(g, v0, ch, size);
    forall p | 0 <= p < size' ensures Content(g, v2, ch', size')[p] == Written(old_, offset, data)[p] {
      OverlaySector(g, v1, v2, ch', p / 512, offset, data);
      if p < size {
        PrefixSector(g, v0, v1, ch, ch', p / 512);
      }
    }
  }

  lemma OverlaySector(g: Geometry, v1: View, v2: View, ch: seq<nat>, k: nat, offset: nat, data: seq<byte>)
    requires Shaped(g, v1) && Shaped(g, v2) && InRange(g, ch) && k < Sectors(g, |ch|)
    requires OverlaidTo(g, v1, v2, ch, |ch|, offset, data)
    ensures FileSector(g, v2, ch, k) == Overlay(FileSector(g, v1, ch, k), 512 * k, offset, data)
  {
    hide Sectors;
    SectorAt(g, k, |ch|);
    var i := k / g.spc;
    assert Overlaid(v1.data[ch[i]], v2.data[ch[i]], Sectors(g, i), offset, data);
    assert 512 * Sectors(g, i) + 512 * (k % g.spc) == 512 * k;
  }

  lemma PrefixSector(g: Geometry, v0: View, v1: View, ch: seq<nat>, ch': seq<nat>, k: nat)
    requires Shaped(g, v0) && Shaped(g, v1) && InRange(g, ch) && InRange(g, ch') && ch <= ch'
    requires forall i :: 0 <= i < |ch| ==> v1.data[ch[i]] == v0.data[ch[i]]
    requires k < Sectors(g, |ch|)
    ensures k < Sectors(g, |ch'|) && FileSector(g, v1, ch', k) == FileSector(g, v0, ch, k)
  {
    hide Sectors;
    SectorsMono(g, |ch|, |ch'|);
    SectorAt(g, k, |ch|);
    assert ch'[k / g.spc] == ch[k / g.spc];
  }

  /** `ch'` is the file's chain `ch` (perhaps empty) grown by clusters free in `v0`; all else in use is untouched. */
  ghost predicate Grown(v0: View, v: View, ch: seq<nat>, ch': seq<nat>) {
    && Confined(v0, v, ch) && ch <= ch' && IsChain(v.fat, ch')
    && (forall i :: |ch| <= i < |ch'| ==> v0.fat[ch'[i]] == 0)
    && (forall i :: 0 <= i < |ch| ==> ch[i] < |v0.data| && v.data[ch[i]] == v0.data[ch[i]])
  }

  lemma ExtendedGrown(v0: View, v: View, ch: seq<nat>, ch': seq<nat>)
    requires Extended(v0, v, ch, ch') && IsChain(v0.fat, ch)
    ensures Grown(v0, v, ch, ch')
  {
  }

  lemma FirstGrown(v0: View, v1: View, v: View, c: nat, ch': seq<nat>)
    requires 2 <= c < |v0.fat| == |v0.data| && v0.fat[c] == 0 && v1 == v0.(fat := v0.fat[c := EOC])
    requires Extended(v1, v, [c], ch')
    ensures Grown(v0, v, [], ch')
  {
    forall i | 0 <= i < |ch'| ensures v0.fat[ch'[i]] == 0 {
      assert i == 0 ==> ch'[i] == [c][0];
    }
  }

  /** Clusters needed to hold `end` bytes (at least one). */
  function Needed(g: Geometry, end: nat): (n: nat)
    requires g.spc > 0
    ensures n >= 1
  {
    var size := g.spc * 512;
    var n := (end + size - 1) / size;
    if n == 0 then 1 else n
  }

  lemma NeededIsEnough(g: Geometry, end: nat, n: nat)
    requires g.spc > 0 && n >= Needed(g, end)
    ensures 512 * Sectors(g, n) >= end
  {
    var size := g.spc * 512;
    var m := (end + size - 1) / size;
    assert m * size + (end + size - 1) % size == end + size - 1;
    assert m * size >= end;
    assert m * size == m * g.spc * 512;
    SectorsMono(g, m, n);
  }

  /** Clusters tile 4 GiB exactly, so a file below that needs no cluster past it. */
  lemma NeededFits(g: Geometry, end: nat, n: nat)
    requires g.PowerOfTwo() && end < FOUR_GIB && n <= Needed(g, end)
    ensures 512 * Sectors(g, n) <= FOUR_GIB
  {
    var all := 0x80_0000 / g.spc;
    assert all * g.spc == 0x80_0000;
    var size := g.spc * 512;
    var m := (end + size - 1) / size;
    assert all * size == all * g.spc * 512;
    RowOf(end + size - 1, size);
    if all < m {
      RowOrder(all, m, size);
    }
    SectorsMono(g, n, all);
  }

  /** Everything in fat32_write up to the byte copying: the chain as long as it can be made. */
  method GrowFile(vol: Volume, node: Node, end: nat, ghost ch: seq<nat>) returns (count: nat, ghost ch': seq<nat>)
    requires vol.Valid() && node.inode == (if ch == [] then 0 else ch[0]) && (ch != [] ==> IsChain(vol.v.fat, ch))
    modifies vol, vol.d, node
    ensures vol.Valid() && SameOutside(old(vol.d.disk), vol.d.disk, vol.g) && node.size == old(node.size)
    ensures count == 0 <==> ch == [] && Full(old(vol.v))
    ensures count == 0 ==> vol.v == old(vol.v) && node.inode == old(node.inode)
    ensures count > 0 ==> Grown(old(vol.v), vol.v, ch, ch') && count == |ch'| && node.inode == ch'[0]
    ensures 0 < count < Needed(vol.g, end) ==> Full(vol.v)
    ensures Full(old(vol.v)) ==> count == |ch|
    ensures count <= |ch| || count <= Needed(vol.g, end)
    ensures count == |ch| ==> vol.v == old(vol.v) && ch' == ch
  {
    hide Volume.Valid, Extended, SameOutside, Full, Grown, Needed;
    ghost var v0, disk0 := vol.v, vol.d.disk;
    ghost var mine := ch;
    OutsideRefl(disk0, vol.g);
    if node.inode == 0 {
      var c := AllocCluster(vol);
      if c == 0 {
        return 0, [];
      }
      node.inode := c;
      mine := [c];
    }
    ghost var v1, disk1 := vol.v, vol.d.disk;
    var tail, n := FindTail(vol, node.inode, mine);
    count, ch' := Extend(vol, tail, n, Needed(vol.g, end), mine);
    ExtendedChain(v1, vol.v, mine, ch');
    OutsideTrans(disk0, disk1, vol.d.disk, vol.g);
    ExtendedHead(v1, vol.v, mine, ch');
    if ch == [] {
      FirstGrown(v0, v1, vol.v, mine[0], ch');
    } else {
      ExtendedGrown(v0, vol.v, ch, ch');
    }
  }

  lemma ExtendedHead(v0: View, v: View, ch: seq<nat>, ch': seq<nat>)
    requires Extended(v0, v, ch, ch') && ch != []
    ensures ch'[0] == ch[0]
  {
  }

  /** Nothing but the written file changed. */
  ghost predicate OthersSame(g: Geometry, v0: View, own: Owners, v: View, own': Owners, l: Loc)
    requires Inv(g, v0, own) && Inv(g, v, own')
  {
    && own'.Keys == own.Keys
    && (forall o :: o in own && o != File(l) ==> own'[o] == own[o])
    && (forall l' :: File(l') in own && l' != l ==> Bytes(g, v, own', l') == Bytes(g, v0, own, l'))
  }

  /** Growing, overlaying and flushing together: the file reads as the spliced string, every other file as before. */
  lemma WriteDone(g: Geometry, v0: View, v1: View, v2: View, v3: View, own: Owners, l: Loc, ch': seq<nat>, offset: nat,
                  data: seq<byte>)
    requires Inv(g, v0, own) && File(l) in own && Shaped(g, v1) && Shaped(g, v2) && InBounds(g, l)
    requires Grown(v0, v1, own[File(l)], ch') && InRange(g, ch')
    requires offset + |data| <= Capacity(g, ch') <= FOUR_GIB && OverlaidTo(g, v1, v2, ch', |ch'|, offset, data)
    requires SlotWrite(g, v2, v3, l)
    requires var size := FileSize(Slot(g, v0, l));
             var size' := if offset + |data| > size then offset + |data| else size;
             offset <= size && size' < 0x1_0000_0000 && ch'[0] < 0x1_0000_0000 &&
             Slot(g, v3, l) == Patched(Slot(g, v2, l), ch'[0], size')
    ensures var own' := own[File(l) := ch'];
            && Inv(g, v3, own') && OthersSame(g, v0, own, v3, own', l)
            && Bytes(g, v3, own', l) == Written(Bytes(g, v0, own, l), offset, data)
  {
    hide Inv, Kept, Confined, Unowned, SlotWrite, OverlaidTo, Grown, Content;
    var rest := own - {File(l)};
    InvSplit(g, v0, own, l);
    GrownConfined(g, v0, v1, v2, own[File(l)], ch', offset, data);
    ConfinedKeeps(g, v0, v2, rest, own[File(l)]);
    KeptInv(g, v0, v2, rest);
    SlotWriteKept(g, v2, v3, rest, l);
    KeptInv(g, v2, v3, rest);
    WrittenFile(g, v0, v1, v2, v3, own, l, ch', offset, data);
    GrownUnowned(g, v0, v1, own, l, ch');
    InvJoin(g, v3, rest, l, ch');
    assert rest[File(l) := ch'] == own[File(l) := ch'];
    OthersRejoined(g, v0, own, v3, rest, l, ch');
  }

  lemma GrownConfined(g: Geometry, v0: View, v1: View, v2: View, ch: seq<nat>, ch': seq<nat>, offset: nat,
                      data: seq<byte>)
    requires Shaped(g, v1) && Shaped(g, v2) && InRange(g, ch')
    requires Grown(v0, v1, ch, ch') && OverlaidTo(g, v1, v2, ch', |ch'|, offset, data)
    ensures Confined(v0, v2, ch)
  {
    hide Overlaid, Sectors;
    forall i | 0 <= i < |ch'| ensures ch'[i] in ch || (ch'[i] < |v0.fat| && v0.fat[ch'[i]] == 0) {
      assert i < |ch| ==> ch'[i] == ch[i];
    }
    assert Confined(v1, v2, ch');
    ConfinedTrans(v0, v1, v2, ch, ch');
  }

  lemma GrownUnowned(g: Geometry, v0: View, v1: View, own: Owners, l: Loc, ch': seq<nat>)
    requires Inv(g, v0, own) && File(l) in own && Grown(v0, v1, own[File(l)], ch')
    ensures Unowned(own - {File(l)}, ch')
  {
    var rest := own - {File(l)};
    forall o, i, j | o in rest && 0 <= i < |ch'| && 0 <= j < |own[o]| ensures ch'[i] != own[o][j] {
      assert ChainOk(v0, o, own[o]) && Apart(own[File(l)], own[o]);
      ChainEnd(v0.fat, own[o], j);
      assert i < |own[File(l)]| ==> ch'[i] == own[File(l)][i];
    }
  }

  lemma OthersRejoined(g: Geometry, v0: View, own: Owners, v: View, rest: Owners, l: Loc, ch': seq<nat>)
    requires Inv(g, v0, own) && File(l) in own && rest == own - {File(l)} && Inv(g, v, rest)
    requires Inv(g, v, own[File(l) := ch'])
    requires forall l' :: File(l') in rest ==> Bytes(g, v, rest, l') == Bytes(g, v0, own, l')
    ensures OthersSame(g, v0, own, v, own[File(l) := ch'], l)
  {
    hide Inv, Content;
    var own' := own[File(l) := ch'];
    forall l' | File(l') in own && l' != l ensures Bytes(g, v, own', l') == Bytes(g, v0, own, l') {
      assert File(l') in rest && rest[File(l')] == own'[File(l')];
    }
  }

  lemma WrittenFile(g: Geometry, v0: View, v1: View, v2: View, v3: View, own: Owners, l: Loc, ch': seq<nat>,
                    offset: nat, data: seq<byte>)
    requires Inv(g, v0, own) && File(l) in own && Shaped(g, v1) && Shaped(g, v2) && InBounds(g, l)
    requires Grown(v0, v1, own[File(l)], ch') && InRange(g, ch')
    requires offset + |data| <= Capacity(g, ch') <= FOUR_GIB && OverlaidTo(g, v1, v2, ch', |ch'|, offset, data)
    requires SlotWrite(g, v2, v3, l)
    requires var size := FileSize(Slot(g, v0, l));
             var size' := if offset + |data| > size then offset + |data| else size;
             offset <= size && size' < 0x1_0000_0000 && ch'[0] < 0x1_0000_0000 &&
             Slot(g, v3, l) == Patched(Slot(g, v2, l), ch'[0], size')
    ensures FileOk(g, v3, l, ch')
    ensures Content(g, v3, ch', FileSize(Slot(g, v3, l))) == Written(Bytes(g, v0, own, l), offset, data)
  {
    hide Inv, Confined, SlotWrite, OverlaidTo, Content, Sectors, Unowned;
    var ch := own[File(l)];
    var size := FileSize(Slot(g, v0, l));
    FileStored(g, v0, own, l);
    GrownConfined(g, v0, v1, v2, ch, ch', offset, data);
    GrownUnowned(g, v0, v1, own, l, ch');
    SlotKept(g, v0, v2, own, l, ch');
    SlotWriteChain(g, v1, v2, v3, l, ch', offset, data);
    OverlayContent(g, v0, v1, v2, ch, ch', size, offset, data);
    SameContent(g, v2, ch', v3, ch', FileSize(Slot(g, v3, l)));
  }

  lemma FileStored(g: Geometry, v: View, own: Owners, l: Loc)
    requires Inv(g, v, own) && File(l) in own
    ensures InBounds(g, l) && Live(Slot(g, v, l))
    ensures InRange(g, own[File(l)]) && FileSize(Slot(g, v, l)) <= Capacity(g, own[File(l)]) <= FOUR_GIB
    ensures Bytes(g, v, own, l) == Content(g, v, own[File(l)], FileSize(Slot(g, v, l)))
  {
    assert FileOk(g, v, l, own[File(l)]);
  }

  /** Writes confined to the file's own chain leave its directory slot alone; no data cluster is that slot's cluster. */
  lemma SlotKept(g: Geometry, v0: View, v: View, own: Owners, l: Loc, ch': seq<nat>)
    requires Inv(g, v0, own) && File(l) in own && Shaped(g, v) && Confined(v0, v, own[File(l)])
    requires Unowned(own - {File(l)}, ch')
    ensures InBounds(g, l) && Slot(g, v, l) == Slot(g, v0, l) && l.cluster !in ch'
  {
    assert FileOk(g, v0, l, own[File(l)]);
    var id :| Dir(id) in own && l.cluster in own[Dir(id)];
    var rest := own - {File(l)};
    assert Dir(id) in rest && rest[Dir(id)] == own[Dir(id)];
    assert Apart(ch', own[Dir(id)]) && Apart(own[File(l)], own[Dir(id)]);
    var i :| 0 <= i < |own[Dir(id)]| && own[Dir(id)][i] == l.cluster;
    ChainEnd(v0.fat, own[Dir(id)], i);
  }

  lemma SlotWriteChain(g: Geometry, v1: View, v2: View, v3: View, l: Loc, ch': seq<nat>, offset: nat, data: seq<byte>)
    requires Shaped(g, v1) && Shaped(g, v2) && InRange(g, ch') && l.cluster !in ch'
    requires OverlaidTo(g, v1, v2, ch', |ch'|, offset, data) && SlotWrite(g, v2, v3, l)
    ensures v3.fat == v1.fat && forall i :: 0 <= i < |ch'| ==> v3.data[ch'[i]] == v2.data[ch'[i]]
  {
  }

  lemma OthersRefl(g: Geometry, v: View, own: Owners, l: Loc)
    requires Inv(g, v, own)
    ensures OthersSame(g, v, own, v, own, l)
  {
  }

  lemma WritableEnd(g: Geometry, count: nat, end: nat, offset: nat, ch: seq<nat>, ch': seq<nat>)
    requires g.PowerOfTwo() && 0 < count == |ch'| && |ch| <= count && Capacity(g, ch) <= FOUR_GIB && end < FOUR_GIB
    requires count <= |ch| || count <= Needed(g, end)
    ensures count * (g.spc * 512) == Capacity(g, ch') && 0 < Capacity(g, ch') <= FOUR_GIB
    ensures count >= Needed(g, end) ==> Capacity(g, ch') >= end
    ensures offset <= Capacity(g, ch) && Capacity(g, ch') <= offset ==> count == |ch| && Capacity(g, ch) == offset
  {
    assert count * (g.spc * 512) == count * g.spc * 512;
    SectorsMono(g, 0, count);
    if count >= Needed(g, end) {
      NeededIsEnough(g, end, count);
    }
    if |ch| < count {
      SectorsMono(g, |ch|, count);
      NeededFits(g, end, count);
    }
  }

  lemma GrownRange(g: Geometry, v: View, ch': seq<nat>, v0: View, ch: seq<nat>)
    requires Shaped(g, v) && Grown(v0, v, ch, ch')
    ensures IsChain(v.fat, ch') && InRange(g, ch') && ch'[0] < 0x1_0000_0000 && |ch| <= |ch'|
  {
  }

  lemma StillFull(g: Geometry, v1: View, v2: View, v3: View, ch': seq<nat>, offset: nat, data: seq<byte>, l: Loc)
    requires Shaped(g, v1) && Shaped(g, v2) && InRange(g, ch')
    requires OverlaidTo(g, v1, v2, ch', |ch'|, offset, data) && SlotWrite(g, v2, v3, l)
    ensures Full(v1) ==> Full(v3)
  {
  }

  /** The byte count as the C int that fat32_read and fat32_write return. */
  function AsInt(n: nat): (r: int)
    requires n < FOUR_GIB
    ensures r == n <==> n < 0x8000_0000
  {
    if n < 0x8000_0000 then n else n - FOUR_GIB
  }

  /** A write past the end of the file, or the first write of an empty file on a full volume. */
  ghost predicate Refused(v: View, ch: seq<nat>, size: nat, offset: nat) {
    offset > size || (ch == [] && Full(v))
  }

  /** The write starts right behind the last cluster and there is no other. */
  ghost predicate NoRoom(g: Geometry, v: View, ch: seq<nat>, offset: nat) {
    ch != [] && offset == Capacity(g, ch) && Full(v)
  }

  /** fat32_write, for a file that stays below 4 GiB. `wrote` bytes reach the file: all that the sector loops reach
      unless the volume fills up. The result is `wrote` as a C int, or -1. */
  method Write(vol: Volume, node: Node, offset: nat, data: seq<byte>, ghost own: Owners)
    returns (n: int, ghost wrote: nat, ghost own': Owners)
    requires vol.Valid() && Inv(vol.g, vol.v, own) && node.hasDirent && node.Synced(vol.g, vol.v, own)
    requires offset + |data| < FOUR_GIB
    modifies vol, vol.d, node
    ensures vol.Valid() && SameOutside(old(vol.d.disk), vol.d.disk, vol.g)
    ensures Inv(vol.g, vol.v, own') && node.Synced(vol.g, vol.v, own')
    ensures OthersSame(vol.g, old(vol.v), own, vol.v, own', node.loc)
    ensures SlotsKept(vol.g, old(vol.v), vol.v, own, node.loc)
    ensures var b, b' := Bytes(vol.g, old(vol.v), own, node.loc), Bytes(vol.g, vol.v, own', node.loc);
            wrote <= |data| && if wrote == 0 then b' == b else offset <= |b| && b' == Written(b, offset, data[..wrote])
    ensures wrote <= Reached(offset, |data|) && (n == -1 ==> wrote == 0) && (n == -1 || n == AsInt(wrote))
    ensures var ch := own[File(node.loc)];
            n == -1 <==> data != [] && (Refused(old(vol.v), ch, old(node.size), offset) ||
                                        (LAST_SECTOR <= offset && !NoRoom(vol.g, old(vol.v), ch, offset)))
    ensures var ch := own[File(node.loc)];
            data == [] || Refused(old(vol.v), ch, old(node.size), offset) || NoRoom(vol.g, old(vol.v), ch, offset) ==>
              wrote == 0 && vol.v == old(vol.v) && own' == own
    ensures !Refused(old(vol.v), own[File(node.loc)], old(node.size), offset) && !Full(vol.v) ==>
      && wrote == Reached(offset, |data|)
      && (n == |data| <==> data == [] || (offset + |data| <= LAST_SECTOR && |data| < 0x8000_0000))
  {
    hide Volume.Valid, Inv, SameOutside, Full, Grown, Needed, SlotsKept, OthersSame, Content, Written, Sectors, IsChain,
      InRange, Slot, FirstCluster, FileSize, Live;
    ghost var v0, l := vol.v, node.loc;
    ghost var ch := own[File(l)];
    own', wrote := own, 0;
    FileStored(vol.g, v0, own, l);
    FileStart(vol.g, v0, own, l);
    OutsideRefl(vol.d.disk, vol.g);
    OthersRefl(vol.g, v0, own, l);
    SlotsRefl(vol.g, v0, own, l);
    if data == [] {
      return 0, 0, own;
    }
    if offset > node.size {
      return -1, 0, own;
    }
    ghost var ch';
    var count;
    count, ch' := GrowFile(vol, node, offset + |data|, ch);
    if count == 0 {
      return -1, 0, own;
    }
    ghost var v1, disk1 := vol.v, vol.d.disk;
    GrownRange(vol.g, v1, ch', v0, ch);
    var end := offset + |data|;
    var writable := count * (vol.g.spc * 512);
    WritableEnd(vol.g, count, end, offset, ch, ch');
    if end > writable {
      end := writable;
    }
    if end <= offset {
      return 0, 0, own;
    }
    var reach;
    reach, own' := Overwrite(vol, node, offset, data[..end - offset], v0, own, ch');
    wrote := reach;
    OutsideTrans(old(vol.d.disk), disk1, vol.d.disk, vol.g);
    WrittenNothing(Bytes(vol.g, v0, own, l), offset);
    assert data[..end - offset][..wrote] == data[..wrote];
    if reach == 0 {
      return -1, 0, own';
    }
    n := AsInt(reach);
  }

  /** What the promise "bytes actually written" comes to at the end of 4 GiB, room or not: one byte at the last sector
      is refused, two sectors from the one before it come back as one, and the last 511 bytes of the largest file are
      not read. From 2^31 bytes on, a count comes back negative. */
  lemma LastSectorUnreached()
    ensures Reached(LAST_SECTOR, 1) == 0 && Reached(LAST_SECTOR - 512, 1023) == 512 && Reached(LAST_SECTOR, 511) == 0
    ensures AsInt(0x8000_0000) == -0x8000_0000
  {
  }

  /** The first of these, on any volume with room: the file grows no byte and keeps its contents. */
  method WriteAtLastSector(vol: Volume, node: Node, b: byte, ghost own: Owners) returns (n: int, ghost own': Owners)
    requires vol.Valid() && Inv(vol.g, vol.v, own) && node.hasDirent && node.Synced(vol.g, vol.v, own)
    requires node.size == LAST_SECTOR && !Full(vol.v)
    modifies vol, vol.d, node
    ensures n == -1 && vol.Valid() && Inv(vol.g, vol.v, own') && node.Synced(vol.g, vol.v, own')
    ensures Bytes(vol.g, vol.v, own', node.loc) == Bytes(vol.g, old(vol.v), own, node.loc)
  {
    hide Volume.Valid, Inv, Content;
    ghost var wrote;
    n, wrote, own' := Write(vol, node, LAST_SECTOR, [b], own);
  }

  lemma WrittenNothing(b: seq<byte>, offset: nat)
    requires offset <= |b|
    ensures Written(b, offset, []) == b
  {
  }

  /** The rest of fat32_write once the chain is as long as it gets: the bytes, the recorded size, the entry. */
  method Overwrite(vol: Volume, node: Node, offset: nat, data: seq<byte>,
                   ghost v0: View, ghost own: Owners, ghost ch': seq<nat>)
    returns (wrote: nat, ghost own': Owners)
    requires vol.Valid() && node.hasDirent && Inv(vol.g, v0, own) && File(node.loc) in own && InBounds(vol.g, node.loc)
    requires Grown(v0, vol.v, own[File(node.loc)], ch') && InRange(vol.g, ch') && ch' != [] && node.inode == ch'[0]
    requires node.size == FileSize(Slot(vol.g, v0, node.loc)) && offset <= node.size
    requires data != [] && offset + |data| <= Capacity(vol.g, ch') <= FOUR_GIB && offset + |data| < FOUR_GIB
    modifies vol, vol.d, node
    ensures vol.Valid() && SameOutside(old(vol.d.disk), vol.d.disk, vol.g)
    ensures own' == own[File(node.loc) := ch'] && Inv(vol.g, vol.v, own') && node.Synced(vol.g, vol.v, own')
    ensures OthersSame(vol.g, v0, own, vol.v, own', node.loc)
    ensures SlotsKept(vol.g, v0, vol.v, own, node.loc)
    ensures wrote == Reached(offset, |data|) && |Bytes(vol.g, v0, own, node.loc)| == old(node.size)
    ensures Bytes(vol.g, vol.v, own', node.loc) == Written(Bytes(vol.g, v0, own, node.loc), offset, data[..wrote])
    ensures Full(old(vol.v)) ==> Full(vol.v)
  {
    hide Volume.Valid, Inv, SameOutside, Full, Grown, SlotWrite, SlotsKept, OverlaidTo, OthersSame, Content, Patched,
      Written, Sectors;
    ghost var v1, disk1, l := vol.v, vol.d.disk, node.loc;
    FileStored(vol.g, v0, own, l);
    GrownRange(vol.g, v1, ch', v0, own[File(l)]);
    wrote := Rewrite(vol, node.inode, offset, data, ch');
    ghost var v2, disk2 := vol.v, vol.d.disk;
    own' := own[File(l) := ch'];
    if wrote == 0 {
      SectorsZero(vol.g);
      Unflushed(vol.g, v0, v1, v2, own, l, ch', offset, data[..wrote]);
    } else {
      if offset + wrote > node.size {
        node.size := offset + wrote;
      }
      FlushDirent(vol, node);
      OutsideTrans(disk1, disk2, vol.d.disk, vol.g);
    }
    WriteDone(vol.g, v0, v1, v2, vol.v, own, l, ch', offset, data[..wrote]);
    StillFull(vol.g, v1, v2, vol.v, ch', offset, data[..wrote], l);
    WriteKeepsSlots(vol.g, v0, v1, v2, vol.v, own, l, ch', offset, data[..wrote], node.inode, node.size);
  }

  /** Without a flush the entry still says what a flush would have written. */
  lemma Unflushed(g: Geometry, v0: View, v1: View, v2: View, own: Owners, l: Loc, ch': seq<nat>, offset: nat,
                  data: seq<byte>)
    requires Inv(g, v0, own) && File(l) in own && Shaped(g, v1) && Shaped(g, v2) && InBounds(g, l)
    requires Grown(v0, v1, own[File(l)], ch') && InRange(g, ch') && own[File(l)] != []
    requires OverlaidTo(g, v1, v2, ch', |ch'|, offset, data)
    ensures SlotWrite(g, v2, v2, l) && Slot(g, v2, l) == Slot(g, v0, l)
    ensures ch' != [] && ch'[0] < FOUR_GIB && FileSize(Slot(g, v0, l)) < FOUR_GIB
    ensures Slot(g, v2, l) == Patched(Slot(g, v2, l), ch'[0], FileSize(Slot(g, v0, l)))
  {
    hide Inv, Grown, OverlaidTo, Patched, Confined, Unowned;
    GrownConfined(g, v0, v1, v2, own[File(l)], ch', offset, data);
    GrownUnowned(g, v0, v1, own, l, ch');
    SlotKept(g, v0, v2, own, l, ch');
    FileStart(g, v0, own, l);
    GrownHead(v0, v1, own[File(l)], ch');
    PatchedSame(Slot(g, v2, l));
  }

  lemma GrownHead(v0: View, v: View, ch: seq<nat>, ch': seq<nat>)
    requires Grown(v0, v, ch, ch') && ch != []
    ensures ch' != [] && ch'[0] == ch[0]
  {
  }

  lemma PatchedSame(e: seq<byte>)
    requires |e| == DIRENT_SIZE
    ensures FirstCluster(e) < FOUR_GIB && FileSize(e) < FOUR_GIB && Patched(e, FirstCluster(e), FileSize(e)) == e
  {
    WordSame(e, 28);
    assert FirstCluster(e) / 0x1_0000 == Half(e, 20) && FirstCluster(e) % 0x1_0000 == Half(e, 26);
    HalfSame(e, 20);
    HalfSame(e, 26);
  }

  lemma WriteKeepsSlots(g: Geometry, v0: View, v1: View, v2: View, v3: View, own: Owners, l: Loc, ch': seq<nat>,
                        offset: nat, data: seq<byte>, inode: nat, size: nat)
    requires Inv(g, v0, own) && File(l) in own && Shaped(g, v1) && Shaped(g, v2) && InBounds(g, l)
    requires Grown(v0, v1, own[File(l)], ch') && InRange(g, ch') && OverlaidTo(g, v1, v2, ch', |ch'|, offset, data)
    requires SlotWrite(g, v2, v3, l) && inode < 0x1_0000_0000 && size < 0x1_0000_0000
    requires Slot(g, v3, l) == Patched(Slot(g, v2, l), inode, size)
    ensures SlotsKept(g, v0, v3, own, l)
  {
    hide Grown, OverlaidTo, SlotWrite, SlotsKept, Patched, Confined;
    GrownConfined(g, v0, v1, v2, own[File(l)], ch', offset, data);
    DirDataKept(g, v0, v2, own, own[File(l)]);
    PatchKeepsSlots(g, v0, v2, v3, v3, own, l, inode, size);
  }
}
