/** fat32_read: what the cluster walk returns is a slice of the file's byte string. */
module Fat32Read {
  import opened Words
  import opened BlockStore
  import opened Fat32Table
  import opened Fat32Driver
  import opened Fat32Volume
  import opened Fat32Chains
  import opened Fat32Files
  import opened Fat32Dirents
  import opened Fat32Overlay
  import opened Fat32Write

  /** The bytes [from, to) of `b`, empty when there are none. */
  function Slice(b: seq<byte>, from: nat, to: nat): seq<byte> {
    if from < to <= |b| then b[from..to] else []
  }

  /** Taking the touched part of sector `k` extends the slice up to the end of that sector. */
  lemma PartExtends(b: seq<byte>, sector: Sector, k: nat, offset: nat, size: nat)
    requires offset < 512 * k + 512 && 512 * k < offset + size <= |b|
    requires forall x :: 0 <= x < 512 && 512 * k + x < |b| ==> sector[x] == b[512 * k + x]
    ensures var from := PartFrom(512 * k, offset);
            var done := Done(512 * k, offset, size);
            var len := PartLen(512 * k, offset, size, done);
            && 0 <= len && from + len <= 512 && done + len == Done(512 * k + 512, offset, size)
            && Slice(b, offset, offset + done) + sector[from..from + len] == Slice(b, offset, offset + done + len)
  {
  }

  /** One cluster's worth of fat32_read's outer loop. */
  method ReadPart(vol: Volume, c: nat, pos: nat, offset: nat, size: nat, out0: seq<byte>,
                  ghost b: seq<byte>, ghost i: nat, ghost ch: seq<nat>)
    returns (found: bool, out: seq<byte>)
    requires vol.Valid() && InRange(vol.g, ch) && i < |ch| && c == ch[i] && pos == 512 * Sectors(vol.g, i)
    requires |b| <= Capacity(vol.g, ch) && b == Content(vol.g, vol.v, ch, |b|)
    requires 0 < size && offset + size <= |b| < FOUR_GIB && pos < offset + size
    requires offset < pos + 512 * vol.g.spc <= FOUR_GIB
    requires out0 == Slice(b, offset, offset + Done(pos, offset, Reached(offset, size)))
    ensures out == Slice(b, offset, offset + Done(pos + 512 * vol.g.spc, offset, Reached(offset, size)))
    ensures !found ==> Done(pos, offset, Reached(offset, size)) == Reached(offset, size)
  {
    hide Volume.Valid, Sectors, Content, PartFrom, PartLen, Slice, FileSector, Done, Reached;
    var first, last;
    found, first, last := Window(vol.g.spc, pos, offset, size);
    out := out0;
    if !found {
      NothingLeft(vol.g.spc, pos, offset, size);
      return;
    }
    var buf := ReadRun(vol, c, first, last + 1 - first);
    ghost var sec, reach := Sectors(vol.g, i), Reached(offset, size);
    var done := |out|;
    DoneEnds(vol.g.spc, first, last, pos, offset, size);
    DoneBound(pos, offset, reach);
    SliceLength(b, offset, Done(pos, offset, reach));
    for s := first to last + 1
      invariant done == Done(pos + 512 * s, offset, reach) && out == Slice(b, offset, offset + done)
    {
      var secStart := pos + 512 * s;
      SectorHolds(vol.g, vol.v, ch, b, i, s);
      PartReached(secStart, offset, size);
      PartExtends(b, buf[s - first], sec + s, offset, reach);
      var from := PartFrom(secStart, offset);
      var len := PartLen(secStart, offset, size, done);
      out := out + buf[s - first][from..from + len];
      done := done + len;
    }
  }

  lemma NothingLeft(spc: nat, pos: nat, offset: nat, size: nat)
    requires pos < offset + size && (LAST_SECTOR <= offset || LAST_SECTOR <= pos)
    ensures var n := Reached(offset, size);
            Done(pos, offset, n) == Done(pos + 512 * spc, offset, n) == n
  {
  }

  lemma DoneBound(at: nat, offset: nat, size: nat)
    ensures Done(at, offset, size) <= size
  {
  }

  lemma SliceLength(b: seq<byte>, from: nat, n: nat)
    requires from + n <= |b|
    ensures |Slice(b, from, from + n)| == n
  {
  }

  lemma SectorHolds(g: Geometry, v: View, ch: seq<nat>, b: seq<byte>, i: nat, s: nat)
    requires Shaped(g, v) && InRange(g, ch) && i < |ch| && s < g.spc
    requires |b| <= Capacity(g, ch) && b == Content(g, v, ch, |b|)
    ensures forall x :: 0 <= x < 512 && 512 * (Sectors(g, i) + s) + x < |b| ==>
      v.data[ch[i]][s][x] == b[512 * (Sectors(g, i) + s) + x]
  {
    IndexSector(i, s, g.spc, |ch|);
    var k := Sectors(g, i) + s;
    forall x | 0 <= x < 512 && 512 * k + x < |b| ensures v.data[ch[i]][s][x] == b[512 * k + x] {
      assert (512 * k + x) / 512 == k && (512 * k + x) % 512 == x;
      assert b[512 * k + x] == FileSector(g, v, ch, k)[x];
    }
  }

  /** What a reader asks for: the bytes from `offset` on, at most `size` of them, up to the end of the file. */
  function Asked(b: seq<byte>, offset: nat, size: nat): seq<byte> {
    Slice(b, offset, if offset + size > |b| then |b| else offset + size)
  }

  /** fat32_read: the part of the bytes asked for that lies below the last sector of 4 GiB, and its length as a C int.
      That is all of them, truly counted, exactly when they end at or below that sector and are fewer than 2^31. */
  method Read(vol: Volume, node: Node, offset: nat, size0: nat, ghost own: Owners) returns (n: int, out: seq<byte>)
    requires vol.Valid() && Inv(vol.g, vol.v, own) && node.Synced(vol.g, vol.v, own)
    modifies vol.d
    ensures vol.Valid() && vol.d.disk == old(vol.d.disk)
    ensures |out| < FOUR_GIB && n == AsInt(|out|)
    ensures var want := Asked(Bytes(vol.g, vol.v, own, node.loc), offset, size0);
            && out == want[..Reached(offset, |want|)]
            && (out == want && n == |want| <==>
                want == [] || (offset + |want| <= LAST_SECTOR && |want| < 0x8000_0000))
  {
    hide Volume.Valid, Inv, Content, Sectors;
    ghost var ch := own[File(node.loc)];
    ghost var b := Bytes(vol.g, vol.v, own, node.loc);
    FileStored(vol.g, vol.v, own, node.loc);
    FileStart(vol.g, vol.v, own, node.loc);
    if offset >= node.size || size0 == 0 {
      return 0, [];
    }
    var size := if offset + size0 > node.size then node.size - offset else size0;
    SectorsZero(vol.g);
    out := ReadChain(vol, node.inode, offset, size, b, ch);
    n := AsInt(|out|);
  }

  method ReadChain(vol: Volume, start: nat, offset: nat, size: nat, ghost b: seq<byte>, ghost ch: seq<nat>)
    returns (out: seq<byte>)
    requires vol.Valid() && IsChain(vol.v.fat, ch) && start == ch[0] && InRange(vol.g, ch)
    requires |b| <= Capacity(vol.g, ch) && b == Content(vol.g, vol.v, ch, |b|)
    requires 0 < size && offset + size <= |b| < FOUR_GIB && Capacity(vol.g, ch) <= FOUR_GIB
    modifies vol.d
    ensures vol.Valid() && vol.d.disk == old(vol.d.disk)
    ensures out == b[offset..offset + Reached(offset, size)]
  {
    hide Volume.Valid, Sectors, Content, IsChain;
    var step := vol.g.spc * 512;
    var cluster, pos, i := SkipClusters(vol, start, offset, ch);
    out := [];
    while |out| < size && cluster < EOC
      invariant vol.Valid() && vol.d.disk == old(vol.d.disk)
      invariant i <= |ch| && pos == 512 * Sectors(vol.g, i) && offset < pos + step
      invariant if i < |ch| then cluster == ch[i] else cluster >= EOC
      invariant out == Slice(b, offset, offset + Done(pos, offset, Reached(offset, size)))
      decreases |ch| - i
    {
      SectorsStep(vol.g, i, |ch|);
      var found;
      found, out := ReadPart(vol, cluster, pos, offset, size, out, b, i, ch);
      if !found {
        break;
      }
      pos := pos + step;
      cluster := vol.NextCluster(cluster);
      ChainEnd(vol.v.fat, ch, i);
      i := i + 1;
    }
  }
}
