/** ext2_write and ext2_read against the file's bytes. */
module Ext2Write {
  import opened Words
  import opened BlockStore
  import opened Products
  import opened Ext2Pool
  import opened Ext2Volume
  import opened Ext2Map
  import opened Ext2Files

  lemma LbOrder(g: Geometry, i: nat, j: nat)
    requires g.bs > 0 && i <= j
    ensures Lb(g, i) <= Lb(g, j)
  {
    PosSplits(g, i);
    PosSplits(g, j);
    if Lb(g, j) < Lb(g, i) {
      PosOrder(g, Lb(g, j), Lb(g, i));
    }
  }

  lemma LbBelow(g: Geometry, i: nat, k: nat)
    requires g.bs > 0
    ensures i < PosOf(g, k, 0) <==> Lb(g, i) < k
  {
    PosSplits(g, i);
    if Lb(g, i) < k {
      PosOrder(g, Lb(g, i), k);
    } else if k < Lb(g, i) {
      PosOrder(g, k, Lb(g, i));
    }
  }

  /** Blocks that were there still are, with their contents; and so are the new ones. */
  lemma ExtendedThere(g: Geometry, w0: Vol, w: Vol, ino: nat, lo: nat, hi: nat)
    requires Extended(g, w0, w, ino, lo, hi) && Sound(g, w) && Owned(g, w)
    ensures forall k :: lo <= k < hi ==> There(g, w, ino, k)
    ensures forall j, k :: There(g, w0, j, k) ==> There(g, w, j, k) && BlockOf(g, w, j, k) == BlockOf(g, w0, j, k)
  {
    forall k | lo <= k < hi
      ensures There(g, w, ino, k)
    {
      assert IsUsed(g, w, Where(g, w, Leaf(ino, k)));
    }
    forall j, k | There(g, w0, j, k)
      ensures There(g, w, j, k) && BlockOf(g, w, j, k) == BlockOf(g, w0, j, k)
    {
      ThereKept(g, w0, w, j, k);
    }
  }

  /** A new size leaves the blocks where they are. */
  lemma SizeAlone(g: Geometry, v: Vol, ino: nat, nd: Inode, size: nat)
    requires |nd.blocks| == 15 && IsInum(v, ino) && Owned(g, Pending(v, ino, nd))
    ensures var w, w' := Pending(v, ino, nd), Pending(v, ino, nd.(size := size));
      && Owned(g, w') && SameMap(g, w, w')
      && forall j, k :: There(g, w, j, k) ==> There(g, w', j, k) && BlockOf(g, w', j, k) == BlockOf(g, w, j, k)
  {
    var w, w' := Pending(v, ino, nd), Pending(v, ino, nd.(size := size));
    assert SameMap(g, w, w');
    hide IsRef, Where;
    assert forall i :: IsInum(w', i) && i in w'.inodes && |w'.inodes[i].blocks| == 15 ==> NoDouble(w'.inodes[i]) by {
      assert forall i :: i in w'.inodes ==> i in w.inodes && w'.inodes[i].blocks == w.inodes[i].blocks;
    }
  }

  lemma PendingSame(v: Vol, ino: nat)
    requires ino in v.inodes
    ensures Pending(v, ino, v.inodes[ino]) == v
  {
    assert v.inodes[ino := v.inodes[ino]] == v.inodes;
  }

  /** The byte at file position `i`, if its logical block is there. */
  ghost function ByteAt(g: Geometry, v: Vol, ino: nat, i: nat): byte
    requires g.bs > 0 && There(g, v, ino, Lb(g, i))
  {
    BlockOf(g, v, ino, Lb(g, i))[Off(g, i)]
  }

  /** `d` was written at `off` into the file, which may have holes, and into nothing else: the bytes of `d` are there,
      the other bytes that were there are as they were. What a filled hole holds around `d` is not said: its block comes
      as the medium had it. */
  ghost predicate WrotePart(g: Geometry, v: Vol, v': Vol, ino: nat, off: nat, d: seq<byte>) {
    && g.bs > 0 && IsInum(v, ino) && ino in v.inodes && ino in v'.inodes && |v'.inodes[ino].blocks| == 15
    && off <= v.inodes[ino].size && v'.inodes[ino].size == Larger(off + |d|, v.inodes[ino].size)
    && v'.inodes[ino].mode == v.inodes[ino].mode && v'.inodes[ino].links == v.inodes[ino].links
    && Apart(g, v, v', ino, ino) && (forall k :: There(g, v, ino, k) ==> There(g, v', ino, k))
    && (forall i: nat :: off <= i < off + |d| ==> There(g, v', ino, Lb(g, i)) && ByteAt(g, v', ino, i) == d[i - off])
    && (forall i: nat :: There(g, v, ino, Lb(g, i)) && !(off <= i < off + |d|) ==>
          There(g, v', ino, Lb(g, i)) && ByteAt(g, v', ino, i) == ByteAt(g, v, ino, i))
  }

  function Larger(a: nat, b: nat): nat { if a > b then a else b }

  /** `d` was written at `off` into the file, a byte string without holes, and into nothing else. */
  ghost predicate Wrote(g: Geometry, v: Vol, v': Vol, ino: nat, off: nat, d: seq<byte>) {
    && Whole(g, v, ino) && Whole(g, v', ino) && off <= v.inodes[ino].size
    && Content(g, v', ino) == Written(Content(g, v, ino), off, d)
    && Apart(g, v, v', ino, ino) && v'.inodes[ino].mode == v.inodes[ino].mode
       && v'.inodes[ino].links == v.inodes[ino].links
  }

  lemma PartOfWhole(g: Geometry, v: Vol, v': Vol, ino: nat, off: nat, d: seq<byte>)
    requires WrotePart(g, v, v', ino, off, d) && Whole(g, v, ino)
    ensures Wrote(g, v, v', ino, off, d)
  {
    hide There, BlockOf, Lb, Off, Apart;
    assert IsInum(v', ino) by { SameInums(g, v, v', ino); }
    forall i: nat | i < v'.inodes[ino].size ensures There(g, v', ino, Lb(g, i)) {
      assert i < v.inodes[ino].size ==> There(g, v, ino, Lb(g, i));
    }
    var c, c' := Content(g, v, ino), Content(g, v', ino);
    forall i: nat | i < |c'| ensures c'[i] == Written(c, off, d)[i] {
      assert c'[i] == ByteAt(g, v', ino, i);
      if !(off <= i < off + |d|) {
        assert There(g, v, ino, Lb(g, i)) && c[i] == ByteAt(g, v, ino, i);
      }
    }
  }

  lemma SameInums(g: Geometry, v: Vol, v': Vol, ino: nat)
    requires Apart(g, v, v', ino, ino) && IsInum(v, ino)
    ensures IsInum(v', ino)
  {
  }

  /** The written file and its neighbours, after both phases and the inode's new size. */
  lemma WroteIt(g: Geometry, w0: Vol, w1: Vol, w2: Vol, w3: Vol, ino: nat, off: nat, data: seq<byte>)
    requires g.bs > 0 && IsInum(w0, ino) && ino in w0.inodes && off <= w0.inodes[ino].size
    requires forall j, k :: There(g, w0, j, k) ==> There(g, w1, j, k) && BlockOf(g, w1, j, k) == BlockOf(g, w0, j, k)
    requires forall i :: off <= i < off + |data| ==> There(g, w1, ino, Lb(g, i))
    requires Overlaid(g, w1, w2, ino, off, data, |data|)
    requires forall j, k :: There(g, w2, j, k) ==> There(g, w3, j, k) && BlockOf(g, w3, j, k) == BlockOf(g, w2, j, k)
    requires w3.inums == w0.inums && w3.inodes.Keys == w0.inodes.Keys
    requires forall j :: j in w0.inodes && j != ino ==> w3.inodes[j] == w0.inodes[j]
    requires ino in w3.inodes && |w3.inodes[ino].blocks| == 15
    requires w3.inodes[ino].mode == w0.inodes[ino].mode && w3.inodes[ino].links == w0.inodes[ino].links
    requires w3.inodes[ino].size == Larger(off + |data|, w0.inodes[ino].size)
    ensures WrotePart(g, w0, w3, ino, off, data)
  {
    hide There, BlockOf, Lb, Off, Over, SameMap, PosOf;
    forall i: nat | There(g, w1, ino, Lb(g, i))
      ensures There(g, w3, ino, Lb(g, i))
      ensures ByteAt(g, w3, ino, i) == if off <= i < off + |data| then data[i - off] else ByteAt(g, w1, ino, i)
    {
      OverlaidByte(g, w1, w2, w3, ino, off, data, i);
    }
    forall j, k | There(g, w0, j, k) && j != ino
      ensures There(g, w3, j, k) && BlockOf(g, w3, j, k) == BlockOf(g, w0, j, k)
    {
      assert There(g, w1, j, k) && There(g, w2, j, k);
    }
    forall k | There(g, w0, ino, k) ensures There(g, w3, ino, k) {
      assert There(g, w1, ino, k) && There(g, w2, ino, k);
    }
    forall i: nat | There(g, w0, ino, Lb(g, i)) && !(off <= i < off + |data|)
      ensures There(g, w3, ino, Lb(g, i)) && ByteAt(g, w3, ino, i) == ByteAt(g, w0, ino, i)
    {
      assert There(g, w1, ino, Lb(g, i));
    }
  }

  lemma OverlaidByte(g: Geometry, w1: Vol, w2: Vol, w3: Vol, ino: nat, off: nat, data: seq<byte>, i: nat)
    requires g.bs > 0 && There(g, w1, ino, Lb(g, i)) && Overlaid(g, w1, w2, ino, off, data, |data|)
    requires forall j, k :: There(g, w2, j, k) ==> There(g, w3, j, k) && BlockOf(g, w3, j, k) == BlockOf(g, w2, j, k)
    ensures There(g, w3, ino, Lb(g, i))
    ensures ByteAt(g, w3, ino, i) == if off <= i < off + |data| then data[i - off] else ByteAt(g, w1, ino, i)
  {
    hide There, BlockOf, Lb, Off, SameMap, PosOf;
    var k, o := Lb(g, i), Off(g, i);
    PosSplits(g, i);
    assert There(g, w2, ino, k);
    assert BlockOf(g, w3, ino, k)[o] == Over(g, BlockOf(g, w1, ino, k), k, off, data, |data|)[o];
  }

  /** How much of a write fits the blocks there are: up to the end of logical block first + got - 1. */
  lemma Clamped(g: Geometry, off: nat, size: nat, got: nat) returns (n: nat)
    requires g.bs > 0 && size > 0 && got <= Lb(g, off + size - 1) - Lb(g, off) + 1
    ensures n == (if off + size > PosOf(g, Lb(g, off) + got, 0)
                  then (if PosOf(g, Lb(g, off) + got, 0) > off then PosOf(g, Lb(g, off) + got, 0) - off else 0)
                    else size)
    ensures n <= size && (n == 0 <==> got == 0) && (n < size ==> got < Lb(g, off + size - 1) - Lb(g, off) + 1)
    ensures forall i :: off <= i < off + n ==> Lb(g, off) <= Lb(g, i) < Lb(g, off) + got
    ensures n < size && Lb(g, off) + got >= g.MaxBlocks() ==> off + size > PosOf(g, g.MaxBlocks(), 0)
  {
    var first, end := Lb(g, off), PosOf(g, Lb(g, off) + got, 0);
    n := if off + size > end then (if end > off then end - off else 0) else size;
    LbBelow(g, off, first + got);
    LbBelow(g, off + size - 1, first + got);
    LbBelow(g, off + size - 1, g.MaxBlocks());
    if Lb(g, off) + got > g.MaxBlocks() {
      PosOrder(g, g.MaxBlocks(), first + got);
    }
    LbOrder(g, off, off + size - 1);
    forall i | off <= i < off + n
      ensures Lb(g, off) <= Lb(g, i) < Lb(g, off) + got
    {
      LbOrder(g, off, i);
      LbBelow(g, i, first + got);
    }
  }

  /** ext2_write. The bytes written are a prefix of the request, short only when the volume is full or the file at its
      largest; the file reads as before with that prefix put in place, and no other file reads differently. */
  method Write(vol: Volume, ino: nat, off: nat, data: seq<byte>) returns (rc: int)
    requires vol.Valid() && IsInum(vol.v, ino) && Owned(vol.g, vol.v)
    modifies vol
    ensures vol.Valid() && Owned(vol.g, vol.v) && vol.v.inums == old(vol.v).inums
    ensures rc == -1 <==> data != [] && off > old(vol.v).inodes[ino].size
    ensures rc == -1 || 0 <= rc <= |data|
    ensures rc == -1 || data == [] ==> vol.v == old(vol.v)
    ensures 0 <= rc < |data| ==> NoFree(vol.v) || off + |data| > PosOf(vol.g, vol.g.MaxBlocks(), 0)
    ensures rc >= 0 && off <= old(vol.v).inodes[ino].size ==>
      && WrotePart(vol.g, old(vol.v), vol.v, ino, off, data[..rc])
      && (Whole(vol.g, old(vol.v), ino) ==> Wrote(vol.g, old(vol.v), vol.v, ino, off, data[..rc]))
  {
    hide Sound, Owned, Volume.Valid, Whole, NoFree, Lb, PosOf, Extended, There, Abandoned, WrotePart, Wrote;
    InodeThere(vol.g, vol.v, ino);
    NothingWritten(vol.g, vol.v, ino, off);
    assert data[..0] == [];
    if |data| == 0 { return 0; }
    var nd := vol.v.inodes[ino];
    if off > nd.size { return -1; }
    ghost var v0 := vol.v;
    PendingSame(v0, ino);
    var first, last := Lb(vol.g, off), Lb(vol.g, off + |data| - 1);
    LbOrder(vol.g, off, off + |data| - 1);
    var got;
    got, nd := EnsureBlocks(vol, ino, nd, first, last);
    ghost var clamp := Clamped(vol.g, off, |data|, got);
    var size, end := |data|, PosOf(vol.g, first + got, 0);
    if off + |data| > end { size := if end > off then end - off else 0; }
    if size == 0 {
      AbandonedAll(vol.g, v0, vol.v, ino);
      return 0;
    }
    ghost var v1 := vol.v;
    PendingSound(vol.g, v1, ino, nd);
    ExtendedThere(vol.g, v0, Pending(v1, ino, nd), ino, first, first + got);
    FillAndCommit(vol, ino, nd, off, data[..size], v0);
    NoFreeSame(v1, vol.v);
    if Whole(vol.g, v0, ino) {
      PartOfWhole(vol.g, v0, vol.v, ino, off, data[..size]);
    }
    rc := size;
  }

  /** Phase 2 and the inode's new size. */
  method FillAndCommit(vol: Volume, ino: nat, nd: Inode, off: nat, data: seq<byte>, ghost v0: Vol)
    requires vol.Valid() && IsInum(vol.v, ino) && |nd.blocks| == 15 && Owned(vol.g, Pending(vol.v, ino, nd))
    requires forall i :: off <= i < off + |data| ==> There(vol.g, Pending(vol.v, ino, nd), ino, Lb(vol.g, i))
    requires IsInum(v0, ino) && ino in v0.inodes && off <= v0.inodes[ino].size
    requires nd == v0.inodes[ino].(blocks := nd.blocks)
    requires vol.v.inodes == v0.inodes && vol.v.inums == v0.inums
    requires forall j, k :: There(vol.g, v0, j, k) ==>
      There(vol.g, Pending(vol.v, ino, nd), j, k)
        && BlockOf(vol.g, Pending(vol.v, ino, nd), j, k) == BlockOf(vol.g, v0, j, k)
    modifies vol
    ensures vol.Valid() && Owned(vol.g, vol.v) && vol.v.inums == old(vol.v).inums && vol.v.blocks == old(vol.v).blocks
    ensures WrotePart(vol.g, v0, vol.v, ino, off, data)
  {
    hide Sound, Owned, Volume.Valid, Lb, Overlaid, There, WrotePart, BlockOf;
    InodeThere(vol.g, vol.v, ino);
    ghost var v1 := vol.v;
    Rewrite(vol, ino, nd, off, data);
    ghost var v2 := vol.v;
    var size := if off + |data| > nd.size then off + |data| else nd.size;
    SizeAlone(vol.g, v2, ino, nd, size);
    vol.WriteInode(ino, nd.(size := size));
    Finished(vol.g, v0, v1, v2, vol.v, ino, nd, nd.(size := size), off, data);
  }

  lemma NoFreeSame(v: Vol, v': Vol)
    requires v'.blocks == v.blocks
    ensures NoFree(v') <==> NoFree(v)
  {
  }

  lemma InodeThere(g: Geometry, v: Vol, ino: nat)
    requires Sound(g, v) && IsInum(v, ino)
    ensures ino in v.inodes && |v.inodes[ino].blocks| == 15 && g.bs > 0
  {
  }

  lemma NothingWritten(g: Geometry, v: Vol, ino: nat, off: nat)
    requires g.bs > 0 && IsInum(v, ino) && ino in v.inodes && |v.inodes[ino].blocks| == 15
    ensures off <= v.inodes[ino].size ==> WrotePart(g, v, v, ino, off, [])
    ensures off <= v.inodes[ino].size && Whole(g, v, ino) ==> Wrote(g, v, v, ino, off, [])
  {
  }

  lemma AbandonedAll(g: Geometry, v: Vol, v': Vol, ino: nat)
    requires g.bs > 0 && IsInum(v, ino) && ino in v.inodes && |v.inodes[ino].blocks| == 15
    requires Abandoned(g, v, Pending(v', ino, v.inodes[ino])) && v'.inodes == v.inodes
    ensures Owned(g, v') && forall off: nat :: off <= v.inodes[ino].size ==>
      WrotePart(g, v, v', ino, off, []) && (Whole(g, v, ino) ==> Wrote(g, v, v', ino, off, []))
  {
    PendingSame(v', ino);
    hide Abandoned, Wrote, Whole;
    assert v' == Pending(v', ino, v.inodes[ino]);
    AbandonedOwned(g, v, v');
    AbandonedKept(g, v, v');
    forall off: nat | off <= v.inodes[ino].size
      ensures WrotePart(g, v, v', ino, off, []) && (Whole(g, v, ino) ==> Wrote(g, v, v', ino, off, []))
    {
      hide There, BlockOf;
      if Whole(g, v, ino) {
        PartOfWhole(g, v, v', ino, off, []);
      }
    }
  }

  lemma AbandonedKept(g: Geometry, v: Vol, v': Vol)
    requires Abandoned(g, v, v')
    ensures forall j, k :: There(g, v, j, k) ==> There(g, v', j, k) && BlockOf(g, v', j, k) == BlockOf(g, v, j, k)
    ensures |v'.inums.used| == |v.inums.used|
  {
    forall j, k | There(g, v, j, k) ensures There(g, v', j, k) && BlockOf(g, v', j, k) == BlockOf(g, v, j, k) {
      ThereKept(g, v, v', j, k);
    }
  }

  lemma AbandonedOwned(g: Geometry, v: Vol, v': Vol)
    requires Abandoned(g, v, v')
    ensures Owned(g, v')
  {
  }

  lemma Finished(g: Geometry, v0: Vol, v1: Vol, v2: Vol, v3: Vol, ino: nat, nd: Inode, nd': Inode, off: nat,
                 data: seq<byte>)
    requires g.bs > 0 && IsInum(v0, ino) && ino in v0.inodes && off <= v0.inodes[ino].size
    requires |nd.blocks| == 15 && nd == v0.inodes[ino].(blocks := nd.blocks)
    requires v1.inums == v0.inums && v1.inodes == v0.inodes && v2.inums == v0.inums && v2.inodes == v0.inodes
    requires v3 == v2.(inodes := v2.inodes[ino := nd'])
    requires nd' == nd.(size := if off + |data| > nd.size then off + |data| else nd.size)
    requires forall j, k :: There(g, v0, j, k) ==>
      There(g, Pending(v1, ino, nd), j, k) && BlockOf(g, Pending(v1, ino, nd), j, k) == BlockOf(g, v0, j, k)
    requires forall i :: off <= i < off + |data| ==> There(g, Pending(v1, ino, nd), ino, Lb(g, i))
    requires Overlaid(g, Pending(v1, ino, nd), Pending(v2, ino, nd), ino, off, data, |data|)
    requires forall j, k :: There(g, Pending(v2, ino, nd), j, k) ==>
      There(g, v3, j, k) && BlockOf(g, v3, j, k) == BlockOf(g, Pending(v2, ino, nd), j, k)
    ensures WrotePart(g, v0, v3, ino, off, data)
  {
    assert v3.inodes.Keys == v0.inodes.Keys;
    hide There, BlockOf, Overlaid, Lb, Content, Apart, WrotePart;
    WroteIt(g, v0, Pending(v1, ino, nd), Pending(v2, ino, nd), v3, ino, off, data);
  }

  /** ext2_read: the bytes of the request that lie below the file's size, up to the first hole; of a file without holes,
      all of them. */
  method Read(vol: Volume, ino: nat, off: nat, size: nat) returns (out: seq<byte>)
    requires vol.Valid() && IsInum(vol.v, ino) && Owned(vol.g, vol.v)
    ensures var n := vol.v.inodes[ino].size;
            ReadPart(vol.g, vol.v, ino, off, if off >= n then 0 else if off + size > n then n - off else size, out)
    ensures Whole(vol.g, vol.v, ino) ==> out == ReadAt(Content(vol.g, vol.v, ino), off, size)
  {
    hide Sound, Owned, Volume.Valid, Lb, Off, There, At, Content, Whole, BlockOf, ReadPart;
    InodeThere(vol.g, vol.v, ino);
    var nd := vol.v.inodes[ino];
    ReadNothing(vol.g, vol.v, ino, off);
    ReadWhole(vol.g, vol.v, ino, off, size);
    if off >= nd.size { return []; }
    var want := if off + size > nd.size then nd.size - off else size;
    PendingSame(vol.v, ino);
    out := [];
    while |out| < want
      invariant |out| <= want && ReadPart(vol.g, vol.v, ino, off, |out|, out)
    {
      var cur := off + |out|;
      var k, o := Lb(vol.g, cur), Off(vol.g, cur);
      var phys := At(vol.g, vol.v.data, nd, k);
      HoleOrBlock(vol.g, vol.v, ino, k);
      if phys == 0 {
        ReadStops(vol.g, vol.v, ino, off, want, out);
        return;
      }
      Resolves(vol.g, vol.v, ino, nd, k);
      var copy := vol.g.bs - o;
      if copy > want - |out| { copy := want - |out|; }
      ReadMore(vol.g, vol.v, ino, off, out, copy);
      out := out + vol.v.data[phys][o..o + copy];
    }
  }

  /** `out` is what can be read of `n` bytes from `off` on: the bytes that are there, up to the first that is not. */
  ghost predicate ReadPart(g: Geometry, v: Vol, ino: nat, off: nat, n: nat, out: seq<byte>) {
    && g.bs > 0 && |out| <= n
    && (forall i: nat :: off <= i < off + |out| ==> There(g, v, ino, Lb(g, i)) && out[i - off] == ByteAt(g, v, ino, i))
    && (|out| < n ==> !There(g, v, ino, Lb(g, off + |out|)))
  }

  lemma ReadNothing(g: Geometry, v: Vol, ino: nat, off: nat)
    requires g.bs > 0
    ensures ReadPart(g, v, ino, off, 0, [])
  {
  }

  lemma ReadStops(g: Geometry, v: Vol, ino: nat, off: nat, n: nat, out: seq<byte>)
    requires ReadPart(g, v, ino, off, |out|, out) && |out| <= n && !There(g, v, ino, Lb(g, off + |out|))
    ensures ReadPart(g, v, ino, off, n, out)
  {
    hide There, Lb;
  }

  /** The rest of a block extends what has been read. */
  lemma ReadMore(g: Geometry, v: Vol, ino: nat, off: nat, out: seq<byte>, copy: nat)
    requires ReadPart(g, v, ino, off, |out|, out) && There(g, v, ino, Lb(g, off + |out|))
    requires Off(g, off + |out|) + copy <= g.bs
    ensures var cur := off + |out|;
            ReadPart(g, v, ino, off, |out| + copy,
              out + BlockOf(g, v, ino, Lb(g, cur))[Off(g, cur)..Off(g, cur) + copy])
  {
    hide There, BlockOf, Lb, Off;
    var cur := off + |out|;
    var o := Off(g, cur);
    var more := out + BlockOf(g, v, ino, Lb(g, cur))[o..o + copy];
    forall i: nat | off <= i < off + |more|
      ensures There(g, v, ino, Lb(g, i)) && more[i - off] == ByteAt(g, v, ino, i) {
      if cur <= i {
        InSameBlock(g, cur, i);
      }
    }
  }

  lemma HoleOrBlock(g: Geometry, v: Vol, ino: nat, k: nat)
    requires Sound(g, v) && Owned(g, v) && IsInum(v, ino) && ino in v.inodes && |v.inodes[ino].blocks| == 15
    ensures There(g, v, ino, k) <==> At(g, v.data, v.inodes[ino], k) != 0
  {
    if k < g.MaxBlocks() && At(g, v.data, v.inodes[ino], k) != 0 {
      assert IsRef(g, v, Leaf(ino, k));
      assert IsUsed(g, v, Where(g, v, Leaf(ino, k)));
    }
  }

  lemma BlockBelow(g: Geometry, v: Vol, ino: nat, i: nat)
    requires Whole(g, v, ino)
    ensures i < v.inodes[ino].size ==> There(g, v, ino, Lb(g, i))
  {
  }

  /** Without holes the read is the slice of the byte string. */
  lemma ReadWhole(g: Geometry, v: Vol, ino: nat, off: nat, size: nat)
    requires g.bs > 0 && IsInum(v, ino) && ino in v.inodes
    ensures var n := v.inodes[ino].size;
            var m := if off >= n then 0 else if off + size > n then n - off else size;
            Whole(g, v, ino) ==> forall out :: ReadPart(g, v, ino, off, m, out) ==>
              out == ReadAt(Content(g, v, ino), off, size)
  {
    hide There, BlockOf, Lb, Off;
    var n := v.inodes[ino].size;
    var m := if off >= n then 0 else if off + size > n then n - off else size;
    if Whole(g, v, ino) {
      var c := Content(g, v, ino);
      forall out | ReadPart(g, v, ino, off, m, out) ensures out == ReadAt(c, off, size) {
        BlockBelow(g, v, ino, if |out| < m then off + |out| else n);
        assert forall k :: 0 <= k < |out| ==> out[k] == c[off + k] by {
          forall k | 0 <= k < |out| ensures out[k] == c[off + k] {
            assert out[(off + k) - off] == ByteAt(g, v, ino, off + k);
          }
        }
      }
    }
  }

  function ReadAt(c: seq<byte>, off: nat, size: nat): seq<byte> {
    if off >= |c| then [] else if off + size > |c| then c[off..] else c[off..off + size]
  }

  lemma InSameBlock(g: Geometry, cur: nat, x: nat)
    requires g.bs > 0 && cur <= x && Off(g, cur) + (x - cur) < g.bs
    ensures Lb(g, x) == Lb(g, cur) && Off(g, x) == Off(g, cur) + (x - cur)
  {
    PosSplits(g, cur);
    PosUnique(g, Lb(g, cur), Off(g, cur) + (x - cur));
    assert PosOf(g, Lb(g, cur), Off(g, cur) + (x - cur)) == x;
  }

  /** What was written is what is read back, and a range clear of it reads as before. */
  lemma ReadBack(g: Geometry, v: Vol, v': Vol, ino: nat, off: nat, d: seq<byte>, i: nat, n: nat)
    requires Wrote(g, v, v', ino, off, d)
    ensures ReadAt(Content(g, v', ino), off, |d|) == d
    ensures i + n <= off || (off + |d| <= i && off + |d| <= v.inodes[ino].size) ==>
      ReadAt(Content(g, v', ino), i, n) == ReadAt(Content(g, v, ino), i, n)
  {
    hide Content;
    var c, c' := Content(g, v, ino), Content(g, v', ino);
    assert d != [] ==> c'[off..off + |d|] == d;
  }
}
