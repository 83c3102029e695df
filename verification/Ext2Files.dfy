/** What an inode's blocks hold, byte by byte, and writing and reading it. */
module Ext2Files {
  import opened Words
  import opened BlockStore
  import opened Products
  import opened Ext2Pool
  import opened Ext2Volume
  import opened Ext2Map

  /** The file position of byte `o` of logical block `lb`. */
  function PosOf(g: Geometry, lb: nat, o: nat): nat { lb * g.bs + o }

  function Lb(g: Geometry, i: nat): nat
    requires g.bs > 0
  {
    i / g.bs
  }

  function Off(g: Geometry, i: nat): (o: nat)
    requires g.bs > 0
    ensures o < g.bs
  {
    i % g.bs
  }

  lemma PosSplits(g: Geometry, i: nat)
    requires g.bs > 0
    ensures PosOf(g, Lb(g, i), Off(g, i)) == i
  {
  }

  lemma PosUnique(g: Geometry, lb: nat, o: nat)
    requires o < g.bs
    ensures Lb(g, PosOf(g, lb, o)) == lb && Off(g, PosOf(g, lb, o)) == o
  {
    RowIndex(lb, o, g.bs);
  }

  lemma PosOrder(g: Geometry, a: nat, b: nat)
    requires a < b
    ensures PosOf(g, a, g.bs) <= PosOf(g, b, 0)
  {
    RowOrder(a, b, g.bs);
  }

  lemma PosNext(g: Geometry, a: nat)
    ensures PosOf(g, a, g.bs) == PosOf(g, a + 1, 0)
  {
  }

  /** Logical block `lb` of `ino` has a whole block. */
  ghost predicate There(g: Geometry, w: Vol, ino: nat, lb: nat) {
    && IsRef(g, w, Leaf(ino, lb)) && Where(g, w, Leaf(ino, lb)) != 0
    && Where(g, w, Leaf(ino, lb)) in w.data && |w.data[Where(g, w, Leaf(ino, lb))]| == g.bs
  }

  ghost function BlockOf(g: Geometry, w: Vol, ino: nat, lb: nat): (b: seq<byte>)
    requires There(g, w, ino, lb)
    ensures |b| == g.bs
  {
    w.data[Where(g, w, Leaf(ino, lb))]
  }

  /** The inode has no hole below its size. */
  ghost predicate Whole(g: Geometry, w: Vol, ino: nat) {
    && g.bs > 0 && IsInum(w, ino) && ino in w.inodes && |w.inodes[ino].blocks| == 15
    && forall i: nat :: i < w.inodes[ino].size ==> There(g, w, ino, Lb(g, i))
  }

  /** The file's bytes. */
  ghost function Content(g: Geometry, w: Vol, ino: nat): (c: seq<byte>)
    requires Whole(g, w, ino)
    ensures |c| == w.inodes[ino].size
    ensures forall i: nat :: i < |c| ==> There(g, w, ino, Lb(g, i)) && c[i] == BlockOf(g, w, ino, Lb(g, i))[Off(g, i)]
  {
    seq(w.inodes[ino].size, i requires 0 <= i < w.inodes[ino].size => BlockOf(g, w, ino, Lb(g, i))[Off(g, i)])
  }

  /** Inodes other than `a` and `b` are as they were, and so is every logical block of theirs. */
  ghost predicate Apart(g: Geometry, w: Vol, w': Vol, a: nat, b: nat) {
    && |w'.inums.used| == |w.inums.used| && w'.inodes.Keys == w.inodes.Keys
    && (forall j :: j in w.inodes && j in w'.inodes && j != a && j != b ==> w'.inodes[j] == w.inodes[j])
    && (forall j, k :: j != a && j != b && There(g, w, j, k) ==>
       There(g, w', j, k) && BlockOf(g, w', j, k) == BlockOf(g, w, j, k))
  }

  /** Then files other than these keep their contents. */
  lemma ApartFiles(g: Geometry, w: Vol, w': Vol, a: nat, b: nat, j: nat)
    requires Apart(g, w, w', a, b) && Whole(g, w, j) && j != a && j != b
    ensures Whole(g, w', j) && Content(g, w', j) == Content(g, w, j)
  {
    assert j in w.inodes.Keys;
    hide There, BlockOf, Content;
    SameContent(g, w, w', j);
  }

  lemma ApartTwice(g: Geometry, w: Vol, w1: Vol, w2: Vol, a: nat, b: nat)
    requires Apart(g, w, w1, a, b) && Apart(g, w1, w2, a, b)
    ensures Apart(g, w, w2, a, b)
  {
    hide There, BlockOf;
    forall j | j in w.inodes && j in w2.inodes && j != a && j != b
      ensures w2.inodes[j] == w.inodes[j]
    {
      assert j in w1.inodes.Keys;
    }
  }

  /** Same inode, same blocks below the size, same contents. */
  lemma SameContent(g: Geometry, w: Vol, w': Vol, j: nat)
    requires Whole(g, w, j) && IsInum(w', j) && j in w'.inodes && |w'.inodes[j].blocks| == 15
    requires w'.inodes[j].size == w.inodes[j].size
    requires forall lb :: There(g, w, j, lb) ==> There(g, w', j, lb) && BlockOf(g, w', j, lb) == BlockOf(g, w, j, lb)
    ensures Whole(g, w', j) && Content(g, w', j) == Content(g, w, j)
  {
    hide There, BlockOf;
    forall i: nat | i < w.inodes[j].size
      ensures There(g, w', j, Lb(g, i)) && BlockOf(g, w', j, Lb(g, i)) == BlockOf(g, w, j, Lb(g, i))
    {
    }
    var c, c' := Content(g, w, j), Content(g, w', j);
    assert forall i: nat :: i < |c| ==> c'[i] == c[i];
  }

  /** Logical blocks that keep their block and contents. */
  lemma ThereKept(g: Geometry, w: Vol, w': Vol, j: nat, lb: nat)
    requires There(g, w, j, lb) && LeavesKept(g, w, w') && IsRef(g, w', Leaf(j, lb))
    requires Where(g, w', Leaf(j, lb)) == Where(g, w, Leaf(j, lb))
    ensures There(g, w', j, lb) && BlockOf(g, w', j, lb) == BlockOf(g, w, j, lb)
  {
  }

  // ----- ext2_write, first phase

  /** Logical blocks [lo, hi) of `ino` have blocks now; those that had one kept it, and so did everything else. */
  ghost predicate Extended(g: Geometry, w0: Vol, w: Vol, ino: nat, lo: nat, hi: nat) {
    && (forall s :: IsRef(g, w, s) <==> IsRef(g, w0, s)) && LeavesKept(g, w0, w)
    && (forall s: Ref :: s.Leaf? && IsRef(g, w0, s) ==>
          Where(g, w, s) == Where(g, w0, s) || (s.ino == ino && lo <= s.lb < hi && Where(g, w0, s) == 0))
    && (forall k :: lo <= k < hi ==> IsRef(g, w, Leaf(ino, k)) && Where(g, w, Leaf(ino, k)) != 0)
  }

  lemma ExtendedStart(g: Geometry, w: Vol, ino: nat, lo: nat)
    requires Sound(g, w) && Owned(g, w)
    ensures Extended(g, w, w, ino, lo, lo)
  {
    LeavesSame(g, w, w);
  }

  lemma LeavesTwice(g: Geometry, w0: Vol, w: Vol, w': Vol)
    requires LeavesKept(g, w0, w) && LeavesKept(g, w, w')
    requires forall s: Ref :: s.Leaf? && IsRef(g, w0, s) && Where(g, w0, s) != 0 ==>
      IsRef(g, w, s) && Where(g, w, s) == Where(g, w0, s)
    ensures LeavesKept(g, w0, w')
  {
    hide IsRef, Where;
  }

  lemma ExtendedStep(g: Geometry, w0: Vol, w: Vol, w': Vol, ino: nat, lo: nat, lb: nat, b: nat)
    requires Extended(g, w0, w, ino, lo, lb) && Mapped(g, w, w', ino, lb, b) && LeavesKept(g, w, w') && lo <= lb
    requires b != 0 ==>
      IsRef(g, w, Leaf(ino, lb)) && (Where(g, w, Leaf(ino, lb)) == 0 || Where(g, w, Leaf(ino, lb)) == b)
    ensures Extended(g, w0, w', ino, lo, if b != 0 then lb + 1 else lb)
  {
    hide IsRef, Where;
    hide LeavesKept;
    LeavesTwice(g, w0, w, w');
  }

  lemma GrewParts(g: Geometry, v: Vol, v': Vol, ino: nat, nd: Inode, nd': Inode, lb: nat, b: nat)
    requires Grew(g, v, v', ino, nd, nd', lb, b) && IsInum(v, ino)
    ensures var w, w' := Pending(v, ino, nd), Pending(v', ino, nd');
      && Mapped(g, w, w', ino, lb, b) && LeavesKept(g, w, w') && IsInum(v', ino)
      && (b != 0 ==> IsRef(g, w, Leaf(ino, lb)) && Where(g, w, Leaf(ino, lb)) == At(g, v.data, nd, lb))
    ensures b == 0 ==> Abandoned(g, Pending(v, ino, nd), Pending(v', ino, nd))
  {
    hide LeavesKept, Owned, Abandoned;
  }

  /** Phase 1: a block for every logical block from `first` to `last`, as far as it goes. */
  method EnsureBlocks(vol: Volume, ghost ino: nat, nd0: Inode, first: nat, last: nat) returns (got: nat, nd: Inode)
    requires vol.Valid() && IsInum(vol.v, ino) && |nd0.blocks| == 15 && Owned(vol.g, Pending(vol.v, ino, nd0))
    requires first <= last
    modifies vol
    ensures vol.Valid() && |nd.blocks| == 15 && nd == nd0.(blocks := nd.blocks) && got <= last - first + 1
    ensures vol.v.inodes == old(vol.v).inodes && vol.v.inums == old(vol.v).inums
    ensures Owned(vol.g, Pending(vol.v, ino, nd))
    ensures Extended(vol.g, Pending(old(vol.v), ino, nd0), Pending(vol.v, ino, nd), ino, first, first + got)
    ensures got < last - first + 1 ==> first + got >= vol.g.MaxBlocks() || NoFree(vol.v)
    ensures got == 0 ==> Abandoned(vol.g, Pending(old(vol.v), ino, nd0), Pending(vol.v, ino, nd0))
  {
    hide Sound, Owned, Grew, Extended, Abandoned, Volume.Valid, NoFree, At;
    nd, got := nd0, 0;
    ghost var v0 := vol.v;
    PendingSound(vol.g, v0, ino, nd0);
    ExtendedStart(vol.g, Pending(v0, ino, nd0), ino, first);
    while got < last - first + 1
      invariant 0 <= got <= last - first + 1 && vol.Valid() && |nd.blocks| == 15 && nd == nd0.(blocks := nd.blocks)
      invariant vol.v.inodes == v0.inodes && vol.v.inums == v0.inums && Owned(vol.g, Pending(vol.v, ino, nd))
      invariant Extended(vol.g, Pending(v0, ino, nd0), Pending(vol.v, ino, nd), ino, first, first + got)
      invariant got == 0 ==> vol.v == v0 && nd == nd0
    {
      ghost var v1, nd1 := vol.v, nd;
      var b;
      b, nd := GetOrAlloc(vol, ino, nd, first + got);
      GrewParts(vol.g, v1, vol.v, ino, nd1, nd, first + got, b);
      ExtendedStep(vol.g, Pending(v0, ino, nd0), Pending(v1, ino, nd1), Pending(vol.v, ino, nd), ino, first,
        first + got, b);
      if b == 0 { return; }
      got := got + 1;
    }
  }

  // ----- ext2_write, second phase

  ghost predicate SameMap(g: Geometry, w: Vol, w': Vol) {
    && (forall s :: IsRef(g, w', s) <==> IsRef(g, w, s))
    && (forall s :: IsRef(g, w, s) ==> Where(g, w', s) == Where(g, w, s))
  }

  /** Rewriting a file's data block moves nothing and touches nothing else. */
  lemma WriteLeaf(g: Geometry, w: Vol, ino: nat, lb: nat, block: seq<byte>, w': Vol)
    requires Sound(g, w) && Owned(g, w) && There(g, w, ino, lb) && |block| == g.bs
    requires w' == w.(data := w.data[Where(g, w, Leaf(ino, lb)) := block])
    ensures SameMap(g, w, w') && Owned(g, w') && There(g, w', ino, lb) && BlockOf(g, w', ino, lb) == block
    ensures forall j, k :: (j != ino || k != lb) && There(g, w, j, k) ==>
      There(g, w', j, k) && BlockOf(g, w', j, k) == BlockOf(g, w, j, k)
  {
    var r := Leaf(ino, lb);
    forall s | IsRef(g, w, s)
      ensures Where(g, w', s) == Where(g, w, s)
    {
      var t := Indirect(s.ino);
      assert IsRef(g, w, t) && t != r;
      assert Where(g, w, r) != Where(g, w, t);
    }
    SameMapOwned(g, w, w');
    forall j, k | (j != ino || k != lb) && There(g, w, j, k)
      ensures There(g, w', j, k) && BlockOf(g, w', j, k) == BlockOf(g, w, j, k)
    {
      assert Leaf(j, k) != r && Where(g, w, r) != Where(g, w, Leaf(j, k));
    }
  }

  lemma SameMapOwned(g: Geometry, w: Vol, w': Vol)
    requires Owned(g, w) && SameMap(g, w, w') && w'.blocks == w.blocks && w'.inums == w.inums && w'.inodes == w.inodes
    ensures Owned(g, w')
  {
    hide IsRef, Where;
  }

  /** A block at logical position `lb` after the first `n` bytes of `data` were written at file position `off`. */
  ghost function Over(g: Geometry, was: seq<byte>, lb: nat, off: nat, data: seq<byte>, n: nat): (r: seq<byte>)
    requires |was| == g.bs && n <= |data|
    ensures |r| == g.bs
    ensures forall o :: 0 <= o < g.bs ==>
      r[o] == if off <= PosOf(g, lb, o) < off + n then data[PosOf(g, lb, o) - off] else was[o]
  {
    seq(g.bs, o requires 0 <= o < g.bs => if off <= PosOf(g, lb, o) < off + n then data[PosOf(g, lb, o) - off]
      else was[o])
  }

  /** One round of the copy loop: the bytes from position off + n to the end of their block, or of the data. */
  lemma OverStep(g: Geometry, was: seq<byte>, off: nat, data: seq<byte>, n: nat, copy: nat)
    requires |was| == g.bs && n + copy <= |data| && g.bs > 0 && Off(g, off + n) + copy <= g.bs
    ensures Over(g, was, Lb(g, off + n), off, data, n + copy)
         == Splice(Over(g, was, Lb(g, off + n), off, data, n), Off(g, off + n), data[n..n + copy])
  {
    var k, o := Lb(g, off + n), Off(g, off + n);
    PosSplits(g, off + n);
    forall p | 0 <= p < g.bs
      ensures PosOf(g, k, p) == off + n - o + p
    {
    }
    hide PosOf, Lb, Off;
  }

  lemma OverElse(g: Geometry, was: seq<byte>, lb: nat, off: nat, data: seq<byte>, n: nat, copy: nat)
    requires |was| == g.bs && n + copy <= |data| && g.bs > 0 && Off(g, off + n) + copy <= g.bs && lb != Lb(g, off + n)
    ensures Over(g, was, lb, off, data, n + copy) == Over(g, was, lb, off, data, n)
  {
    var k, o := Lb(g, off + n), Off(g, off + n);
    PosSplits(g, off + n);
    assert PosOf(g, k, g.bs) == off + n - o + g.bs;
    if lb < k {
      PosOrder(g, lb, k);
    } else {
      PosOrder(g, k, lb);
    }
    forall p | 0 <= p < g.bs
      ensures !(off + n <= PosOf(g, lb, p) < off + n + copy)
    {
      assert PosOf(g, lb, 0) <= PosOf(g, lb, p) < PosOf(g, lb, g.bs);
      assert PosOf(g, k, 0) == off + n - o;
    }
    hide PosOf, Lb, Off;
  }

  /** The first `n` bytes of `data` have reached their blocks, and nothing else has changed. */
  ghost predicate Overlaid(g: Geometry, w1: Vol, w: Vol, ino: nat, off: nat, data: seq<byte>, n: nat)
    requires n <= |data|
  {
    && SameMap(g, w1, w)
    && (forall j, k :: There(g, w1, j, k) ==> There(g, w, j, k))
    && (forall j, k :: There(g, w1, j, k) && There(g, w, j, k) ==>
          BlockOf(g, w, j, k) == if j == ino then Over(g, BlockOf(g, w1, j, k), k, off, data, n)
            else BlockOf(g, w1, j, k))
  }

  lemma OverlaidStart(g: Geometry, w: Vol, ino: nat, off: nat, data: seq<byte>)
    ensures Overlaid(g, w, w, ino, off, data, 0)
  {
    forall j, k | There(g, w, j, k)
      ensures Over(g, BlockOf(g, w, j, k), k, off, data, 0) == BlockOf(g, w, j, k)
    {
    }
  }

  lemma OverlaidStep(g: Geometry, w1: Vol, w: Vol, w': Vol, ino: nat, off: nat, data: seq<byte>, n: nat, copy: nat)
    requires n + copy <= |data| && g.bs > 0 && Off(g, off + n) + copy <= g.bs
    requires Overlaid(g, w1, w, ino, off, data, n) && SameMap(g, w, w')
    requires var k := Lb(g, off + n);
      && There(g, w1, ino, k) && There(g, w, ino, k) && There(g, w', ino, k)
      && BlockOf(g, w', ino, k) == Splice(BlockOf(g, w, ino, k), Off(g, off + n), data[n..n + copy])
      && forall j, i :: (j != ino || i != k) && There(g, w, j, i) ==>
           There(g, w', j, i) && BlockOf(g, w', j, i) == BlockOf(g, w, j, i)
    ensures Overlaid(g, w1, w', ino, off, data, n + copy)
  {
    hide There, BlockOf, Over, Splice, Lb, Off, IsRef, Where;
    forall j, k | There(g, w1, j, k)
      ensures There(g, w', j, k) && BlockOf(g, w', j, k)
        == if j == ino then Over(g, BlockOf(g, w1, j, k), k, off, data, n + copy) else BlockOf(g, w1, j, k)
    {
      assert There(g, w, j, k);
      if j == ino {
        if k == Lb(g, off + n) {
          OverStep(g, BlockOf(g, w1, j, k), off, data, n, copy);
        } else {
          OverElse(g, BlockOf(g, w1, j, k), k, off, data, n, copy);
        }
      }
    }
  }

  /** Phase 2: the read-modify-write loop over logical blocks that are all there. */
  method Rewrite(vol: Volume, ghost ino: nat, nd: Inode, off: nat, data: seq<byte>)
    requires vol.Valid() && IsInum(vol.v, ino) && |nd.blocks| == 15 && Owned(vol.g, Pending(vol.v, ino, nd))
    requires forall i :: off <= i < off + |data| ==> There(vol.g, Pending(vol.v, ino, nd), ino, Lb(vol.g, i))
    modifies vol
    ensures vol.Valid() && vol.v.inodes == old(vol.v).inodes && vol.v.inums == old(vol.v).inums
    ensures vol.v.blocks == old(vol.v).blocks && Owned(vol.g, Pending(vol.v, ino, nd))
    ensures Overlaid(vol.g, Pending(old(vol.v), ino, nd), Pending(vol.v, ino, nd), ino, off, data, |data|)
  {
    hide Sound, Owned, Overlaid, Volume.Valid, There, BlockOf, Lb, Off, SameMap, At, Splice;
    ghost var w1 := Pending(vol.v, ino, nd);
    var n := 0;
    OverlaidStart(vol.g, w1, ino, off, data);
    while n < |data|
      invariant 0 <= n <= |data| && vol.Valid() && vol.v.inodes == old(vol.v).inodes && vol.v.inums == old(vol.v).inums
      invariant vol.v.blocks == old(vol.v).blocks && Owned(vol.g, Pending(vol.v, ino, nd))
      invariant Overlaid(vol.g, w1, Pending(vol.v, ino, nd), ino, off, data, n)
    {
      var k, o := Lb(vol.g, off + n), Off(vol.g, off + n);
      ghost var w := Pending(vol.v, ino, nd);
      StillThere(vol.g, w1, w, ino, k, off, data, n);
      Resolves(vol.g, vol.v, ino, nd, k);
      var phys := At(vol.g, vol.v.data, nd, k);
      var copy := vol.g.bs - o;
      if copy > |data| - n { copy := |data| - n; }
      var block := Splice(vol.v.data[phys], o, data[n..n + copy]);
      vol.WriteData(phys, block);
      WriteLeaf(vol.g, w, ino, k, block, Pending(vol.v, ino, nd));
      OverlaidStep(vol.g, w1, w, Pending(vol.v, ino, nd), ino, off, data, n, copy);
      n := n + copy;
    }
  }

  lemma StillThere(g: Geometry, w1: Vol, w: Vol, ino: nat, k: nat, off: nat, data: seq<byte>, n: nat)
    requires n <= |data| && Overlaid(g, w1, w, ino, off, data, n) && There(g, w1, ino, k)
    ensures There(g, w, ino, k)
  {
  }

  /** What get_block returns for a logical block that is there. */
  lemma Resolves(g: Geometry, v: Vol, ino: nat, nd: Inode, k: nat)
    requires Sound(g, v) && IsInum(v, ino) && |nd.blocks| == 15 && Owned(g, Pending(v, ino, nd))
    requires There(g, Pending(v, ino, nd), ino, k)
    ensures var phys := At(g, v.data, nd, k);
      && phys == Where(g, Pending(v, ino, nd), Leaf(ino, k)) && phys in v.data && |v.data[phys]| == g.bs
      && IsBlock(g, v, phys) && v.data[phys] == BlockOf(g, Pending(v, ino, nd), ino, k)
    ensures Sound(g, Pending(v, ino, nd))
  {
    PendingSound(g, v, ino, nd);
    assert IsUsed(g, Pending(v, ino, nd), Where(g, Pending(v, ino, nd), Leaf(ino, k)));
  }
}
