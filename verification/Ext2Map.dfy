/** ext2's block map: twelve direct block numbers and one indirect block of them; who refers to which block. */
module Ext2Map {
  import opened Words
  import opened BlockStore
  import opened Products
  import opened Ext2Pool
  import opened Ext2Volume

  /** Entry `i` of an indirect block. */
  function Ptr(block: seq<byte>, i: nat): nat
    requires 4 * i + 4 <= |block|
  {
    Word(block, 4 * i)
  }

  /** get_block: the block of logical block `lb`, 0 for none. */
  function At(g: Geometry, data: map<nat, seq<byte>>, nd: Inode, lb: nat): nat
    requires |nd.blocks| == 15
  {
    if lb < 12 then nd.blocks[lb]
    else if lb < g.MaxBlocks() && nd.blocks[12] != 0 && nd.blocks[12] in data
      && 4 * (lb - 12) + 4 <= |data[nd.blocks[12]]|
    then Ptr(data[nd.blocks[12]], lb - 12)
    else 0
  }

  /** A place where a block number is kept: a logical block of an inode, or its indirect block. */
  datatype Ref = Leaf(ino: nat, lb: nat) | Indirect(ino: nat)

  ghost predicate IsRef(g: Geometry, v: Vol, r: Ref) {
    IsInum(v, r.ino) && r.ino in v.inodes && |v.inodes[r.ino].blocks| == 15 && (r.Leaf? ==> r.lb < g.MaxBlocks())
  }

  ghost function Where(g: Geometry, v: Vol, r: Ref): nat
    requires IsRef(g, v, r)
  {
    if r.Leaf? then At(g, v.data, v.inodes[r.ino], r.lb) else v.inodes[r.ino].blocks[12]
  }

  /** Whatever is referred to is a reserved block, and it is referred to from one place only. */
  ghost predicate Owned(g: Geometry, v: Vol) {
    && (forall r :: IsRef(g, v, r) && Where(g, v, r) != 0 ==> IsUsed(g, v, Where(g, v, r)))
    && (forall r, s :: IsRef(g, v, r) && IsRef(g, v, s) && r != s && Where(g, v, r) != 0 ==>
       Where(g, v, r) != Where(g, v, s))
    && (forall i :: IsInum(v, i) && i in v.inodes && |v.inodes[i].blocks| == 15 ==> NoDouble(v.inodes[i]))
  }

  /** No double or triple indirect blocks, which this driver neither grows nor frees. */
  predicate NoDouble(nd: Inode)
    requires |nd.blocks| == 15
  {
    nd.blocks[13] == 0 && nd.blocks[14] == 0
  }

  /** The volume as it will be once the inode in memory is written back. */
  ghost function Pending(v: Vol, ino: nat, nd: Inode): Vol { v.(inodes := v.inodes[ino := nd]) }

  /** The same places refer to the same blocks, except that `r` now refers to `b`. */
  ghost predicate Repointed(g: Geometry, w: Vol, w': Vol, r: Ref, b: nat) {
    && (forall s :: IsRef(g, w', s) <==> IsRef(g, w, s))
    && (forall s :: IsRef(g, w, s) ==> Where(g, w', s) == if s == r then b else Where(g, w, s))
  }

  /** Nothing a logical block refers to has lost its contents. */
  ghost predicate LeavesKept(g: Geometry, w: Vol, w': Vol) {
    forall r: Ref :: r.Leaf? && IsRef(g, w, r) && Where(g, w, r) != 0 ==>
      Where(g, w, r) in w.data && Where(g, w, r) in w'.data && w'.data[Where(g, w, r)] == w.data[Where(g, w, r)]
  }

  /** A block that was free, newly referred to from one place. */
  lemma OwnedOneMore(g: Geometry, w: Vol, w': Vol, r: Ref, b: nat)
    requires Owned(g, w) && Repointed(g, w, w', r, b) && IsRef(g, w, r) && b != 0 && IsFree(g, w, b) && IsUsed(g, w', b)
    requires forall c: nat :: IsUsed(g, w, c) ==> IsUsed(g, w', c)
    requires forall i :: IsInum(w', i) && i in w'.inodes && |w'.inodes[i].blocks| == 15 ==> NoDouble(w'.inodes[i])
    ensures Owned(g, w')
  {
    hide IsRef, Where, IsFree, IsUsed, NoDouble;
    assert forall s :: IsRef(g, w, s) && Where(g, w, s) != 0 ==> Where(g, w, s) != b by {
      assert !IsUsed(g, w, b) by { FreeNotUsed(g, w, b); }
    }
  }

  lemma FreeNotUsed(g: Geometry, w: Vol, b: nat)
    requires IsFree(g, w, b)
    ensures !IsUsed(g, w, b)
  {
  }

  /** The common end of the three cases below: a free block was reserved and one place refers to it. */
  lemma Referred(g: Geometry, w: Vol, w': Vol, ino: nat, r: Ref, b: nat)
    requires Sound(g, w) && Owned(g, w) && IsInum(w, ino) && IsFree(g, w, b) && Markable(g, w, b)
    requires w'.blocks == Marked(g, w, b).blocks && w'.inums == w.inums && IsRef(g, w, r) && Repointed(g, w, w', r, b)
    requires ino in w'.inodes && |w'.inodes[ino].blocks| == 15 && NoDouble(w'.inodes[ino])
    requires w'.inodes == w.inodes[ino := w'.inodes[ino]]
    ensures Owned(g, w')
  {
    MarkedUses(g, w, w', b);
    ZeroNotFree(g, w);
    forall i | IsInum(w', i) && i in w'.inodes && |w'.inodes[i].blocks| == 15
      ensures NoDouble(w'.inodes[i])
    {
    }
    hide Sound, Owned, Repointed, IsRef, Where;
    OwnedOneMore(g, w, w', r, b);
  }

  lemma MarkedUses(g: Geometry, w: Vol, w': Vol, b: nat)
    requires IsFree(g, w, b) && Markable(g, w, b) && w'.blocks == Marked(g, w, b).blocks
    ensures IsUsed(g, w', b) && forall c: nat :: IsUsed(g, w, c) ==> IsUsed(g, w', c)
  {
  }

  lemma ZeroNotFree(g: Geometry, w: Vol)
    requires Sound(g, w)
    ensures !IsFree(g, w, 0)
  {
  }

  /** A direct slot of `ino` is filled with a free block. */
  lemma SetDirect(g: Geometry, w: Vol, ino: nat, lb: nat, b: nat, w': Vol)
    requires Sound(g, w) && Owned(g, w) && IsInum(w, ino) && lb < 12 && IsFree(g, w, b) && Markable(g, w, b)
    requires var nd := w.inodes[ino]; w' == Pending(Marked(g, w, b), ino, nd.(blocks := nd.blocks[lb := b]))
    ensures Owned(g, w') && Repointed(g, w, w', Leaf(ino, lb), b) && LeavesKept(g, w, w')
  {
    LeavesSame(g, w, w');
    assert NoDouble(w.inodes[ino]) && NoDouble(w'.inodes[ino]);
    SetDirectRefs(g, w, ino, lb, b, w');
    hide Sound, Owned, LeavesKept, Repointed;
    Referred(g, w, w', ino, Leaf(ino, lb), b);
  }

  lemma SetDirectRefs(g: Geometry, w: Vol, ino: nat, lb: nat, b: nat, w': Vol)
    requires IsInum(w, ino) && ino in w.inodes && |w.inodes[ino].blocks| == 15 && lb < 12
    requires w'.inums == w.inums && w'.data == w.data
    requires w'.inodes == w.inodes[ino := w.inodes[ino].(blocks := w.inodes[ino].blocks[lb := b])]
    ensures Repointed(g, w, w', Leaf(ino, lb), b)
  {
  }

  lemma LeavesSame(g: Geometry, w: Vol, w': Vol)
    requires Sound(g, w) && Owned(g, w) && w'.data == w.data
    ensures LeavesKept(g, w, w')
  {
    forall r: Ref | r.Leaf? && IsRef(g, w, r) && Where(g, w, r) != 0
      ensures Where(g, w, r) in w.data
    {
      assert IsUsed(g, w, Where(g, w, r));
    }
  }

  /** A block that no logical block refers to is rewritten. */
  lemma LeavesElse(g: Geometry, w: Vol, w': Vol, c: nat, block: seq<byte>)
    requires Sound(g, w) && Owned(g, w) && w'.data == w.data[c := block]
    requires forall r: Ref :: r.Leaf? && IsRef(g, w, r) ==> Where(g, w, r) != c
    ensures LeavesKept(g, w, w')
  {
    forall r: Ref | r.Leaf? && IsRef(g, w, r) && Where(g, w, r) != 0
      ensures Where(g, w, r) in w.data
    {
      assert IsUsed(g, w, Where(g, w, r));
    }
  }

  function ZeroBlock(n: nat): (z: seq<byte>)
    ensures |z| == n && forall i :: 0 <= i < n ==> z[i] == 0
  {
    seq(n, _ => 0)
  }

  lemma FreeUnreferred(g: Geometry, w: Vol, b: nat)
    requires Sound(g, w) && Owned(g, w) && IsFree(g, w, b)
    ensures forall r :: IsRef(g, w, r) ==> Where(g, w, r) != b
  {
    ZeroNotFree(g, w);
    forall r | IsRef(g, w, r)
      ensures Where(g, w, r) != b
    {
      if Where(g, w, r) != 0 {
        assert IsUsed(g, w, Where(g, w, r));
      }
    }
  }

  /** An empty indirect block is hooked up. */
  lemma AddIndirect(g: Geometry, w: Vol, ino: nat, b: nat, w': Vol)
    requires Sound(g, w) && Owned(g, w) && IsInum(w, ino) && IsFree(g, w, b) && Markable(g, w, b)
    requires w.inodes[ino].blocks[12] == 0
    requires var nd := w.inodes[ino];
      w' == Pending(Marked(g, w, b), ino, nd.(blocks := nd.blocks[12 := b])).(data := w.data[b := ZeroBlock(g.bs)])
    ensures Owned(g, w') && Repointed(g, w, w', Indirect(ino), b) && LeavesKept(g, w, w')
  {
    FreeUnreferred(g, w, b);
    LeavesElse(g, w, w', b, ZeroBlock(g.bs));
    assert NoDouble(w.inodes[ino]) && NoDouble(w'.inodes[ino]);
    ZeroNotFree(g, w);
    AddIndirectRefs(g, w, ino, b, w');
    hide Sound, Owned, LeavesKept, Repointed;
    Referred(g, w, w', ino, Indirect(ino), b);
  }

  lemma AddIndirectRefs(g: Geometry, w: Vol, ino: nat, b: nat, w': Vol)
    requires IsInum(w, ino) && ino in w.inodes && |w.inodes[ino].blocks| == 15 && w.inodes[ino].blocks[12] == 0
    requires b != 0
    requires w'.inums == w.inums && w'.data == w.data[b := ZeroBlock(g.bs)]
    requires w'.inodes == w.inodes[ino := w.inodes[ino].(blocks := w.inodes[ino].blocks[12 := b])]
    requires forall r :: IsRef(g, w, r) ==> Where(g, w, r) != b
    ensures Repointed(g, w, w', Indirect(ino), b)
  {
    forall s | IsRef(g, w, s)
      ensures Where(g, w', s) == if s == Indirect(ino) then b else Where(g, w, s)
    {
      if s.ino != ino {
        assert IsRef(g, w, Indirect(s.ino)) && Where(g, w, Indirect(s.ino)) != b;
      } else if s.Leaf? && s.lb >= 12 {
        assert Where(g, w', s) == 0;
      }
    }
  }

  /** An entry of the indirect block is filled with a free block. */
  lemma SetPtr(g: Geometry, w: Vol, ino: nat, lb: nat, b: nat, w': Vol)
    requires Sound(g, w) && Owned(g, w) && IsInum(w, ino) && IsFree(g, w, b) && Markable(g, w, b)
    requires 12 <= lb < g.MaxBlocks() && w.inodes[ino].blocks[12] != 0 && b < 0x1_0000_0000
    requires var ind := w.inodes[ino].blocks[12];
      ind in w.data && |w.data[ind]| == g.bs && 4 * (lb - 12) + 4 <= g.bs
      && w' == Marked(g, w, b).(data := w.data[ind := PutWord(w.data[ind], 4 * (lb - 12), b)])
    ensures Owned(g, w') && Repointed(g, w, w', Leaf(ino, lb), b) && LeavesKept(g, w, w')
  {
    var ind := w.inodes[ino].blocks[12];
    IndirectAlone(g, w, ino);
    LeavesElse(g, w, w', ind, PutWord(w.data[ind], 4 * (lb - 12), b));
    assert NoDouble(w.inodes[ino]);
    ZeroNotFree(g, w);
    SetPtrRefs(g, w, ino, lb, b, w');
    hide Sound, Owned, LeavesKept, Repointed;
    Referred(g, w, w', ino, Leaf(ino, lb), b);
  }

  /** The indirect block is nobody's data and no other inode's indirect block. */
  lemma IndirectAlone(g: Geometry, w: Vol, ino: nat)
    requires Sound(g, w) && Owned(g, w) && IsInum(w, ino) && w.inodes[ino].blocks[12] != 0
    ensures forall r :: IsRef(g, w, r) && r != Indirect(ino) ==> Where(g, w, r) != w.inodes[ino].blocks[12]
    ensures IsUsed(g, w, w.inodes[ino].blocks[12])
  {
    assert IsRef(g, w, Indirect(ino)) && Where(g, w, Indirect(ino)) == w.inodes[ino].blocks[12];
  }

  lemma SetPtrRefs(g: Geometry, w: Vol, ino: nat, lb: nat, b: nat, w': Vol)
    requires IsInum(w, ino) && ino in w.inodes && |w.inodes[ino].blocks| == 15 && w.inodes[ino].blocks[12] != 0
    requires 12 <= lb < g.MaxBlocks() && b < 0x1_0000_0000 && w'.inums == w.inums && w'.inodes == w.inodes
    requires var ind := w.inodes[ino].blocks[12];
      ind in w.data && |w.data[ind]| == g.bs && 4 * (lb - 12) + 4 <= g.bs
      && w'.data == w.data[ind := PutWord(w.data[ind], 4 * (lb - 12), b)]
    requires forall r :: IsRef(g, w, r) && r != Indirect(ino) ==> Where(g, w, r) != w.inodes[ino].blocks[12]
    ensures Repointed(g, w, w', Leaf(ino, lb), b)
  {
    var ind := w.inodes[ino].blocks[12];
    forall s | IsRef(g, w, s)
      ensures Where(g, w', s) == if s == Leaf(ino, lb) then b else Where(g, w, s)
    {
      if s.ino != ino {
        assert IsRef(g, w, Indirect(s.ino)) && Where(g, w, Indirect(s.ino)) != ind;
      } else if s.Leaf? && s.lb >= 12 && s.lb != lb && 4 * (s.lb - 12) + 4 <= g.bs {
        OtherWord(w.data[ind], 4 * (lb - 12), b, 4 * (s.lb - 12));
      }
    }
  }

  lemma OtherWord(s: seq<byte>, off: nat, w: nat, k: nat)
    requires off + 4 <= |s| && k + 4 <= |s| && w < 0x1_0000_0000 && (k + 4 <= off || off + 4 <= k)
    ensures Word(PutWord(s, off, w), k) == Word(s, k)
  {
  }

  /** As far as files are concerned, only logical block `lb` of `ino` may have been given a block. */
  ghost predicate Mapped(g: Geometry, w: Vol, w': Vol, ino: nat, lb: nat, b: nat) {
    && (forall s :: IsRef(g, w', s) <==> IsRef(g, w, s))
    && (forall s: Ref :: s.Leaf? && IsRef(g, w, s) ==>
          Where(g, w', s) == if s == Leaf(ino, lb) && b != 0 then b else Where(g, w, s))
  }

  /** A reserved block that nothing refers to changes nothing. */
  lemma Leaked(g: Geometry, w: Vol, b: nat, w': Vol)
    requires Sound(g, w) && Owned(g, w) && IsFree(g, w, b) && Markable(g, w, b)
    requires w' == Marked(g, w, b).(data := w.data[b := ZeroBlock(g.bs)])
    ensures Owned(g, w') && LeavesKept(g, w, w')
    ensures forall s :: IsRef(g, w', s) <==> IsRef(g, w, s)
    ensures forall s :: IsRef(g, w, s) ==> Where(g, w', s) == Where(g, w, s)
  {
    FreeUnreferred(g, w, b);
    LeavesElse(g, w, w', b, ZeroBlock(g.bs));
    MarkedUses(g, w, w', b);
    forall s | IsRef(g, w, s)
      ensures Where(g, w', s) == Where(g, w, s)
    {
      assert IsRef(g, w, Indirect(s.ino)) && Where(g, w, Indirect(s.ino)) != b;
    }
  }

  /** The block after the one before logical block `lb`, which growth tries first; 0 if there is none. */
  function Goal(g: Geometry, data: map<nat, seq<byte>>, nd: Inode, lb: nat): nat
    requires |nd.blocks| == 15
  {
    if lb > 0 && At(g, data, nd, lb - 1) != 0 then At(g, data, nd, lb - 1) + 1 else 0
  }

  /** What a failed growth leaves on the medium when the inode is not written back. */
  ghost predicate Abandoned(g: Geometry, w: Vol, w': Vol) {
    && Owned(g, w') && LeavesKept(g, w, w') && w'.inodes == w.inodes && w'.inums == w.inums
    && (forall s :: IsRef(g, w', s) <==> IsRef(g, w, s))
    && (forall s: Ref :: s.Leaf? && IsRef(g, w, s) ==> Where(g, w', s) == Where(g, w, s))
  }

  /** Logical block `lb` got block `b`, or nothing if b is 0: get_block now returns b there, every other logical block
      of every inode keeps its block and its contents, and nothing is referred to twice. */
  ghost predicate Grew(g: Geometry, v: Vol, v': Vol, ino: nat, nd: Inode, nd': Inode, lb: nat, b: nat)
    ensures Grew(g, v, v', ino, nd, nd', lb, b) ==> |nd'.blocks| == 15 && v'.inodes == v.inodes && v'.inums == v.inums
    ensures Grew(g, v, v', ino, nd, nd', lb, b) ==> nd' == nd.(blocks := nd'.blocks)
    ensures Grew(g, v, v', ino, nd, nd', lb, b) ==> Owned(g, Pending(v', ino, nd'))
  {
    && |nd.blocks| == 15 && |nd'.blocks| == 15 && nd' == nd.(blocks := nd'.blocks)
    && v'.inodes == v.inodes && v'.inums == v.inums && |v'.blocks.used| == |v.blocks.used|
    && Owned(g, Pending(v', ino, nd')) && Mapped(g, Pending(v, ino, nd), Pending(v', ino, nd'), ino, lb, b)
    && LeavesKept(g, Pending(v, ino, nd), Pending(v', ino, nd'))
    && (b != 0 ==> lb < g.MaxBlocks() && IsUsed(g, v', b) && At(g, v'.data, nd', lb) == b)
    && (b == 0 ==> Abandoned(g, Pending(v, ino, nd), Pending(v', ino, nd)))
  }

  lemma PendingSound(g: Geometry, v: Vol, ino: nat, nd: Inode)
    requires Sound(g, v) && IsInum(v, ino) && |nd.blocks| == 15
    ensures Sound(g, Pending(v, ino, nd)) && IsInum(Pending(v, ino, nd), ino)
    ensures forall b :: IsFree(g, Pending(v, ino, nd), b) <==> IsFree(g, v, b)
  {
    InodeSound(g, v, ino, nd);
  }

  lemma GrewNothing(g: Geometry, v: Vol, ino: nat, nd: Inode, lb: nat)
    requires Sound(g, v) && IsInum(v, ino) && |nd.blocks| == 15 && Owned(g, Pending(v, ino, nd))
    ensures At(g, v.data, nd, lb) == 0 || lb >= g.MaxBlocks() ==> Grew(g, v, v, ino, nd, nd, lb, 0)
    ensures lb < g.MaxBlocks() ==> Grew(g, v, v, ino, nd, nd, lb, At(g, v.data, nd, lb))
  {
    var w := Pending(v, ino, nd);
    PendingSound(g, v, ino, nd);
    LeavesSame(g, w, w);
    if lb < g.MaxBlocks() {
      assert IsRef(g, w, Leaf(ino, lb)) && Where(g, w, Leaf(ino, lb)) == At(g, v.data, nd, lb);
    }
  }

  lemma GrewDirect(g: Geometry, v: Vol, ino: nat, nd: Inode, lb: nat, b: nat)
    requires Sound(g, v) && IsInum(v, ino) && |nd.blocks| == 15 && Owned(g, Pending(v, ino, nd))
    requires lb < 12 && IsFree(g, v, b) && Markable(g, v, b)
    ensures Grew(g, v, Marked(g, v, b), ino, nd, nd.(blocks := nd.blocks[lb := b]), lb, b)
  {
    var w := Pending(v, ino, nd);
    PendingSound(g, v, ino, nd);
    var nd' := nd.(blocks := nd.blocks[lb := b]);
    var w' := Pending(Marked(g, v, b), ino, nd');
    assert w' == Pending(Marked(g, w, b), ino, nd');
    SetDirect(g, w, ino, lb, b, w');
    ZeroNotFree(g, w);
    hide Sound, Owned, LeavesKept, IsRef, Where;
    MarkedUses(g, v, Marked(g, v, b), b);
  }

  lemma GrewIndirect(g: Geometry, v: Vol, ino: nat, nd: Inode, b: nat)
    requires Sound(g, v) && IsInum(v, ino) && |nd.blocks| == 15 && Owned(g, Pending(v, ino, nd))
    requires nd.blocks[12] == 0 && IsFree(g, v, b) && Markable(g, v, b)
    ensures var v' := Marked(g, v, b).(data := v.data[b := ZeroBlock(g.bs)]);
      var nd' := nd.(blocks := nd.blocks[12 := b]);
      && Owned(g, Pending(v', ino, nd')) && Mapped(g, Pending(v, ino, nd), Pending(v', ino, nd'), ino, 0, 0)
      && LeavesKept(g, Pending(v, ino, nd), Pending(v', ino, nd'))
      && Abandoned(g, Pending(v, ino, nd), Pending(v', ino, nd))
  {
    var w := Pending(v, ino, nd);
    PendingSound(g, v, ino, nd);
    var v' := Marked(g, v, b).(data := v.data[b := ZeroBlock(g.bs)]);
    var nd' := nd.(blocks := nd.blocks[12 := b]);
    AddIndirect(g, w, ino, b, Pending(v', ino, nd'));
    Leaked(g, w, b, Pending(v', ino, nd));
    hide Sound, Owned, LeavesKept, IsRef, Where;
  }

  lemma GrewPtr(g: Geometry, v: Vol, ino: nat, nd: Inode, lb: nat, b: nat)
    requires Sound(g, v) && IsInum(v, ino) && |nd.blocks| == 15 && Owned(g, Pending(v, ino, nd))
    requires 12 <= lb < g.MaxBlocks() && nd.blocks[12] != 0 && IsFree(g, v, b) && Markable(g, v, b)
    ensures b < 0x1_0000_0000 && IsBlock(g, v, nd.blocks[12]) && nd.blocks[12] in v.data
    ensures |v.data[nd.blocks[12]]| == g.bs && 4 * (lb - 12) + 4 <= g.bs
    ensures var ind := nd.blocks[12];
      Grew(g, v, Marked(g, v, b).(data := v.data[ind := PutWord(v.data[ind], 4 * (lb - 12), b)]), ino, nd, nd, lb, b)
  {
    var w := Pending(v, ino, nd);
    PendingSound(g, v, ino, nd);
    IndirectAlone(g, w, ino);
    var ind := nd.blocks[12];
    var v' := Marked(g, v, b).(data := v.data[ind := PutWord(v.data[ind], 4 * (lb - 12), b)]);
    SetPtr(g, w, ino, lb, b, Pending(v', ino, nd));
    ZeroNotFree(g, w);
    MarkedUses(g, v, v', b);
    hide Sound, Owned, LeavesKept, IsRef, Where;
  }

  /** Growth after the indirect block was hooked up. */
  lemma GrewAfter(g: Geometry, v: Vol, v1: Vol, v2: Vol, ino: nat, nd: Inode, nd1: Inode, nd2: Inode, lb: nat, b: nat)
    requires nd1 == nd.(blocks := nd1.blocks) && HookedUp(g, v, v1, ino, nd, nd1)
    requires Grew(g, v1, v2, ino, nd1, nd2, lb, b) && (b == 0 ==> v2 == v1)
    ensures Grew(g, v, v2, ino, nd, nd2, lb, b)
  {
    hide Owned, IsRef, Where, At;
    var w, w1, w2 := Pending(v, ino, nd), Pending(v1, ino, nd1), Pending(v2, ino, nd2);
    assert Mapped(g, w, w2, ino, lb, b);
    forall r: Ref | r.Leaf? && IsRef(g, w, r) && Where(g, w, r) != 0
      ensures Where(g, w, r) in w.data && Where(g, w, r) in w2.data && w2.data[Where(g, w, r)] == w.data[Where(g, w, r)]
    {
      assert Where(g, w1, r) == Where(g, w, r);
    }
  }

  /** The free blocks it takes to give an empty logical block one: a second for a missing indirect block. */
  function Wants(nd: Inode, lb: nat): nat
    requires |nd.blocks| == 15
  {
    if lb >= 12 && nd.blocks[12] == 0 then 2 else 1
  }

  /** No block is there, and none can be got. */
  predicate Ungettable(g: Geometry, v: Vol, nd: Inode, lb: nat)
    requires |nd.blocks| == 15
  {
    lb >= g.MaxBlocks() || (At(g, v.data, nd, lb) == 0 && v.blocks.spare < Wants(nd, lb))
  }

  // ----- the writes on the way

  /** Every logical block that had a block has it still, with its contents. */
  ghost predicate Quiet(g: Geometry, w: Vol, w': Vol) {
    && LeavesKept(g, w, w') && w'.inodes == w.inodes && |w'.inums.used| == |w.inums.used|
    && (forall s: Ref :: s.Leaf? && IsRef(g, w, s) && Where(g, w, s) != 0 ==>
       IsRef(g, w', s) && Where(g, w', s) == Where(g, w, s))
  }

  ghost predicate QuietAt(g: Geometry, v: Vol, ino: nat, nd: Inode, w: Vol) {
    w.inodes == v.inodes && Quiet(g, Pending(v, ino, nd), Pending(w, ino, nd))
  }

  /** At every write since `steps`, and now, with the inode `nd` there was. */
  ghost predicate QuietSteps(g: Geometry, v: Vol, ino: nat, nd: Inode, steps: seq<Vol>, steps': seq<Vol>, v': Vol) {
    && steps <= steps' && QuietAt(g, v, ino, nd, v')
    && forall i :: |steps| <= i < |steps'| ==> QuietAt(g, v, ino, nd, steps'[i])
  }

  lemma QuietOne(g: Geometry, v: Vol, ino: nat, nd: Inode, steps: seq<Vol>, steps1: seq<Vol>, v1: Vol, w: Vol)
    requires QuietSteps(g, v, ino, nd, steps, steps1, v1) && QuietAt(g, v, ino, nd, w)
    ensures QuietSteps(g, v, ino, nd, steps, steps1 + [w], w)
  {
    hide QuietAt;
  }

  /** Bitmaps and counters do not bear on the map. */
  lemma QuietKeep(g: Geometry, v: Vol, ino: nat, nd: Inode, steps: seq<Vol>, steps': seq<Vol>, v': Vol)
    requires Sound(g, v) && IsInum(v, ino) && |nd.blocks| == 15 && Owned(g, Pending(v, ino, nd))
    requires StepsKeep(steps, steps', v) && SameRecords(v, v')
    ensures QuietSteps(g, v, ino, nd, steps, steps', v')
  {
    hide Sound, Owned;
    QuietRecords(g, v, ino, nd, v');
    forall i | |steps| <= i < |steps'|
      ensures QuietAt(g, v, ino, nd, steps'[i])
    {
      QuietRecords(g, v, ino, nd, steps'[i]);
    }
  }

  lemma QuietRecords(g: Geometry, v: Vol, ino: nat, nd: Inode, w: Vol)
    requires Sound(g, v) && IsInum(v, ino) && |nd.blocks| == 15 && Owned(g, Pending(v, ino, nd)) && SameRecords(v, w)
    ensures QuietAt(g, v, ino, nd, w)
  {
    PendingSound(g, v, ino, nd);
    LeavesSame(g, Pending(v, ino, nd), Pending(w, ino, nd));
    assert forall s :: IsRef(g, Pending(v, ino, nd), s) ==> IsRef(g, Pending(w, ino, nd), s);
  }

  lemma AbandonedQuiet(g: Geometry, w: Vol, w': Vol)
    requires Abandoned(g, w, w')
    ensures Quiet(g, w, w')
  {
    hide IsRef, Where, Owned;
  }

  /** A logical block that had none was given one. */
  lemma GrewQuiet(g: Geometry, v: Vol, v': Vol, ino: nat, nd: Inode, lb: nat, b: nat)
    requires Grew(g, v, v', ino, nd, nd, lb, b) && At(g, v.data, nd, lb) == 0
    ensures Quiet(g, Pending(v, ino, nd), Pending(v', ino, nd))
  {
    hide Owned;
  }

  /** With the inode on the medium still without the indirect block just hooked up. */
  lemma QuietHooked(g: Geometry, v: Vol, v1: Vol, w: Vol, ino: nat, nd: Inode, nd1: Inode)
    requires HookedUp(g, v, v1, ino, nd, nd1) && nd.blocks[12] == 0 && nd1 == nd.(blocks := nd1.blocks)
    requires IsInum(v, ino) && QuietAt(g, v1, ino, nd1, w)
    ensures QuietAt(g, v, ino, nd, w)
  {
    hide Owned;
    var p, p1, q1, q := Pending(v, ino, nd), Pending(v1, ino, nd1), Pending(w, ino, nd1), Pending(w, ino, nd);
    forall s: Ref | s.Leaf? && IsRef(g, p, s) && Where(g, p, s) != 0
      ensures IsRef(g, q, s) && Where(g, q, s) == Where(g, p, s)
      ensures Where(g, p, s) in p.data && Where(g, p, s) in q.data
      ensures q.data[Where(g, p, s)] == p.data[Where(g, p, s)]
    {
      assert IsRef(g, p1, s) && Where(g, p1, s) == Where(g, p, s);
      assert Where(g, q1, s) == Where(g, p1, s);
    }
  }

  lemma QuietHookedSteps(g: Geometry, v: Vol, v1: Vol, v2: Vol, ino: nat, nd: Inode, nd1: Inode, steps: seq<Vol>,
                         steps1: seq<Vol>, steps2: seq<Vol>)
    requires HookedUp(g, v, v1, ino, nd, nd1) && nd1 == nd.(blocks := nd1.blocks) && IsInum(v, ino)
    requires nd.blocks[12] == 0 || (nd1 == nd && v1 == v)
    requires QuietSteps(g, v, ino, nd, steps, steps1, v1) && QuietSteps(g, v1, ino, nd1, steps1, steps2, v2)
    ensures QuietSteps(g, v, ino, nd, steps, steps2, v2)
  {
    hide QuietAt, HookedUp;
    if nd.blocks[12] == 0 { QuietHooked(g, v, v1, v2, ino, nd, nd1); }
    forall i | |steps| <= i < |steps2|
      ensures QuietAt(g, v, ino, nd, steps2[i])
    {
      if i < |steps1| {
        assert steps2[i] == steps1[i];
      } else if nd.blocks[12] == 0 {
        QuietHooked(g, v, v1, steps2[i], ino, nd, nd1);
      }
    }
  }

  /** get_or_alloc_block on the inode in memory. It fails exactly beyond the single indirect range or when too few
      blocks are free, and the block after the previous logical block is taken whenever it is free. */
  method GetOrAlloc(vol: Volume, ghost ino: nat, nd: Inode, lb: nat) returns (b: nat, nd': Inode)
    requires vol.Valid() && IsInum(vol.v, ino) && |nd.blocks| == 15 && Owned(vol.g, Pending(vol.v, ino, nd))
    modifies vol
    ensures vol.Valid() && Grew(vol.g, old(vol.v), vol.v, ino, nd, nd', lb, b)
    ensures lb < vol.g.MaxBlocks() && At(vol.g, old(vol.v).data, nd, lb) != 0 ==>
      b == At(vol.g, old(vol.v).data, nd, lb) && vol.v == old(vol.v) && nd' == nd
    ensures b == 0 ==> lb >= vol.g.MaxBlocks() || NoFree(vol.v)
    ensures b == 0 <==> Ungettable(vol.g, old(vol.v), nd, lb)
    ensures Contiguous(vol.g, old(vol.v), nd, lb) ==> b == Goal(vol.g, old(vol.v).data, nd, lb)
    ensures QuietSteps(vol.g, old(vol.v), ino, nd, old(vol.steps), vol.steps, vol.v)
    ensures nd.blocks[12] != 0 ==> nd'.blocks[12] == nd.blocks[12]
  {
    hide Sound, Owned, Grew, Mapped, LeavesKept, Volume.Valid, NoFree, IsFree, Markable, Goal, HookedUp, QuietSteps,
      StepsKeep;
    ghost var v0, steps0 := vol.v, vol.steps;
    QuietKeep(vol.g, v0, ino, nd, steps0, steps0, v0) by { KeepNone(steps0, v0); }
    GrewNothing(vol.g, v0, ino, nd, lb);
    SpareCounts(vol.g, v0);
    b, nd' := At(vol.g, vol.v.data, nd, lb), nd;
    if lb >= vol.g.MaxBlocks() { return 0, nd; }
    if b != 0 { return; }
    if lb < 12 {
      b := vol.AllocNear(Goal(vol.g, vol.v.data, nd, lb));
      QuietKeep(vol.g, v0, ino, nd, steps0, vol.steps, vol.v);
      if b == 0 { return; }
      GrewDirect(vol.g, v0, ino, nd, lb, b);
      nd' := nd.(blocks := nd.blocks[lb := b]);
      return;
    }
    var ok;
    ok, nd' := EnsureIndirect(vol, ino, nd);
    if !ok {
      NoneIsFree(vol.g, v0, Goal(vol.g, v0.data, nd, lb));
      return 0, nd;
    }
    ghost var v1, steps1 := vol.v, vol.steps;
    SpareCounts(vol.g, v1);
    StillNone(vol.g, v0, v1, ino, nd, nd', lb);
    b := FillPtr(vol, ino, nd', lb);
    QuietHookedSteps(vol.g, v0, v1, vol.v, ino, nd, nd', steps0, steps1, vol.steps);
    GrewAfter(vol.g, v0, v1, vol.v, ino, nd, nd', nd', lb, b);
  }

  /** The indirect block, reserved and zeroed on first use. */
  method EnsureIndirect(vol: Volume, ghost ino: nat, nd: Inode) returns (ok: bool, nd': Inode)
    requires vol.Valid() && IsInum(vol.v, ino) && |nd.blocks| == 15 && Owned(vol.g, Pending(vol.v, ino, nd))
    modifies vol
    ensures vol.Valid() && |nd'.blocks| == 15 && nd' == nd.(blocks := nd'.blocks)
    ensures !ok ==> vol.v == old(vol.v) && NoFree(vol.v) && nd.blocks[12] == 0
    ensures ok && nd.blocks[12] == 0 ==> !NoFree(old(vol.v)) && vol.v.blocks.spare == old(vol.v).blocks.spare - 1
    ensures ok ==> nd'.blocks[12] != 0 && (nd.blocks[12] != 0 ==> nd' == nd && vol.v == old(vol.v))
    ensures ok ==> HookedUp(vol.g, old(vol.v), vol.v, ino, nd, nd')
    ensures QuietSteps(vol.g, old(vol.v), ino, nd, old(vol.steps), vol.steps, vol.v)
  {
    hide Sound, Owned, Mapped, LeavesKept, Abandoned, Volume.Valid, NoFree, Markable, QuietSteps, StepsKeep, Quiet;
    nd', ok := nd, true;
    ghost var steps0 := vol.steps;
    QuietKeep(vol.g, vol.v, ino, nd, steps0, steps0, vol.v) by { KeepNone(steps0, vol.v); }
    HookedAlready(vol.g, vol.v, ino, nd);
    if nd.blocks[12] != 0 { return; }
    ghost var v0 := vol.v;
    var b := vol.AllocBlock();
    QuietKeep(vol.g, v0, ino, nd, steps0, vol.steps, vol.v);
    if b == 0 { return false, nd; }
    ghost var v1, steps1 := vol.v, vol.steps;
    ZeroNotFree(vol.g, v0);
    MarkedSpare(vol.g, v0, b);
    GrewIndirect(vol.g, v0, ino, nd, b);
    BlockKept(vol.g, v0, b);
    vol.WriteData(b, ZeroBlock(vol.g.bs));
    AbandonedQuiet(vol.g, Pending(v0, ino, nd), Pending(vol.v, ino, nd));
    QuietOne(vol.g, v0, ino, nd, steps0, steps1, v1, vol.v);
    nd' := nd.(blocks := nd.blocks[12 := b]);
  }

  lemma NoneIsFree(g: Geometry, v: Vol, b: nat)
    requires NoFree(v)
    ensures !IsFree(g, v, b)
  {
  }

  lemma BlockKept(g: Geometry, v: Vol, b: nat)
    requires Sound(g, v) && IsFree(g, v, b) && Markable(g, v, b)
    ensures IsBlock(g, Marked(g, v, b), b) && |Marked(g, v, b).blocks.used| == |v.blocks.used|
  {
  }

  /** An indirect block is there, and no logical block noticed. */
  ghost predicate HookedUp(g: Geometry, v: Vol, v': Vol, ino: nat, nd: Inode, nd': Inode)
    ensures HookedUp(g, v, v', ino, nd, nd') ==> Owned(g, Pending(v', ino, nd')) && |nd.blocks| == 15
  {
    && |nd.blocks| == 15 && |nd'.blocks| == 15
    && v'.inodes == v.inodes && v'.inums == v.inums && |v'.blocks.used| == |v.blocks.used|
    && Owned(g, Pending(v', ino, nd')) && Mapped(g, Pending(v, ino, nd), Pending(v', ino, nd'), ino, 0, 0)
    && LeavesKept(g, Pending(v, ino, nd), Pending(v', ino, nd'))
    && Abandoned(g, Pending(v, ino, nd), Pending(v', ino, nd))
  }

  lemma HookedAlready(g: Geometry, v: Vol, ino: nat, nd: Inode)
    requires Sound(g, v) && IsInum(v, ino) && |nd.blocks| == 15 && Owned(g, Pending(v, ino, nd))
    ensures HookedUp(g, v, v, ino, nd, nd)
  {
    PendingSound(g, v, ino, nd);
    LeavesSame(g, Pending(v, ino, nd), Pending(v, ino, nd));
  }

  lemma StillNone(g: Geometry, v: Vol, v': Vol, ino: nat, nd: Inode, nd': Inode, lb: nat)
    requires HookedUp(g, v, v', ino, nd, nd') && IsInum(v, ino) && lb < g.MaxBlocks()
    ensures At(g, v'.data, nd', lb) == At(g, v.data, nd, lb)
    ensures lb > 0 ==> At(g, v'.data, nd', lb - 1) == At(g, v.data, nd, lb - 1)
    ensures Goal(g, v'.data, nd', lb) == Goal(g, v.data, nd, lb) && IsInum(v', ino)
  {
    var w := Pending(v, ino, nd);
    assert IsRef(g, w, Leaf(ino, lb));
    if lb > 0 {
      assert IsRef(g, w, Leaf(ino, lb - 1));
    }
  }

  /** An empty entry of the indirect block gets a block. */
  method FillPtr(vol: Volume, ghost ino: nat, nd: Inode, lb: nat) returns (b: nat)
    requires vol.Valid() && IsInum(vol.v, ino) && |nd.blocks| == 15 && Owned(vol.g, Pending(vol.v, ino, nd))
    requires 12 <= lb < vol.g.MaxBlocks() && nd.blocks[12] != 0 && At(vol.g, vol.v.data, nd, lb) == 0
    modifies vol
    ensures vol.Valid() && Grew(vol.g, old(vol.v), vol.v, ino, nd, nd, lb, b)
    ensures b == 0 ==> vol.v == old(vol.v) && NoFree(vol.v)
    ensures b == 0 <==> NoFree(old(vol.v))
    ensures IsFree(vol.g, old(vol.v), Goal(vol.g, old(vol.v).data, nd, lb)) ==>
      b == Goal(vol.g, old(vol.v).data, nd, lb)
    ensures QuietSteps(vol.g, old(vol.v), ino, nd, old(vol.steps), vol.steps, vol.v)
  {
    hide Sound, Owned, Grew, Volume.Valid, NoFree, IsFree, Markable, At, Goal, QuietSteps, StepsKeep, Quiet;
    ghost var v0, steps0 := vol.v, vol.steps;
    GrewNothing(vol.g, v0, ino, nd, lb);
    b := vol.AllocNear(Goal(vol.g, vol.v.data, nd, lb));
    QuietKeep(vol.g, v0, ino, nd, steps0, vol.steps, vol.v);
    if b == 0 { return; }
    ghost var v1, steps1 := vol.v, vol.steps;
    GrewPtr(vol.g, v0, ino, nd, lb, b);
    BlockStays(vol.g, v0, b, nd.blocks[12]);
    vol.WriteData(nd.blocks[12], PutWord(vol.v.data[nd.blocks[12]], 4 * (lb - 12), b));
    GrewQuiet(vol.g, v0, vol.v, ino, nd, lb, b);
    QuietOne(vol.g, v0, ino, nd, steps0, steps1, v1, vol.v);
  }

  lemma BlockStays(g: Geometry, v: Vol, b: nat, c: nat)
    requires IsFree(g, v, b) && Markable(g, v, b) && IsBlock(g, v, c)
    ensures IsBlock(g, Marked(g, v, b), c)
  {
  }

  ghost predicate Contiguous(g: Geometry, v: Vol, nd: Inode, lb: nat)
    requires |nd.blocks| == 15
  {
    && lb < g.MaxBlocks() && At(g, v.data, nd, lb) == 0 && (lb < 12 || nd.blocks[12] != 0)
    && IsFree(g, v, Goal(g, v.data, nd, lb))
  }
}
