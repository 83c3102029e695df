/** An ext2 volume by its records: bitmaps and counters, inodes, and data blocks; and the driver's primitive writes. */
module Ext2Volume {
  import opened Words
  import opened BlockStore
  import opened Products
  import opened Ext2Pool

  /** An inode: mode, size in bytes, link count, and the fifteen block numbers (twelve direct, then single, double and
      triple indirect). */
  datatype Inode = Inode(mode: nat, size: nat, links: nat, blocks: seq<nat>)

  const IFDIR: nat := 0x4000

  predicate IsDir(nd: Inode) { nd.mode / IFDIR % 2 == 1 }

  /** First data block, blocks and inodes per group, first unreserved inode, and the block size. */
  datatype Geometry = Geometry(first: nat, per: nat, iper: nat, firstIno: nat, bs: nat) {
    predicate Ok() { per > 0 && iper > 0 && firstIno > 0 && 1024 <= bs <= 4096 && bs % 4 == 0 }

    /** Logical blocks a file of this driver can have: twelve direct, and what fits an indirect block. */
    function MaxBlocks(): nat { 12 + bs / 4 }
  }

  datatype Vol = Vol(blocks: Pool, inums: Pool, inodes: map<nat, Inode>, data: map<nat, seq<byte>>)

  ghost predicate IsBlock(g: Geometry, v: Vol, b: nat) { g.first <= b < g.first + |v.blocks.used| }

  ghost predicate IsFree(g: Geometry, v: Vol, b: nat) { IsBlock(g, v, b) && !v.blocks.used[b - g.first] }

  ghost predicate IsUsed(g: Geometry, v: Vol, b: nat) { IsBlock(g, v, b) && v.blocks.used[b - g.first] }

  ghost predicate NoFree(v: Vol) { forall i :: 0 <= i < |v.blocks.used| ==> v.blocks.used[i] }

  ghost predicate IsInum(v: Vol, ino: nat) { 1 <= ino <= |v.inums.used| }

  /** Both accounting laws; whole data blocks and inode records; block numbers of 32 bits; block 0 never free. */
  ghost predicate Sound(g: Geometry, v: Vol)
    ensures Sound(g, v) ==> g.Ok() && (forall b :: IsBlock(g, v, b) ==> b in v.data && |v.data[b]| == g.bs)
    ensures Sound(g, v) ==> !IsFree(g, v, 0) && g.first + |v.blocks.used| < 0x1_0000_0000
    ensures Sound(g, v) ==> forall i :: IsInum(v, i) ==> i in v.inodes && |v.inodes[i].blocks| == 15
  {
    && g.Ok() && Counted(v.blocks, g.per) && Counted(v.inums, g.iper)
    && (forall b :: IsBlock(g, v, b) ==> b in v.data && |v.data[b]| == g.bs)
    && (forall i :: IsInum(v, i) ==> i in v.inodes && |v.inodes[i].blocks| == 15)
    && g.first + |v.blocks.used| < 0x1_0000_0000 && !IsFree(g, v, 0)
  }

  /** Files are what inodes and data blocks say; bitmaps and counters do not bear on them. */
  ghost predicate SameRecords(v: Vol, v': Vol) {
    v'.inodes == v.inodes && v'.data == v.data && |v'.inums.used| == |v.inums.used|
  }

  /** Every new state of the medium has the records of `v`. */
  ghost predicate StepsKeep(steps: seq<Vol>, steps': seq<Vol>, v: Vol) {
    steps <= steps' && forall i :: |steps| <= i < |steps'| ==> SameRecords(v, steps'[i])
  }

  lemma KeepMore(steps: seq<Vol>, steps1: seq<Vol>, steps2: seq<Vol>, v: Vol, v1: Vol)
    requires StepsKeep(steps, steps1, v) && SameRecords(v, v1) && StepsKeep(steps1, steps2, v1)
    ensures StepsKeep(steps, steps2, v)
  {
    forall i | |steps| <= i < |steps2|
      ensures SameRecords(v, steps2[i])
    {
      assert i < |steps1| ==> steps2[i] == steps1[i];
    }
  }

  lemma KeepNone(steps: seq<Vol>, v: Vol)
    ensures StepsKeep(steps, steps, v) && SameRecords(v, v)
  {
  }

  ghost predicate Markable(g: Geometry, v: Vol, b: nat)
  {
    g.first <= b && Flippable(v.blocks, g.per, b - g.first, true)
  }

  /** Block `b` reserved, or released, in bitmap and counters. */
  ghost function Marked(g: Geometry, v: Vol, b: nat): Vol
    requires Markable(g, v, b)
  {
    v.(blocks := Flip(v.blocks, g.per, b - g.first, true))
  }

  ghost function Released(g: Geometry, v: Vol, b: nat): Vol
    requires g.first <= b && Flippable(v.blocks, g.per, b - g.first, false)
  {
    v.(blocks := Flip(v.blocks, g.per, b - g.first, false))
  }

  /** Inode `ino` is in use, or not. */
  ghost predicate InumIs(v: Vol, ino: nat, b: bool) { IsInum(v, ino) && v.inums.used[ino - 1] == b }

  ghost predicate InumCan(g: Geometry, v: Vol, ino: nat, b: bool) { 1 <= ino && Flippable(v.inums, g.iper, ino - 1, b) }

  ghost function InumSet(g: Geometry, v: Vol, ino: nat, b: bool): Vol
    requires InumCan(g, v, ino, b)
  {
    v.(inums := Flip(v.inums, g.iper, ino - 1, b))
  }

  lemma MarkedSound(g: Geometry, v: Vol, b: nat)
    requires Sound(g, v) && IsFree(g, v, b)
    ensures Markable(g, v, b) && Sound(g, Marked(g, v, b))
    ensures forall c :: IsFree(g, Marked(g, v, b), c) <==> IsFree(g, v, c) && c != b
  {
    FlipKeeps(v.blocks, g.per, b - g.first, true);
    var v' := Marked(g, v, b);
    assert forall c :: IsBlock(g, v', c) <==> IsBlock(g, v, c);
    assert forall i :: IsInum(v', i) <==> IsInum(v, i);
    hide Counted;
  }

  /** The superblock's count of free blocks is exact, and a reservation lowers it by one. */
  lemma SpareCounts(g: Geometry, v: Vol)
    requires Sound(g, v)
    ensures NoFree(v) <==> v.blocks.spare == 0
  {
    hide Counted;
    SpareNone(v.blocks, g.per);
  }

  lemma MarkedSpare(g: Geometry, v: Vol, b: nat)
    requires Markable(g, v, b)
    ensures Marked(g, v, b).blocks.spare == v.blocks.spare - 1
  {
  }

  lemma ReleasedSound(g: Geometry, v: Vol, b: nat)
    requires Sound(g, v) && IsUsed(g, v, b) && b != 0
    ensures Flippable(v.blocks, g.per, b - g.first, false) && Sound(g, Released(g, v, b))
    ensures forall c :: IsFree(g, Released(g, v, b), c) <==> IsFree(g, v, c) || c == b
  {
    FlipKeeps(v.blocks, g.per, b - g.first, false);
    var v' := Released(g, v, b);
    assert forall c :: IsBlock(g, v', c) <==> IsBlock(g, v, c);
    assert forall i :: IsInum(v', i) <==> IsInum(v, i);
    hide Counted;
  }

  /** [start, start + len) are free blocks of one group. */
  ghost predicate RunAt(g: Geometry, v: Vol, start: nat, len: nat) {
    && g.first <= start && g.per > 0 && FreeRun(v.blocks, g.per, (start - g.first) / g.per, start - g.first, len)
    && len <= v.blocks.free[(start - g.first) / g.per] && len <= v.blocks.spare
  }

  ghost function RunMarked(g: Geometry, v: Vol, start: nat, len: nat): Vol
    requires RunAt(g, v, start, len)
  {
    v.(blocks := Taken(v.blocks, (start - g.first) / g.per, start - g.first, len))
  }

  /** All groups before that of `start` are full, and that group has no free run longer than `len`. */
  ghost predicate NoLongerHere(g: Geometry, v: Vol, start: nat, len: nat)
    requires RunAt(g, v, start, len)
  {
    var grp := (start - g.first) / g.per;
    && (forall j :: 0 <= j < Lo(g.per, grp) && j < |v.blocks.used| ==> v.blocks.used[j])
    && NoLonger(v.blocks.used, Lo(g.per, grp), Hi(v.blocks, g.per, grp), len)
  }

  /** No group before that of `start` has a free block. */
  ghost predicate EarlierFull(g: Geometry, v: Vol, start: nat)
    requires g.first <= start && g.per > 0
  {
    forall j :: 0 <= j < Lo(g.per, (start - g.first) / g.per) && j < |v.blocks.used| ==> v.blocks.used[j]
  }

  /** A run found in a group, and what reserving it does. */
  lemma RunInGroup(g: Geometry, v: Vol, grp: nat, lo: nat, n: nat)
    requires Sound(g, v) && FreeRun(v.blocks, g.per, grp, lo, n) && n > 0
    ensures g.first + lo > 0 && lo / g.per == grp && RunAt(g, v, g.first + lo, n) && !NoFree(v)
    ensures Sound(g, RunMarked(g, v, g.first + lo, n))
  {
    hide Counted, Lo, Mark;
    SoundPools(g, v);
    GroupIndex(v.blocks, g.per, lo);
    TakenCounted(v.blocks, g.per, grp, lo, n);
    assert !v.blocks.used[lo];
    assert IsFree(g, v, g.first + lo);
    var v' := RunMarked(g, v, g.first + lo, n);
    assert forall c :: IsBlock(g, v', c) <==> IsBlock(g, v, c);
    assert forall i :: IsInum(v', i) <==> IsInum(v, i);
  }

  lemma RunMarkedFree(g: Geometry, v: Vol, start: nat, len: nat)
    requires RunAt(g, v, start, len)
    ensures forall b: nat :: start <= b < start + len ==> IsFree(g, v, b) && IsUsed(g, RunMarked(g, v, start, len), b)
    ensures forall b: nat :: IsFree(g, RunMarked(g, v, start, len), b) <==>
      IsFree(g, v, b) && !(start <= b < start + len)
    ensures forall b: nat :: IsUsed(g, v, b) ==> IsUsed(g, RunMarked(g, v, start, len), b)
  {
  }

  /** Releasing the first block of a reserved run leaves the rest reserved: released one by one, a run leaves the
      bitmaps and counters exactly as they were before. */
  lemma RunGivesBack(g: Geometry, v: Vol, start: nat, len: nat)
    requires RunAt(g, v, start, len) && len > 0
    ensures RunAt(g, v, start + 1, len - 1) || len == 1
    ensures var w := RunMarked(g, v, start, len);
      && Flippable(w.blocks, g.per, start - g.first, false)
      && (len > 1 ==> Released(g, w, start) == RunMarked(g, v, start + 1, len - 1))
      && (len == 1 ==> Released(g, w, start) == v)
  {
    var lo, grp := start - g.first, (start - g.first) / g.per;
    GiveBack(v.blocks, grp, lo, len);
    if len == 1 {
      TakenNone(v.blocks, grp, lo + 1);
    } else {
      SameGroup(v.blocks, g.per, grp, lo, len);
    }
  }

  lemma SameGroup(p: Pool, per: nat, grp: nat, lo: nat, len: nat)
    requires per > 0 && FreeRun(p, per, grp, lo, len) && len > 1 && grp == lo / per
    ensures FreeRun(p, per, grp, lo + 1, len - 1) && (lo + 1) / per == grp
  {
    NextRow(grp, per);
    RowIndex(grp, lo + 1 - Lo(per, grp), per);
  }

  class Volume {
    const g: Geometry
    var v: Vol
    ghost var steps: seq<Vol>        // the states the medium went through, one per write

    constructor (g: Geometry, v: Vol)
      requires Sound(g, v)
      ensures Valid() && this.g == g && this.v == v && steps == []
    {
      this.g, this.v, steps := g, v, [];
    }

    ghost predicate Valid()
      reads this`v
      ensures Valid() ==> Sound(g, v)
    {
      Sound(g, v)
    }

    /** Bitmap block, group descriptor and superblock, in this order, for bit `i` of the block bitmaps. */
    method FlipBlockBit(i: nat, b: bool)
      requires Flippable(v.blocks, g.per, i, b)
      modifies this
      ensures v == old(v).(blocks := Flip(old(v).blocks, g.per, i, b)) && StepsKeep(old(steps), steps, old(v))
    {
      var grp := i / g.per;
      var d: int := if b then -1 else 1;
      v := v.(blocks := v.blocks.(used := v.blocks.used[i := b]));
      steps := steps + [v];
      v := v.(blocks := v.blocks.(free := v.blocks.free[grp := v.blocks.free[grp] + d]));
      steps := steps + [v];
      v := v.(blocks := v.blocks.(spare := v.blocks.spare + d));
      steps := steps + [v];
    }

    /** alloc_block: the lowest free block of the volume, or 0 exactly when none is free. */
    method AllocBlock() returns (b: nat)
      requires Valid()
      modifies this
      ensures Valid() && (b == 0 <==> NoFree(old(v))) && StepsKeep(old(steps), steps, old(v))
      ensures b == 0 ==> v == old(v)
      ensures b != 0 ==> IsFree(g, old(v), b) && Markable(g, old(v), b) && v == Marked(g, old(v), b)
      ensures b != 0 ==> forall c :: IsFree(g, old(v), c) ==> b <= c
    {
      hide Counted, Flip, Sound, Lo;
      SoundPools(g, v);
      var found, grp, i := FindFree(v.blocks, g.per, 0);
      if !found { return 0; }
      b := g.first + i;
      assert IsFree(g, v, b);
      MarkedSound(g, v, b);
      FlipBlockBit(i, true);
    }

    /** alloc_block_near: the goal if it is a free block of the volume, else whatever alloc_block finds. */
    method AllocNear(goal: nat) returns (b: nat)
      requires Valid()
      modifies this
      ensures Valid() && (b == 0 <==> NoFree(old(v))) && StepsKeep(old(steps), steps, old(v))
      ensures b == 0 ==> v == old(v)
      ensures b != 0 ==> IsFree(g, old(v), b) && Markable(g, old(v), b) && v == Marked(g, old(v), b)
      ensures IsFree(g, old(v), goal) ==> b == goal
      ensures b != 0 && !IsFree(g, old(v), goal) ==> forall c :: IsFree(g, old(v), c) ==> b <= c
    {
      hide Counted, Flip, Sound;
      SoundPools(g, v);
      if goal >= g.first && goal < g.first + |v.blocks.used| {
        var bit := goal - g.first;
        GroupIndex(v.blocks, g.per, bit);
        if v.blocks.free[bit / g.per] > 0 {
          if !v.blocks.used[bit] {
            MarkedSound(g, v, goal);
            FlipBlockBit(bit, true);
            return goal;
          }
        } else {
          if !v.blocks.used[bit] { MarkedSound(g, v, goal); }
        }
      }
      b := AllocBlock();
    }

    /** alloc_block_run: a run of free blocks, at most `want` long, taken from the first group that has a free block;
        nothing exactly when no block is free. */
    method AllocRun(want: nat) returns (start: nat, len: nat)
      requires Valid() && want > 0
      modifies this
      ensures Valid() && len <= want && StepsKeep(old(steps), steps, old(v))
      ensures len == 0 <==> NoFree(old(v))
      ensures len == 0 ==> v == old(v) && start == 0
      ensures len > 0 ==> start > 0 && RunAt(g, old(v), start, len) && v == RunMarked(g, old(v), start, len)
      ensures len > 0 ==> EarlierFull(g, old(v), start)
      ensures 0 < len < want ==> NoLongerHere(g, old(v), start, len)
      ensures BestOfAll(old(v).blocks, g.per, want, len) <==> !LaterBetter(old(v).blocks, g.per, want)
    {
      hide Counted, Sound, Lo, NoLonger, Mark, BestOfAll, LaterBetter;
      SoundPools(g, v);
      var grp, lo, n := FindRun(v.blocks, g.per, want);
      start, len := 0, n;
      if n == 0 { return; }
      RunInGroup(g, v, grp, lo, n);
      start := g.first + lo;
      v := v.(blocks := v.blocks.(used := Mark(v.blocks.used, lo, n)));
      steps := steps + [v];
      v := v.(blocks := v.blocks.(free := v.blocks.free[grp := v.blocks.free[grp] - n]));
      steps := steps + [v];
      v := v.(blocks := v.blocks.(spare := v.blocks.spare - n));
      steps := steps + [v];
    }

    /** free_block: the books stay right exactly when the block was reserved. */
    method FreeBlock(b: nat)
      requires Valid() && IsBlock(g, v, b) && b != 0
      modifies this
      ensures Flippable(old(v).blocks, g.per, b - g.first, false) && v == Released(g, old(v), b)
      ensures StepsKeep(old(steps), steps, old(v)) && (Valid() <==> IsUsed(g, old(v), b))
    {
      hide Counted, Flip, Sound;
      SoundPools(g, v);
      if v.blocks.used[b - g.first] {
        ReleasedSound(g, v, b);
      } else {
        FreeTwice(v.blocks, g.per, b - g.first);
        Unsound(g, Released(g, v, b));
      }
      FlipBlockBit(b - g.first, false);
    }

    method FlipInodeBit(i: nat, b: bool)
      requires Flippable(v.inums, g.iper, i, b)
      modifies this
      ensures v == old(v).(inums := Flip(old(v).inums, g.iper, i, b)) && StepsKeep(old(steps), steps, old(v))
    {
      var grp := i / g.iper;
      var d: int := if b then -1 else 1;
      v := v.(inums := v.inums.(used := v.inums.used[i := b]));
      steps := steps + [v];
      v := v.(inums := v.inums.(free := v.inums.free[grp := v.inums.free[grp] + d]));
      steps := steps + [v];
      v := v.(inums := v.inums.(spare := v.inums.spare + d));
      steps := steps + [v];
    }

    /** alloc_inode: the lowest free inode that is not reserved, or 0 exactly when there is none. */
    method AllocInode() returns (ino: nat)
      requires Valid()
      modifies this
      ensures Valid() && StepsKeep(old(steps), steps, old(v))
      ensures ino == 0 ==> v == old(v) && forall j :: g.firstIno - 1 <= j < |v.inums.used| ==> v.inums.used[j]
      ensures ino != 0 ==> g.firstIno <= ino && InumIs(old(v), ino, false)
      ensures ino != 0 ==> InumCan(g, old(v), ino, true) && v == InumSet(g, old(v), ino, true)
      ensures ino != 0 ==> forall j :: g.firstIno - 1 <= j < ino - 1 ==> old(v).inums.used[j]
    {
      hide Counted, Flip, Sound, Lo;
      SoundPools(g, v);
      var found, grp, i := FindFree(v.inums, g.iper, g.firstIno - 1);
      if !found { return 0; }
      InumSound(g, v, i, true);
      FlipInodeBit(i, true);
      ino := i + 1;
    }

    /** free_inode: likewise. */
    method FreeInode(ino: nat)
      requires Valid() && IsInum(v, ino)
      modifies this
      ensures StepsKeep(old(steps), steps, old(v)) && (Valid() <==> InumIs(old(v), ino, true))
      ensures InumCan(g, old(v), ino, false) && v == InumSet(g, old(v), ino, false)
    {
      hide Counted, Flip, Sound, Lo;
      SoundPools(g, v);
      if v.inums.used[ino - 1] {
        InumSound(g, v, ino - 1, false);
      } else {
        FreeTwice(v.inums, g.iper, ino - 1);
        Unsound(g, InumSet(g, v, ino, false));
      }
      FlipInodeBit(ino - 1, false);
    }

    /** write_block of a data block. */
    method WriteData(b: nat, block: seq<byte>)
      requires Valid() && IsBlock(g, v, b) && |block| == g.bs
      modifies this
      ensures Valid() && v == old(v).(data := old(v).data[b := block]) && steps == old(steps) + [v]
    {
      DataSound(g, v, b, block);
      v := v.(data := v.data[b := block]);
      steps := steps + [v];
    }

    /** write_inode. */
    method WriteInode(ino: nat, nd: Inode)
      requires Valid() && IsInum(v, ino) && |nd.blocks| == 15
      modifies this
      ensures Valid() && v == old(v).(inodes := old(v).inodes[ino := nd]) && steps == old(steps) + [v]
    {
      InodeSound(g, v, ino, nd);
      v := v.(inodes := v.inodes[ino := nd]);
      steps := steps + [v];
    }
  }

  lemma Unsound(g: Geometry, v: Vol)
    requires !Counted(v.blocks, g.per) || !Counted(v.inums, g.iper)
    ensures !Sound(g, v)
  {
  }

  lemma SoundPools(g: Geometry, v: Vol)
    requires Sound(g, v)
    ensures Counted(v.blocks, g.per) && Counted(v.inums, g.iper) && Shaped(v.blocks, g.per) && Shaped(v.inums, g.iper)
  {
  }

  lemma InumSound(g: Geometry, v: Vol, i: nat, b: bool)
    requires Sound(g, v) && i < |v.inums.used| && v.inums.used[i] != b
    ensures Flippable(v.inums, g.iper, i, b) && Sound(g, v.(inums := Flip(v.inums, g.iper, i, b)))
  {
    hide Counted;
    FlipKeeps(v.inums, g.iper, i, b);
    var v' := v.(inums := Flip(v.inums, g.iper, i, b));
    assert forall c :: IsBlock(g, v', c) <==> IsBlock(g, v, c);
    assert forall k :: IsInum(v', k) <==> IsInum(v, k);
  }

  lemma DataSound(g: Geometry, v: Vol, b: nat, block: seq<byte>)
    requires Sound(g, v) && |block| == g.bs
    ensures Sound(g, v.(data := v.data[b := block]))
  {
    hide Counted;
    var v' := v.(data := v.data[b := block]);
    assert forall c :: IsBlock(g, v', c) <==> IsBlock(g, v, c);
    assert forall i :: IsInum(v', i) <==> IsInum(v, i);
  }

  lemma InodeSound(g: Geometry, v: Vol, ino: nat, nd: Inode)
    requires Sound(g, v) && |nd.blocks| == 15
    ensures Sound(g, v.(inodes := v.inodes[ino := nd]))
  {
    hide Counted;
    var v' := v.(inodes := v.inodes[ino := nd]);
    assert forall c :: IsBlock(g, v', c) <==> IsBlock(g, v, c);
    assert forall i :: IsInum(v', i) <==> IsInum(v, i);
  }

}
