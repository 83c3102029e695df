/** ext2_defrag_one: a fragmented file's data moves into one run of blocks, and at every write on the way each logical
    block of each file still resolves to its original contents. */
module Ext2Defrag {
  import opened Words
  import opened BlockStore
  import opened Products
  import opened Ext2Pool
  import opened Ext2Volume
  import opened Ext2Map
  import opened Ext2Files
  import opened Ext2Write

  /** The inodes differ in nothing but their block numbers. */
  predicate SameButBlocks(nd: Inode, nd': Inode) { nd == nd'.(blocks := nd.blocks) && |nd.blocks| == |nd'.blocks| }

  /** Every logical block of every inode resolves as in `v`: same contents, maybe elsewhere. */
  ghost predicate Resolved(g: Geometry, v: Vol, s: Vol) {
    && |s.inums.used| == |v.inums.used| && s.inodes.Keys == v.inodes.Keys
    && (forall j :: j in v.inodes && j in s.inodes ==>
          SameButBlocks(s.inodes[j], v.inodes[j]))
    && (forall j, lb :: There(g, v, j, lb) ==> There(g, s, j, lb) && BlockOf(g, s, j, lb) == BlockOf(g, v, j, lb))
  }

  /** Then every file reads as in `v`. */
  lemma ResolvedReads(g: Geometry, v: Vol, s: Vol, j: nat)
    requires Resolved(g, v, s) && Whole(g, v, j)
    ensures Whole(g, s, j) && Content(g, s, j) == Content(g, v, j)
  {
    assert j in v.inodes.Keys;
    hide There, BlockOf, Content;
    SameContent(g, v, s, j);
  }

  /** Every state the medium went through since `steps` resolves as `v`. */
  ghost predicate StepsSafe(g: Geometry, v: Vol, steps: seq<Vol>, steps': seq<Vol>) {
    steps <= steps' && forall i :: |steps| <= i < |steps'| ==> Resolved(g, v, steps'[i])
  }

  lemma RecordsDecide(g: Geometry, v: Vol, s: Vol, s': Vol)
    requires Resolved(g, v, s) && SameRecords(s, s')
    ensures Resolved(g, v, s')
  {
    forall j, lb | There(g, v, j, lb)
      ensures There(g, s', j, lb) && BlockOf(g, s', j, lb) == BlockOf(g, v, j, lb)
    {
      assert There(g, s, j, lb);
      assert IsRef(g, s', Leaf(j, lb));
    }
  }

  lemma SafeKeeps(g: Geometry, v: Vol, s: Vol, steps: seq<Vol>, steps1: seq<Vol>, steps2: seq<Vol>)
    requires StepsSafe(g, v, steps, steps1) && StepsKeep(steps1, steps2, s) && Resolved(g, v, s)
    ensures StepsSafe(g, v, steps, steps2)
  {
    hide Resolved, SameRecords;
    forall i | |steps| <= i < |steps2|
      ensures Resolved(g, v, steps2[i])
    {
      if i < |steps1| {
        assert steps2[i] == steps1[i];
      } else {
        RecordsDecide(g, v, s, steps2[i]);
      }
    }
  }

  lemma SafeOne(g: Geometry, v: Vol, s: Vol, steps: seq<Vol>, steps1: seq<Vol>)
    requires StepsSafe(g, v, steps, steps1) && Resolved(g, v, s)
    ensures StepsSafe(g, v, steps, steps1 + [s])
  {
    hide Resolved;
  }

  lemma ResolvedSelf(g: Geometry, v: Vol)
    ensures Resolved(g, v, v)
  {
  }

  // ----- the blocks of a file

  /** `olds` are the blocks of the first |olds| logical blocks. */
  ghost predicate BlocksAre(g: Geometry, v: Vol, ino: nat, olds: seq<nat>) {
    forall i :: 0 <= i < |olds| ==> olds[i] != 0 && IsRef(g, v, Leaf(ino, i)) && Where(g, v, Leaf(ino, i)) == olds[i]
  }

  predicate OneRun(olds: seq<nat>) { forall i :: 0 < i < |olds| ==> olds[i] == olds[i - 1] + 1 }

  /** The collecting loop: a hole, or the block list and whether it is one run already. */
  method Collect(vol: Volume, ino: nat, count: nat) returns (ok: bool, olds: seq<nat>, run: bool)
    requires vol.Valid() && IsInum(vol.v, ino) && count <= vol.g.MaxBlocks()
    ensures ok ==> |olds| == count && BlocksAre(vol.g, vol.v, ino, olds) && (run <==> OneRun(olds))
    ensures !ok ==> exists i :: 0 <= i < count && !There(vol.g, vol.v, ino, i)
  {
    InodeThere(vol.g, vol.v, ino);
    hide Sound, Volume.Valid;
    var nd := vol.v.inodes[ino];
    olds, run, ok := [], true, true;
    while |olds| < count
      invariant |olds| <= count && BlocksAre(vol.g, vol.v, ino, olds) && (run <==> OneRun(olds))
    {
      var i := |olds|;
      var phys := At(vol.g, vol.v.data, nd, i);
      if phys == 0 {
        assert !There(vol.g, vol.v, ino, i);
        return false, olds, false;
      }
      if i > 0 && phys != olds[i - 1] + 1 { run := false; }
      olds := olds + [phys];
    }
  }

  /** The blocks of a file are reserved, distinct, and hold its contents. */
  lemma BlocksFacts(g: Geometry, v: Vol, ino: nat, olds: seq<nat>)
    requires Sound(g, v) && Owned(g, v) && IsInum(v, ino) && BlocksAre(g, v, ino, olds) && |olds| <= g.MaxBlocks()
    ensures forall i :: 0 <= i < |olds| ==>
      IsUsed(g, v, olds[i]) && There(g, v, ino, i) && olds[i] in v.data && BlockOf(g, v, ino, i) == v.data[olds[i]]
    ensures forall i, k :: 0 <= i < k < |olds| ==> olds[i] != olds[k]
    ensures forall i :: 0 <= i < |olds| ==> olds[i] != 0
  {
    forall i | 0 <= i < |olds|
      ensures IsUsed(g, v, olds[i]) && There(g, v, ino, i) && BlockOf(g, v, ino, i) == v.data[olds[i]]
    {
      assert Where(g, v, Leaf(ino, i)) == olds[i];
    }
    forall i, k | 0 <= i < k < |olds|
      ensures olds[i] != olds[k]
    {
      assert Leaf(ino, i) != Leaf(ino, k);
    }
  }

  // ----- copying

  /** Block `i` of the file has been copied to its place in the run. */
  ghost predicate CopiedTo(v: Vol, s: Vol, olds: seq<nat>, start: nat, i: nat)
    requires i < |olds|
  {
    olds[i] in v.data && start + i in s.data && s.data[start + i] == v.data[olds[i]]
  }

  /** The first `n` blocks have been copied to the run at `start`; no other block has changed. */
  ghost predicate Copied(v: Vol, s: Vol, olds: seq<nat>, start: nat, n: nat)
    requires n <= |olds|
  {
    && s.inodes == v.inodes && s.inums == v.inums && s.data.Keys == v.data.Keys
    && (forall b :: b in v.data && b in s.data && !(start <= b < start + n) ==> s.data[b] == v.data[b])
    && (forall i: nat :: i < n ==> CopiedTo(v, s, olds, start, i))
  }

  /** Blocks that were free can be filled without anybody noticing. */
  lemma CopiedResolved(g: Geometry, v: Vol, s: Vol, olds: seq<nat>, start: nat, n: nat)
    requires n <= |olds| && Copied(v, s, olds, start, n) && Sound(g, v) && Owned(g, v)
    requires forall b: nat :: start <= b < start + n ==> IsFree(g, v, b)
    ensures Resolved(g, v, s)
  {
    forall r | IsRef(g, v, r)
      ensures Where(g, v, r) != 0 ==> !(start <= Where(g, v, r) < start + n)
    {
      if start <= Where(g, v, r) < start + n {
        FreeUnreferred(g, v, Where(g, v, r));
      }
    }
    forall j, lb | There(g, v, j, lb)
      ensures There(g, s, j, lb) && BlockOf(g, s, j, lb) == BlockOf(g, v, j, lb)
    {
      CopiedThere(g, v, s, olds, start, n, j, lb);
    }
  }

  lemma CopiedThere(g: Geometry, v: Vol, s: Vol, olds: seq<nat>, start: nat, n: nat, j: nat, lb: nat)
    requires n <= |olds| && Copied(v, s, olds, start, n) && There(g, v, j, lb) && Sound(g, v) && Owned(g, v)
    requires forall r :: IsRef(g, v, r) && Where(g, v, r) != 0 ==> !(start <= Where(g, v, r) < start + n)
    ensures There(g, s, j, lb) && BlockOf(g, s, j, lb) == BlockOf(g, v, j, lb)
  {
    var ind := v.inodes[j].blocks[12];
    assert IsRef(g, v, Indirect(j)) && Where(g, v, Indirect(j)) == ind;
    if ind != 0 {
      assert IsUsed(g, v, ind);
      assert ind in v.data.Keys && s.data[ind] == v.data[ind];
    }
    assert Where(g, s, Leaf(j, lb)) == Where(g, v, Leaf(j, lb));
    assert Where(g, v, Leaf(j, lb)) in v.data.Keys;
  }

  lemma CopyOne(v: Vol, s: Vol, olds: seq<nat>, start: nat, n: nat, block: seq<byte>)
    requires n < |olds| && Copied(v, s, olds, start, n) && start + n in s.data && olds[n] in v.data
    requires block == v.data[olds[n]]
    ensures Copied(v, s.(data := s.data[start + n := block]), olds, start, n + 1)
  {
    var d := s.data[start + n := block];
    assert d.Keys == s.data.Keys;
    forall i: nat | i < n + 1 ensures CopiedTo(v, s.(data := d), olds, start, i) {
      assert i < n ==> CopiedTo(v, s, olds, start, i);
    }
    forall b | b in v.data && b in d && !(start <= b < start + (n + 1))
      ensures d[b] == v.data[b]
    {
      assert b in s.data.Keys;
    }
  }

  /** Every block's data goes to the new run, which nobody refers to yet. */
  method CopyBlocks(vol: Volume, ghost ino: nat, olds: seq<nat>, start: nat, ghost v0: Vol, ghost steps0: seq<Vol>)
    requires vol.Valid() && Sound(vol.g, v0) && Owned(vol.g, v0) && IsInum(v0, ino) && |olds| <= vol.g.MaxBlocks()
    requires BlocksAre(vol.g, v0, ino, olds) && RunAt(vol.g, v0, start, |olds|)
    requires vol.v == RunMarked(vol.g, v0, start, |olds|)
    requires StepsSafe(vol.g, v0, steps0, vol.steps)
    modifies vol
    ensures vol.Valid() && vol.v.blocks == old(vol.v).blocks && Copied(v0, vol.v, olds, start, |olds|)
    ensures StepsSafe(vol.g, v0, steps0, vol.steps)
  {
    hide Sound, Volume.Valid, Owned, Copied, StepsSafe, Resolved, RunMarked, BlocksAre, RunAt;
    RunMarkedFree(vol.g, v0, start, |olds|);
    BlocksFacts(vol.g, v0, ino, olds);
    CopyStarts(vol.g, v0, olds, start);
    var i := 0;
    while i < |olds|
      invariant 0 <= i <= |olds| && vol.Valid() && vol.v.blocks == old(vol.v).blocks
      invariant Copied(v0, vol.v, olds, start, i)
      invariant StepsSafe(vol.g, v0, steps0, vol.steps)
    {
      CopySource(vol.g, v0, vol.v, olds, start, i);
      var block := vol.v.data[olds[i]];
      CopyOne(v0, vol.v, olds, start, i, block);
      ghost var steps1 := vol.steps;
      vol.WriteData(start + i, block);
      i := i + 1;
      CopiedResolved(vol.g, v0, vol.v, olds, start, i);
      SafeOne(vol.g, v0, vol.v, steps0, steps1);
    }
  }

  lemma CopyStarts(g: Geometry, v: Vol, olds: seq<nat>, start: nat)
    requires RunAt(g, v, start, |olds|)
    ensures Copied(v, RunMarked(g, v, start, |olds|), olds, start, 0)
    ensures |RunMarked(g, v, start, |olds|).blocks.used| == |v.blocks.used|
  {
  }

  /** The block to copy still holds its data: it is not part of the run. */
  lemma CopySource(g: Geometry, v: Vol, s: Vol, olds: seq<nat>, start: nat, i: nat)
    requires Sound(g, v) && Sound(g, s) && i < |olds| && Copied(v, s, olds, start, i) && IsUsed(g, v, olds[i])
    requires forall b: nat :: start <= b < start + |olds| ==> IsFree(g, v, b)
    requires |s.blocks.used| == |v.blocks.used|
    ensures olds[i] in v.data && olds[i] in s.data && s.data[olds[i]] == v.data[olds[i]] && |s.data[olds[i]]| == g.bs
    ensures IsBlock(g, s, start + i) && start + i in s.data
  {
    assert IsFree(g, v, start + i);
    FreeNotUsed(g, v, start + i);
    assert olds[i] in v.data.Keys;
    assert !(start <= olds[i] < start + i) by {
      if start <= olds[i] < start + i { FreeNotUsed(g, v, olds[i]); }
    }
  }

  // ----- the two commits

  /** The direct block numbers repointed at the run. */
  function Repoint(blocks: seq<nat>, start: nat, n: nat): (r: seq<nat>)
    requires n <= |blocks|
    ensures |r| == |blocks| && forall i :: 0 <= i < |r| ==> r[i] == if i < n then start + i else blocks[i]
  {
    seq(n, i => start + i) + blocks[n..]
  }

  function Direct(count: nat): nat { if count < 12 then count else 12 }

  /** The places refer to what they did, except that logical blocks below `n` of `ino` are at the run. */
  ghost predicate Moved(g: Geometry, v: Vol, s: Vol, ino: nat, start: nat, n: nat) {
    && (forall r :: IsRef(g, s, r) <==> IsRef(g, v, r))
    && (forall r :: IsRef(g, v, r) ==>
          Where(g, s, r) == if r.Leaf? && r.ino == ino && r.lb < n then start + r.lb else Where(g, v, r))
  }

  /** The data is in both places, and inodes differ in nothing but block numbers. */
  ghost predicate InBoth(g: Geometry, v: Vol, s: Vol, olds: seq<nat>, start: nat) {
    && |s.inums.used| == |v.inums.used| && s.inodes.Keys == v.inodes.Keys
    && (forall j :: j in v.inodes && j in s.inodes ==>
          SameButBlocks(s.inodes[j], v.inodes[j]))
    && (forall i: nat :: i < |olds| ==> CopiedTo(v, s, olds, start, i))
    && (forall r: Ref :: r.Leaf? && IsRef(g, v, r) && Where(g, v, r) != 0 ==>
          Where(g, v, r) in v.data && Where(g, v, r) in s.data && s.data[Where(g, v, r)] == v.data[Where(g, v, r)])
  }

  /** With the data in both places, it does not matter which logical blocks have already moved. */
  lemma MovedResolved(g: Geometry, v: Vol, s: Vol, ino: nat, olds: seq<nat>, start: nat, n: nat)
    requires Moved(g, v, s, ino, start, n) && InBoth(g, v, s, olds, start) && n <= |olds| && start > 0
    requires BlocksAre(g, v, ino, olds)
    ensures Resolved(g, v, s)
  {
    hide IsRef, Where;
    forall j: nat, lb: nat | There(g, v, j, lb)
      ensures There(g, s, j, lb) && BlockOf(g, s, j, lb) == BlockOf(g, v, j, lb)
    {
      if j == ino && lb < n {
        assert Where(g, v, Leaf(ino, lb)) == olds[lb];
        assert CopiedTo(v, s, olds, start, lb);
      }
    }
  }

  /** The entries of the indirect block repointed at the rest of the run. */
  method RepointEntries(block: seq<byte>, start: nat, count: nat) returns (r: seq<byte>)
    requires 12 <= count && 4 * (count - 12) <= |block| && start + count < 0x1_0000_0000
    ensures |r| == |block| && EntriesAre(block, r, start, count)
  {
    r := block;
    var i := 12;
    while i < count
      invariant 12 <= i <= count && |r| == |block| && EntriesAre(block, r, start, i)
    {
      r := EntryPut(block, r, start, i);
      i := i + 1;
    }
  }

  ghost predicate EntriesAre(block: seq<byte>, r: seq<byte>, start: nat, count: nat)
    requires |r| == |block|
  {
    forall k: nat :: 4 * k + 4 <= |block| ==> Ptr(r, k) == if k + 12 < count then start + 12 + k else Ptr(block, k)
  }

  method EntryPut(ghost block: seq<byte>, r: seq<byte>, start: nat, i: nat) returns (r': seq<byte>)
    requires 12 <= i && 4 * (i - 12) + 4 <= |r| == |block| && start + i < 0x1_0000_0000
    requires EntriesAre(block, r, start, i)
    ensures |r'| == |r| && EntriesAre(block, r', start, i + 1)
  {
    r' := PutWord(r, 4 * (i - 12), start + i);
    forall k: nat | 4 * k + 4 <= |block|
      ensures Ptr(r', k) == if k + 12 < i + 1 then start + 12 + k else Ptr(block, k)
    {
      assert Ptr(r, k) == if k + 12 < i then start + 12 + k else Ptr(block, k);
      if k != i - 12 {
        OtherWord(r, 4 * (i - 12), start + i, 4 * k);
      }
    }
  }

  /** After the inode write: what the places refer to. */
  lemma InodePlaces(g: Geometry, v: Vol, s: Vol, ino: nat, olds: seq<nat>, start: nat, s': Vol, r: Ref)
    requires Copied(v, s, olds, start, |olds|) && Sound(g, v) && Owned(g, v) && IsInum(v, ino)
    requires |olds| <= g.MaxBlocks() && forall b: nat :: start <= b < start + |olds| ==> IsFree(g, v, b)
    requires ino in s.inodes && |s.inodes[ino].blocks| == 15
    requires var nd := s.inodes[ino];
      s' == s.(inodes := s.inodes[ino := nd.(blocks := Repoint(nd.blocks, start, Direct(|olds|)))])
    requires IsRef(g, v, r)
    ensures IsRef(g, s', r)
    ensures Where(g, s', r) == if r.Leaf? && r.ino == ino && r.lb < Direct(|olds|) then start + r.lb else Where(g, v, r)
  {
    var ind := v.inodes[r.ino].blocks[12];
    assert IsRef(g, v, Indirect(r.ino)) && Where(g, v, Indirect(r.ino)) == ind;
    if ind != 0 {
      assert IsUsed(g, v, ind);
      assert ind in v.data.Keys && ind in s.data.Keys;
      if start <= ind < start + |olds| { FreeNotUsed(g, v, ind); }
      assert s.data[ind] == v.data[ind];
    }
  }

  /** The indirect block as the code reads it back, and as it writes it. */
  lemma IndirectPlaces(g: Geometry, v: Vol, s: Vol, ino: nat, olds: seq<nat>, start: nat, r: seq<byte>, s': Vol, p: Ref)
    requires Sound(g, v) && Owned(g, v) && IsInum(v, ino) && IsRef(g, v, p) && |olds| > 12 && |olds| <= g.MaxBlocks()
    requires ino in s.inodes && |s.inodes[ino].blocks| == 15 && s.inodes[ino].blocks[12] != 0
    requires IsRef(g, s, p) && IsRef(g, s, Indirect(p.ino)) && IsRef(g, v, Indirect(p.ino))
    requires Where(g, s, p) == if p.Leaf? && p.ino == ino && p.lb < 12 then start + p.lb else Where(g, v, p)
    requires Where(g, s, Indirect(p.ino)) == Where(g, v, Indirect(p.ino))
    requires var ind := s.inodes[ino].blocks[12];
      && ind in s.data && |s.data[ind]| == g.bs && |r| == g.bs && EntriesAre(s.data[ind], r, start, |olds|)
      && ind == v.inodes[ino].blocks[12] && s' == s.(data := s.data[ind := r])
    ensures IsRef(g, s', p)
    ensures Where(g, s', p) == if p.Leaf? && p.ino == ino && p.lb < |olds| then start + p.lb else Where(g, v, p)
  {
    var ind := s.inodes[ino].blocks[12];
    if p.ino == ino {
      if p.Leaf? && p.lb >= 12 && 4 * (p.lb - 12) + 4 <= g.bs {
        assert Ptr(r, p.lb - 12) == if p.lb < |olds| then start + p.lb else Ptr(s.data[ind], p.lb - 12);
      }
    } else {
      assert IsRef(g, v, Indirect(ino)) && Where(g, v, Indirect(ino)) == ind;
      assert Where(g, v, Indirect(p.ino)) != ind;
    }
  }

  /** After the inode write. */
  lemma InodeCommitted(g: Geometry, v: Vol, s: Vol, ino: nat, olds: seq<nat>, start: nat, s': Vol)
    requires Copied(v, s, olds, start, |olds|) && Sound(g, v) && Owned(g, v) && IsInum(v, ino)
    requires BlocksAre(g, v, ino, olds)
    requires |olds| <= g.MaxBlocks() && start > 0 && forall b: nat :: start <= b < start + |olds| ==> IsFree(g, v, b)
    requires ino in s.inodes && |s.inodes[ino].blocks| == 15
    requires var nd := s.inodes[ino];
      s' == s.(inodes := s.inodes[ino := nd.(blocks := Repoint(nd.blocks, start, Direct(|olds|)))])
    ensures Moved(g, v, s', ino, start, Direct(|olds|)) && InBoth(g, v, s', olds, start) && Resolved(g, v, s')
  {
    forall r | IsRef(g, v, r)
      ensures IsRef(g, s', r)
      ensures Where(g, s', r) == if r.Leaf? && r.ino == ino && r.lb < Direct(|olds|) then start + r.lb
        else Where(g, v, r)
    {
      InodePlaces(g, v, s, ino, olds, start, s', r);
    }
    assert forall r :: IsRef(g, s', r) ==> IsRef(g, v, r);
    CopiedBoth(g, v, s, olds, start);
    assert s'.inodes.Keys == s.inodes.Keys;
    BothSame(g, v, s, s', olds, start);
    hide Moved, InBoth;
    MovedResolved(g, v, s', ino, olds, start, Direct(|olds|));
  }

  lemma BothSame(g: Geometry, v: Vol, s: Vol, s': Vol, olds: seq<nat>, start: nat)
    requires InBoth(g, v, s, olds, start) && s'.data == s.data && s'.inums == s.inums && s'.inodes.Keys == s.inodes.Keys
    requires forall j :: j in s.inodes && j in s'.inodes ==>
      SameButBlocks(s'.inodes[j], s.inodes[j])
    ensures InBoth(g, v, s', olds, start)
  {
    hide IsRef, Where;
    assert forall j :: j in s.inodes <==> j in s.inodes.Keys;
    assert forall j :: j in s'.inodes <==> j in s'.inodes.Keys;
    forall i: nat | i < |olds| ensures CopiedTo(v, s', olds, start, i) {
      assert CopiedTo(v, s, olds, start, i);
    }
  }

  lemma CopiedBoth(g: Geometry, v: Vol, s: Vol, olds: seq<nat>, start: nat)
    requires Copied(v, s, olds, start, |olds|) && Sound(g, v) && Owned(g, v)
    requires forall b: nat :: start <= b < start + |olds| ==> IsFree(g, v, b)
    ensures InBoth(g, v, s, olds, start)
  {
    forall r: Ref | r.Leaf? && IsRef(g, v, r) && Where(g, v, r) != 0
      ensures Where(g, v, r) in v.data && Where(g, v, r) in s.data && s.data[Where(g, v, r)] == v.data[Where(g, v, r)]
    {
      assert IsUsed(g, v, Where(g, v, r));
      assert Where(g, v, r) in v.data.Keys;
      if start <= Where(g, v, r) < start + |olds| { FreeNotUsed(g, v, Where(g, v, r)); }
    }
  }

  /** After the rewrite of the indirect block, which stays where it is. */
  lemma IndirectCommitted(g: Geometry, v: Vol, s: Vol, ino: nat, olds: seq<nat>, start: nat, r: seq<byte>, s': Vol)
    requires Sound(g, v) && Owned(g, v) && IsInum(v, ino) && BlocksAre(g, v, ino, olds) && start > 0
    requires 12 < |olds| <= g.MaxBlocks() && forall b: nat :: start <= b < start + |olds| ==> IsFree(g, v, b)
    requires Moved(g, v, s, ino, start, 12) && InBoth(g, v, s, olds, start)
    requires ino in s.inodes && |s.inodes[ino].blocks| == 15 && s.inodes[ino].blocks[12] != 0
    requires var ind := s.inodes[ino].blocks[12];
      && ind in s.data && |s.data[ind]| == g.bs && |r| == g.bs && EntriesAre(s.data[ind], r, start, |olds|)
      && ind == v.inodes[ino].blocks[12] && s' == s.(data := s.data[ind := r])
    ensures Moved(g, v, s', ino, start, |olds|) && Resolved(g, v, s')
  {
    forall p | IsRef(g, v, p)
      ensures IsRef(g, s', p)
      ensures Where(g, s', p) == if p.Leaf? && p.ino == ino && p.lb < |olds| then start + p.lb else Where(g, v, p)
    {
      assert IsRef(g, v, Indirect(p.ino)) && IsRef(g, s, Indirect(p.ino));
      IndirectPlaces(g, v, s, ino, olds, start, r, s', p);
    }
    assert forall p :: IsRef(g, s', p) ==> IsRef(g, s, p);
    IndirectAlone(g, v, ino);
    BothKept(g, v, s, ino, olds, start, r, s');
    hide Moved, InBoth;
    MovedResolved(g, v, s', ino, olds, start, |olds|);
  }

  lemma BothKept(g: Geometry, v: Vol, s: Vol, ino: nat, olds: seq<nat>, start: nat, r: seq<byte>, s': Vol)
    requires InBoth(g, v, s, olds, start) && IsInum(v, ino) && ino in v.inodes && |v.inodes[ino].blocks| == 15
    requires forall b: nat :: start <= b < start + |olds| ==> IsFree(g, v, b)
    requires var ind := v.inodes[ino].blocks[12];
      && IsUsed(g, v, ind) && (forall p :: IsRef(g, v, p) && p != Indirect(ino) ==> Where(g, v, p) != ind)
      && s' == s.(data := s.data[ind := r])
    ensures InBoth(g, v, s', olds, start)
  {
    hide IsRef, Where, SameButBlocks, IsFree, IsUsed;
    var ind := v.inodes[ino].blocks[12];
    if start <= ind < start + |olds| {
      FreeNotUsed(g, v, ind);
    }
    DataElsewhere(s.data, ind, r);
    assert s'.inodes == s.inodes && s'.inums == s.inums;
    forall i: nat | i < |olds| ensures CopiedTo(v, s', olds, start, i) {
      assert CopiedTo(v, s, olds, start, i);
    }
    forall p: Ref | p.Leaf? && IsRef(g, v, p) && Where(g, v, p) != 0
      ensures Where(g, v, p) in v.data && Where(g, v, p) in s'.data && s'.data[Where(g, v, p)] == v.data[Where(g, v, p)]
    {
      assert Where(g, v, p) in s.data;
    }
  }

  lemma DataElsewhere(data: map<nat, seq<byte>>, ind: nat, r: seq<byte>)
    ensures forall b :: b in data && b != ind ==> b in data[ind := r] && data[ind := r][b] == data[b]
  {
  }

  // ----- giving back

  /** Exactly the blocks of the run that are left, and the file's old blocks that are given back, changed hands. */
  ghost predicate Freed(g: Geometry, s: Vol, s': Vol, olds: seq<nat>, n: nat)
    requires n <= |olds|
  {
    && s'.inodes == s.inodes && s'.data == s.data && s'.inums == s.inums && |s'.blocks.used| == |s.blocks.used|
    && (forall b: nat :: IsFree(g, s', b) <==> IsFree(g, s, b) || b in olds[..n])
  }

  lemma FreedOne(g: Geometry, s: Vol, s1: Vol, olds: seq<nat>, n: nat)
    requires n < |olds| && Freed(g, s, s1, olds, n) && Sound(g, s1) && IsUsed(g, s1, olds[n]) && olds[n] != 0
    ensures Flippable(s1.blocks, g.per, olds[n] - g.first, false) && Freed(g, s, Released(g, s1, olds[n]), olds, n + 1)
  {
    hide Sound;
    ReleasedSound(g, s1, olds[n]);
    assert olds[..n + 1] == olds[..n] + [olds[n]];
    hide IsFree;
  }

  /** The file's old blocks are released one by one. */
  method FreeOld(vol: Volume, olds: seq<nat>)
    requires vol.Valid()
    requires forall i :: 0 <= i < |olds| ==> IsUsed(vol.g, vol.v, olds[i]) && olds[i] != 0
    requires forall i, k :: 0 <= i < k < |olds| ==> olds[i] != olds[k]
    modifies vol
    ensures vol.Valid() && Freed(vol.g, old(vol.v), vol.v, olds, |olds|)
    ensures StepsKeep(old(vol.steps), vol.steps, old(vol.v)) && SameRecords(old(vol.v), vol.v)
  {
    hide Sound, Volume.Valid, Freed, StepsKeep, Released;
    ghost var s, steps0 := vol.v, vol.steps;
    var i := 0;
    FreedNone(vol.g, s, olds);
    KeepNone(steps0, s);
    while i < |olds|
      invariant 0 <= i <= |olds| && vol.Valid() && Freed(vol.g, s, vol.v, olds, i)
      invariant StepsKeep(steps0, vol.steps, s) && SameRecords(s, vol.v)
    {
      StillUsed(vol.g, s, vol.v, olds, i);
      FreedOne(vol.g, s, vol.v, olds, i);
      ghost var s1, steps1 := vol.v, vol.steps;
      vol.FreeBlock(olds[i]);
      KeepMore(steps0, steps1, vol.steps, s, s1);
      ReleasedRecords(vol.g, s1, olds[i]);
      i := i + 1;
    }
  }

  lemma ReleasedRecords(g: Geometry, s: Vol, b: nat)
    requires g.first <= b && Flippable(s.blocks, g.per, b - g.first, false)
    ensures SameRecords(s, Released(g, s, b))
  {
  }

  lemma FreedNone(g: Geometry, s: Vol, olds: seq<nat>)
    ensures Freed(g, s, s, olds, 0)
  {
  }

  lemma StillUsed(g: Geometry, s: Vol, s1: Vol, olds: seq<nat>, n: nat)
    requires n < |olds| && Freed(g, s, s1, olds, n) && IsUsed(g, s, olds[n])
    requires forall i, k :: 0 <= i < k < |olds| ==> olds[i] != olds[k]
    ensures IsUsed(g, s1, olds[n])
  {
    assert olds[n] !in olds[..n];
    assert !IsFree(g, s1, olds[n]);
  }

  /** The unused run is given back block by block, leaving bitmaps and counters exactly as they were. */
  method GiveRunBack(vol: Volume, start: nat, len: nat, ghost v0: Vol, ghost steps0: seq<Vol>)
    requires vol.Valid() && RunAt(vol.g, v0, start, len) && vol.v == RunMarked(vol.g, v0, start, len) && len > 0
    requires start > 0
    requires StepsSafe(vol.g, v0, steps0, vol.steps)
    modifies vol
    ensures vol.Valid() && vol.v == v0 && StepsSafe(vol.g, v0, steps0, vol.steps)
  {
    hide Sound, Volume.Valid, StepsSafe, Resolved, StepsKeep, Released, RunAt, RunMarked;
    var i := 0;
    while i < len
      invariant 0 <= i <= len && vol.Valid() && StepsSafe(vol.g, v0, steps0, vol.steps)
      invariant i < len ==> RunAt(vol.g, v0, start + i, len - i) && vol.v == RunMarked(vol.g, v0, start + i, len - i)
      invariant i == len ==> vol.v == v0
    {
      RunGivesBack(vol.g, v0, start + i, len - i);
      RunMarkedFree(vol.g, v0, start + i, len - i);
      RunRecords(vol.g, v0, start + i, len - i);
      ghost var s1, steps1 := vol.v, vol.steps;
      assert IsUsed(vol.g, vol.v, start + i);
      vol.FreeBlock(start + i);
      SafeKeeps(vol.g, v0, s1, steps0, steps1, vol.steps);
      i := i + 1;
    }
  }

  lemma RunRecords(g: Geometry, v: Vol, start: nat, len: nat)
    requires RunAt(g, v, start, len)
    ensures Resolved(g, v, RunMarked(g, v, start, len))
  {
    ResolvedSelf(g, v);
    assert SameRecords(v, RunMarked(g, v, start, len));
    hide Resolved;
    RecordsDecide(g, v, v, RunMarked(g, v, start, len));
  }

  // ----- the whole move

  /** A file that reaches past its direct blocks has an indirect block. */
  lemma NeedsIndirect(g: Geometry, v: Vol, ino: nat, olds: seq<nat>)
    requires Sound(g, v) && Owned(g, v) && IsInum(v, ino) && BlocksAre(g, v, ino, olds) && |olds| > 12
    ensures v.inodes[ino].blocks[12] != 0 && IsUsed(g, v, v.inodes[ino].blocks[12])
  {
    assert Where(g, v, Leaf(ino, 12)) == olds[12];
    IndirectAlone(g, v, ino);
  }

  ghost predicate NoneDouble(v: Vol) {
    forall i :: IsInum(v, i) && i in v.inodes && |v.inodes[i].blocks| == 15 ==> NoDouble(v.inodes[i])
  }

  /** The commit: the inode first, then the contents of the indirect block. */
  method Commit(vol: Volume, ino: nat, olds: seq<nat>, start: nat, ghost v0: Vol, ghost steps0: seq<Vol>)
    requires vol.Valid() && Sound(vol.g, v0) && Owned(vol.g, v0) && IsInum(v0, ino) && 0 < |olds| <= vol.g.MaxBlocks()
    requires BlocksAre(vol.g, v0, ino, olds) && Copied(v0, vol.v, olds, start, |olds|) && start > 0
    requires |vol.v.blocks.used| == |v0.blocks.used|
    requires forall b: nat :: start <= b < start + |olds| ==> IsFree(vol.g, v0, b)
    requires StepsSafe(vol.g, v0, steps0, vol.steps)
    modifies vol
    ensures vol.Valid() && Moved(vol.g, v0, vol.v, ino, start, |olds|) && Resolved(vol.g, v0, vol.v)
    ensures vol.v.blocks == old(vol.v).blocks && vol.v.inums == old(vol.v).inums && NoneDouble(vol.v)
    ensures StepsSafe(vol.g, v0, steps0, vol.steps)
  {
    hide Sound, Volume.Valid, Owned, StepsSafe, Resolved, Moved, InBoth, BlocksAre, IsFree, NoneDouble, Repoint;
    CopiedInodes(vol.g, v0, vol.v, ino, olds, start);
    ghost var s0, steps1 := vol.v, vol.steps;
    var nd := vol.v.inodes[ino];
    nd := nd.(blocks := Repoint(nd.blocks, start, Direct(|olds|)));
    InodeCommitted(vol.g, v0, s0, ino, olds, start, s0.(inodes := s0.inodes[ino := nd]));
    RepointedTail(vol.g, v0, s0, ino, start, Direct(|olds|), s0.(inodes := s0.inodes[ino := nd]));
    vol.WriteInode(ino, nd);
    SafeOne(vol.g, v0, vol.v, steps0, steps1);
    if |olds| > 12 {
      NeedsIndirect(vol.g, v0, ino, olds);
      IndirectHere(vol.g, v0, s0, ino, olds, start);
      var ind := nd.blocks[12];
      RunBelow(vol.g, v0, start, |olds|);
      var r := RepointEntries(vol.v.data[ind], start, |olds|);
      ghost var s1 := vol.v;
      steps1 := vol.steps;
      IndirectCommitted(vol.g, v0, s1, ino, olds, start, r, s1.(data := s1.data[ind := r]));
      NoneDoubleSame(s1, s1.(data := s1.data[ind := r]));
      vol.WriteData(ind, r);
      SafeOne(vol.g, v0, vol.v, steps0, steps1);
    }
  }

  lemma NoneDoubleSame(s: Vol, s': Vol)
    requires NoneDouble(s) && s'.inodes == s.inodes && s'.inums == s.inums
    ensures NoneDouble(s')
  {
  }

  lemma CopiedInodes(g: Geometry, v: Vol, s: Vol, ino: nat, olds: seq<nat>, start: nat)
    requires Copied(v, s, olds, start, |olds|) && Sound(g, v) && IsInum(v, ino)
    ensures ino in s.inodes && |s.inodes[ino].blocks| == 15 && s.inodes[ino] == v.inodes[ino] && IsInum(s, ino)
    ensures s.inums == v.inums
  {
  }

  lemma RepointedTail(g: Geometry, v: Vol, s: Vol, ino: nat, start: nat, n: nat, s': Vol)
    requires Owned(g, v) && s.inodes == v.inodes && s.inums == v.inums && n <= 12
    requires IsInum(v, ino) && ino in s.inodes && |s.inodes[ino].blocks| == 15
    requires s' == s.(inodes := s.inodes[ino := s.inodes[ino].(blocks := Repoint(s.inodes[ino].blocks, start, n))])
    ensures NoneDouble(s') && s'.inodes[ino].blocks[12] == v.inodes[ino].blocks[12]
  {
    hide IsRef, Where;
    assert NoDouble(v.inodes[ino]);
  }

  /** The indirect block was not touched by the copying. */
  lemma IndirectHere(g: Geometry, v: Vol, s: Vol, ino: nat, olds: seq<nat>, start: nat)
    requires Sound(g, v) && Copied(v, s, olds, start, |olds|) && |s.blocks.used| == |v.blocks.used|
    requires IsInum(v, ino) && IsUsed(g, v, v.inodes[ino].blocks[12])
    requires forall b: nat :: start <= b < start + |olds| ==> IsFree(g, v, b)
    ensures var ind := v.inodes[ino].blocks[12]; ind in s.data && |s.data[ind]| == g.bs && IsBlock(g, s, ind)
  {
    var ind := v.inodes[ino].blocks[12];
    assert ind in v.data.Keys;
    if start <= ind < start + |olds| { FreeNotUsed(g, v, ind); }
  }

  lemma RunBelow(g: Geometry, v: Vol, start: nat, n: nat)
    requires Sound(g, v) && n > 0 && forall b: nat :: start <= b < start + n ==> IsFree(g, v, b)
    ensures start + n < 0x1_0000_0000
  {
    assert IsFree(g, v, start + n - 1);
  }

  /** The file on its run, the old blocks given back: still nothing is referred to twice or unreserved. */
  lemma FinalOwned(g: Geometry, v: Vol, s: Vol, s': Vol, ino: nat, olds: seq<nat>, start: nat)
    requires Sound(g, v) && Owned(g, v) && IsInum(v, ino) && BlocksAre(g, v, ino, olds) && |olds| <= g.MaxBlocks()
    requires start > 0
    requires RunAt(g, v, start, |olds|) && s.blocks == RunMarked(g, v, start, |olds|).blocks
    requires Moved(g, v, s, ino, start, |olds|) && NoneDouble(s) && Freed(g, s, s', olds, |olds|)
    ensures Owned(g, s')
  {
    BlocksFacts(g, v, ino, olds);
    RunMarkedFree(g, v, start, |olds|);
    forall r | IsRef(g, s', r) && Where(g, s', r) != 0
      ensures IsUsed(g, s', Where(g, s', r))
    {
      FinalUsed(g, v, s, s', ino, olds, start, r);
    }
    hide BlocksAre;
    assert NoneDouble(s');
    forall r, t | IsRef(g, s', r) && IsRef(g, s', t) && r != t && Where(g, s', r) != 0
      ensures Where(g, s', r) != Where(g, s', t)
    {
      FinalApart(g, v, s, s', ino, olds, start, r, t);
    }
  }

  lemma FinalWhere(g: Geometry, v: Vol, s: Vol, s': Vol, ino: nat, olds: seq<nat>, start: nat, r: Ref)
    requires Moved(g, v, s, ino, start, |olds|) && Freed(g, s, s', olds, |olds|) && IsRef(g, s', r)
    ensures IsRef(g, s, r) && IsRef(g, v, r)
    ensures Where(g, s', r) == if r.Leaf? && r.ino == ino && r.lb < |olds| then start + r.lb else Where(g, v, r)
  {
    assert IsRef(g, s, r);
  }

  lemma FinalUsed(g: Geometry, v: Vol, s: Vol, s': Vol, ino: nat, olds: seq<nat>, start: nat, r: Ref)
    requires Owned(g, v) && IsInum(v, ino) && BlocksAre(g, v, ino, olds) && RunAt(g, v, start, |olds|)
    requires s.blocks == RunMarked(g, v, start, |olds|).blocks
    requires Moved(g, v, s, ino, start, |olds|) && Freed(g, s, s', olds, |olds|)
    requires forall i :: 0 <= i < |olds| ==> IsUsed(g, v, olds[i])
    requires IsRef(g, s', r) && Where(g, s', r) != 0
    ensures IsUsed(g, s', Where(g, s', r))
  {
    FinalWhere(g, v, s, s', ino, olds, start, r);
    RunMarkedFree(g, v, start, |olds|);
    var b := Where(g, s', r);
    assert IsUsed(g, s, b) by {
      assert IsUsed(g, RunMarked(g, v, start, |olds|), b);
    }
    assert b !in olds[..|olds|] by { NotOld(g, v, ino, olds, start, r, b); }
    assert !IsFree(g, s', b);
  }

  lemma NotOld(g: Geometry, v: Vol, ino: nat, olds: seq<nat>, start: nat, r: Ref, b: nat)
    requires Owned(g, v) && BlocksAre(g, v, ino, olds) && RunAt(g, v, start, |olds|) && IsRef(g, v, r) && b != 0
    requires forall i :: 0 <= i < |olds| ==> IsUsed(g, v, olds[i])
    requires b == if r.Leaf? && r.ino == ino && r.lb < |olds| then start + r.lb else Where(g, v, r)
    ensures b !in olds
  {
    RunMarkedFree(g, v, start, |olds|);
    forall i | 0 <= i < |olds|
      ensures olds[i] != b
    {
      assert IsRef(g, v, Leaf(ino, i)) && Where(g, v, Leaf(ino, i)) == olds[i];
      if r.Leaf? && r.ino == ino && r.lb < |olds| {
        FreeNotUsed(g, v, b);
      }
    }
  }

  lemma FinalApart(g: Geometry, v: Vol, s: Vol, s': Vol, ino: nat, olds: seq<nat>, start: nat, r: Ref, t: Ref)
    requires Owned(g, v) && RunAt(g, v, start, |olds|)
    requires Moved(g, v, s, ino, start, |olds|) && Freed(g, s, s', olds, |olds|) && start > 0
    requires IsRef(g, s', r) && IsRef(g, s', t) && r != t && Where(g, s', r) != 0
    ensures Where(g, s', r) != Where(g, s', t)
  {
    FinalWhere(g, v, s, s', ino, olds, start, r);
    FinalWhere(g, v, s, s', ino, olds, start, t);
    RunMarkedFree(g, v, start, |olds|);
    hide Moved, Freed;
    RunApart(g, v, start, |olds|, r);
    RunApart(g, v, start, |olds|, t);
  }

  lemma RunApart(g: Geometry, v: Vol, start: nat, n: nat, r: Ref)
    requires Owned(g, v) && IsRef(g, v, r) && forall b: nat :: start <= b < start + n ==> IsFree(g, v, b)
    ensures Where(g, v, r) != 0 ==> !(start <= Where(g, v, r) < start + n)
  {
    if Where(g, v, r) != 0 && start <= Where(g, v, r) < start + n {
      FreeNotUsed(g, v, Where(g, v, r));
    }
  }

  /** Blocks a file of this size needs. */
  function Count(g: Geometry, size: nat): nat
    requires g.bs > 0
  {
    (size + g.bs - 1) % 0x1_0000_0000 / g.bs
  }

  /** The first group with a free block has a free run of `count` blocks. */
  ghost predicate RunHere(g: Geometry, v: Vol, count: nat) {
    exists start: nat :: RunAt(g, v, start, count) && EarlierFull(g, v, start)
  }

  /** If the best that group has is shorter, there is no such run. */
  lemma ShorterRun(g: Geometry, v: Vol, start: nat, len: nat, count: nat)
    requires Ext2Pool.Shaped(v.blocks, g.per) && 0 < len < count && RunAt(g, v, start, len)
    requires EarlierFull(g, v, start) && NoLongerHere(g, v, start, len)
    ensures !RunHere(g, v, count)
  {
    hide Lo, NoLonger, EarlierFull, FirstOpen, Ext2Pool.Shaped, FreeRun;
    RunOpens(g, v, start, len);
    var grp := (start - g.first) / g.per;
    if RunHere(g, v, count) {
      var other: nat :| RunAt(g, v, other, count) && EarlierFull(g, v, other);
      RunOpens(g, v, other, count);
      var grp' := (other - g.first) / g.per;
      SameFirst(v.blocks, g.per, grp, start - g.first, len, grp', other - g.first, count);
    }
  }

  lemma RunOpens(g: Geometry, v: Vol, start: nat, len: nat)
    requires RunAt(g, v, start, len) && EarlierFull(g, v, start) && len > 0
    ensures g.first <= start && g.per > 0 && FirstOpen(v.blocks, g.per, (start - g.first) / g.per)
    ensures FreeRun(v.blocks, g.per, (start - g.first) / g.per, start - g.first, len)
  {
    hide Lo;
    assert !v.blocks.used[start - g.first];
  }

  lemma NoRunWhenFull(g: Geometry, v: Vol, count: nat)
    requires NoFree(v) && count > 0
    ensures !RunHere(g, v, count)
  {
    forall start: nat | RunAt(g, v, start, count) ensures false {
      NotFree(v.blocks.used, start - g.first, start - g.first + count, start - g.first);
    }
  }

  /** Logical blocks below `count` lie in one ascending run. */
  ghost predicate InOneRun(g: Geometry, v: Vol, ino: nat, count: nat) {
    exists start: nat :: RunsFrom(g, v, ino, count, start)
  }

  ghost predicate RunsFrom(g: Geometry, v: Vol, ino: nat, count: nat, start: nat) {
    forall i: nat :: i < count ==> IsRef(g, v, Leaf(ino, i)) && Where(g, v, Leaf(ino, i)) == start + i
  }

  function FileBlocks(g: Geometry, v: Vol, ino: nat): nat
    requires g.bs > 0 && ino in v.inodes
  {
    Count(g, v.inodes[ino].size)
  }

  /** The file is small enough for its block list and has no hole. */
  ghost predicate Movable(g: Geometry, v: Vol, ino: nat)
    requires g.bs > 0 && ino in v.inodes
  {
    FileBlocks(g, v, ino) <= g.MaxBlocks() && !HasHole(g, v, ino, FileBlocks(g, v, ino))
  }

  /** ext2_defrag_one. After every write it issues, every logical block of every file resolves to its original contents.
      A move leaves the file in one run and its old blocks free; anything else leaves the volume exactly as it was.
      Nothing is to be done exactly when the file is empty or lies in one run without a hole; otherwise it is moved
      exactly when it is small enough, has no hole, and the first group with a free block has a run for it. */
  method DefragOne(vol: Volume, ino: nat) returns (rc: int)
    requires vol.Valid() && IsInum(vol.v, ino) && Owned(vol.g, vol.v)
    modifies vol
    ensures vol.Valid() && Owned(vol.g, vol.v) && (rc == 1 || rc == 0 || rc == -1) && vol.v.inums == old(vol.v).inums
    ensures StepsSafe(vol.g, old(vol.v), old(vol.steps), vol.steps)
    ensures rc != 1 ==> vol.v == old(vol.v)
    ensures rc == 0 <==>
      || old(vol.v).inodes[ino].size == 0
      || (Movable(vol.g, old(vol.v), ino) && InOneRun(vol.g, old(vol.v), ino, FileBlocks(vol.g, old(vol.v), ino)))
    ensures rc == 1 <==>
      && old(vol.v).inodes[ino].size != 0
      && Movable(vol.g, old(vol.v), ino) && !InOneRun(vol.g, old(vol.v), ino, FileBlocks(vol.g, old(vol.v), ino))
      && RunHere(vol.g, old(vol.v), FileBlocks(vol.g, old(vol.v), ino))
    ensures rc == 1 ==>
      Resolved(vol.g, old(vol.v), vol.v) && InOneRun(vol.g, vol.v, ino, Count(vol.g, old(vol.v).inodes[ino].size))
    ensures rc == 1 ==> OldFree(vol.g, old(vol.v), vol.v, ino, Count(vol.g, old(vol.v).inodes[ino].size))
  {
    hide Sound, Volume.Valid, Owned, StepsSafe, Resolved, Moved, BlocksAre, IsFree, NoneDouble, Freed, RunAt, RunMarked,
      InOneRun, Copied, OldFree, HasHole, NoLongerHere, StepsKeep, NoFree, Count, EarlierFull, RunHere, BestOfAll,
      LaterBetter, Counted;
    ghost var v0, steps0 := vol.v, vol.steps;
    SafeStart(vol.g, v0, steps0);
    SoundPools(vol.g, v0);
    InodeThere(vol.g, vol.v, ino);
    if vol.v.inodes[ino].size == 0 { return 0; }
    var count := Count(vol.g, vol.v.inodes[ino].size);
    if count > vol.g.MaxBlocks() { return -1; }
    var ok, olds, run := Collect(vol, ino, count);
    if !ok {
      HoleFound(vol.g, v0, ino, count);
      return -1;
    }
    NoHole(vol.g, v0, ino, olds);
    RunFound(vol.g, v0, ino, olds);
    if run { return 0; }
    var start, got := vol.AllocRun(count);
    SafeKeeps(vol.g, v0, v0, steps0, steps0, vol.steps);
    RunFits(vol.g, v0, start, got, count);
    if got != count {
      if got > 0 { GiveRunBack(vol, start, got, v0, steps0); }
      return -1;
    }
    Move(vol, ino, olds, start, v0, steps0);
    rc := 1;
  }

  /** The move proper, once the run is reserved. */
  method Move(vol: Volume, ino: nat, olds: seq<nat>, start: nat, ghost v0: Vol, ghost steps0: seq<Vol>)
    requires vol.Valid() && Sound(vol.g, v0) && Owned(vol.g, v0) && IsInum(v0, ino) && 0 < |olds| <= vol.g.MaxBlocks()
    requires BlocksAre(vol.g, v0, ino, olds) && start > 0
    requires RunAt(vol.g, v0, start, |olds|) && vol.v == RunMarked(vol.g, v0, start, |olds|)
    requires StepsSafe(vol.g, v0, steps0, vol.steps)
    modifies vol
    ensures vol.Valid() && Owned(vol.g, vol.v) && StepsSafe(vol.g, v0, steps0, vol.steps) && Resolved(vol.g, v0, vol.v)
    ensures InOneRun(vol.g, vol.v, ino, |olds|) && OldFree(vol.g, v0, vol.v, ino, |olds|) && vol.v.inums == v0.inums
  {
    hide Sound, Volume.Valid, Owned, StepsSafe, Resolved, Moved, BlocksAre, IsFree, NoneDouble, Freed, RunAt, RunMarked,
      InOneRun, Copied, OldFree;
    RunMarkedFree(vol.g, v0, start, |olds|);
    BlocksFacts(vol.g, v0, ino, olds);
    CopyStarts(vol.g, v0, olds, start);
    CopyBlocks(vol, ino, olds, start, v0, steps0);
    CopiedInodes(vol.g, v0, vol.v, ino, olds, start);
    Commit(vol, ino, olds, start, v0, steps0);
    ghost var s, steps1 := vol.v, vol.steps;
    OldsStillUsed(vol.g, v0, s, olds, start);
    FreeOld(vol, olds);
    SafeKeeps(vol.g, v0, s, steps0, steps1, vol.steps);
    FinalOwned(vol.g, v0, s, vol.v, ino, olds, start);
    FinalResolved(vol.g, v0, s, vol.v, olds);
    FreedInums(vol.g, s, vol.v, olds);
    FinalRun(vol.g, v0, s, vol.v, ino, olds, start);
  }

  ghost predicate OldFree(g: Geometry, v: Vol, v': Vol, ino: nat, count: nat) {
    forall i: nat :: i < count ==> IsRef(g, v, Leaf(ino, i)) && IsFree(g, v', Where(g, v, Leaf(ino, i)))
  }

  ghost predicate HasHole(g: Geometry, v: Vol, ino: nat, count: nat) {
    exists i :: 0 <= i < count && !There(g, v, ino, i)
  }

  lemma HoleFound(g: Geometry, v: Vol, ino: nat, count: nat)
    requires exists i :: 0 <= i < count && !There(g, v, ino, i)
    ensures HasHole(g, v, ino, count)
  {
  }

  lemma NoHole(g: Geometry, v: Vol, ino: nat, olds: seq<nat>)
    requires Sound(g, v) && Owned(g, v) && IsInum(v, ino) && BlocksAre(g, v, ino, olds) && |olds| <= g.MaxBlocks()
    ensures !HasHole(g, v, ino, |olds|)
  {
    hide BlocksAre, There;
    BlocksFacts(g, v, ino, olds);
  }

  /** The allocator delivers the full run exactly when there is one to be seen. */
  lemma RunFits(g: Geometry, v: Vol, start: nat, got: nat, count: nat)
    requires Ext2Pool.Shaped(v.blocks, g.per) && got <= count && count > 0 && (got == 0 <==> NoFree(v))
    requires got > 0 ==> RunAt(g, v, start, got) && EarlierFull(g, v, start)
    requires 0 < got < count ==> NoLongerHere(g, v, start, got)
    ensures got == count <==> RunHere(g, v, count)
  {
    hide RunAt, EarlierFull, NoFree, NoLongerHere;
    if got == 0 {
      NoRunWhenFull(g, v, count);
    } else if got < count {
      ShorterRun(g, v, start, got, count);
    }
  }

  lemma SafeStart(g: Geometry, v: Vol, steps: seq<Vol>)
    ensures StepsSafe(g, v, steps, steps) && Resolved(g, v, v)
  {
  }

  lemma RunFound(g: Geometry, v: Vol, ino: nat, olds: seq<nat>)
    requires BlocksAre(g, v, ino, olds)
    ensures InOneRun(g, v, ino, |olds|) <==> OneRun(olds)
  {
    hide IsRef, Where;
    if OneRun(olds) {
      var start := if olds == [] then 0 else olds[0];
      forall i: nat | i < |olds|
        ensures IsRef(g, v, Leaf(ino, i)) && Where(g, v, Leaf(ino, i)) == start + i
      {
        RunUp(olds, i);
      }
      assert RunsFrom(g, v, ino, |olds|, start);
    }
    if InOneRun(g, v, ino, |olds|) {
      var start: nat :| RunsFrom(g, v, ino, |olds|, start);
      forall i: nat | i < |olds| ensures olds[i] == start + i {
        assert Where(g, v, Leaf(ino, i)) == olds[i];
      }
    }
  }

  lemma {:induction false} RunUp(olds: seq<nat>, i: nat)
    requires OneRun(olds) && i < |olds|
    ensures olds[i] == olds[0] + i
  {
    if i > 0 {
      RunUp(olds, i - 1);
    }
  }

  lemma OldsStillUsed(g: Geometry, v: Vol, s: Vol, olds: seq<nat>, start: nat)
    requires RunAt(g, v, start, |olds|) && s.blocks == RunMarked(g, v, start, |olds|).blocks
    requires forall i :: 0 <= i < |olds| ==> IsUsed(g, v, olds[i])
    ensures forall i :: 0 <= i < |olds| ==> IsUsed(g, s, olds[i])
  {
    RunMarkedFree(g, v, start, |olds|);
    forall i | 0 <= i < |olds|
      ensures IsUsed(g, s, olds[i])
    {
      assert IsUsed(g, RunMarked(g, v, start, |olds|), olds[i]);
    }
  }

  lemma FinalResolved(g: Geometry, v: Vol, s: Vol, s': Vol, olds: seq<nat>)
    requires Resolved(g, v, s) && Freed(g, s, s', olds, |olds|)
    ensures Resolved(g, v, s')
  {
    assert SameRecords(s, s');
    hide Resolved, Freed, SameRecords;
    RecordsDecide(g, v, s, s');
  }

  lemma FreedInums(g: Geometry, s: Vol, s': Vol, olds: seq<nat>)
    requires Freed(g, s, s', olds, |olds|)
    ensures s'.inums == s.inums
  {
  }

  lemma FinalRun(g: Geometry, v: Vol, s: Vol, s': Vol, ino: nat, olds: seq<nat>, start: nat)
    requires Moved(g, v, s, ino, start, |olds|) && Freed(g, s, s', olds, |olds|) && BlocksAre(g, v, ino, olds)
    ensures InOneRun(g, s', ino, |olds|) && OldFree(g, v, s', ino, |olds|)
  {
    forall i: nat | i < |olds|
      ensures IsRef(g, s', Leaf(ino, i)) && Where(g, s', Leaf(ino, i)) == start + i
      ensures IsRef(g, v, Leaf(ino, i)) && IsFree(g, s', Where(g, v, Leaf(ino, i)))
    {
      assert IsRef(g, v, Leaf(ino, i)) && Where(g, v, Leaf(ino, i)) == olds[i];
      assert IsRef(g, s, Leaf(ino, i)) && IsRef(g, s', Leaf(ino, i));
      FinalWhere(g, v, s, s', ino, olds, start, Leaf(ino, i));
      assert olds[i] in olds[..|olds|];
    }
    assert RunsFrom(g, s', ino, |olds|, start);
  }
}
