/** Open files, whole-cluster transfers and in-place edits of one directory slot. */
module Fat32Dirents {
  import opened Words
  import opened BlockStore
  import opened Fat32Table
  import opened Fat32Driver
  import opened Fat32Volume
  import opened Fat32Chains
  import opened Fat32Files

  /** An open file: its first cluster and size in memory, and where its directory entry lives
      (the volume root has none). */
  class Node {
    const hasDirent: bool
    const loc: Loc
    var inode: nat
    var size: nat

    constructor (hasDirent: bool, loc: Loc, inode: nat, size: nat)
      ensures this.hasDirent == hasDirent && this.loc == loc && this.inode == inode && this.size == size
    {
      this.hasDirent, this.loc, this.inode, this.size := hasDirent, loc, inode, size;
    }

    /** The handle agrees with the directory entry on disk. */
    ghost predicate Synced(g: Geometry, v: View, own: Owners)
      requires Inv(g, v, own)
      reads this
    {
      File(loc) in own && inode == FirstCluster(Slot(g, v, loc)) && size == FileSize(Slot(g, v, loc))
    }
  }

  /** Only the 32 bytes of slot `l` differ. */
  ghost predicate SlotWrite(g: Geometry, v0: View, v: View, l: Loc)
    ensures SlotWrite(g, v0, v, l) ==> Shaped(g, v0) && Shaped(g, v)
  {
    && Shaped(g, v0) && Shaped(g, v) && v.fat == v0.fat
    && (forall c :: 2 <= c < |v.data| && c != l.cluster ==> v.data[c] == v0.data[c])
    && (forall l' :: InBounds(g, l') && l' != l ==> Slot(g, v, l') == Slot(g, v0, l'))
  }

  /** Rewriting a slot that belongs to no file of `own` disturbs no file of `own`. */
  lemma SlotWriteKept(g: Geometry, v0: View, v: View, own: Owners, l: Loc)
    requires Inv(g, v0, own) && SlotWrite(g, v0, v, l) && File(l) !in own && InDir(own, l.cluster)
    ensures Kept(g, v0, v, own)
  {
    var id :| Dir(id) in own && l.cluster in own[Dir(id)];
    forall l', i | File(l') in own && 0 <= i < |own[File(l')]|
      ensures v.data[own[File(l')][i]] == v0.data[own[File(l')][i]]
    {
      assert Apart(own[Dir(id)], own[File(l')]);
      assert ChainOk(v0, File(l'), own[File(l')]);
    }
    forall l' | File(l') in own ensures Slot(g, v, l') == Slot(g, v0, l') {
      assert FileOk(g, v0, l', own[File(l')]) && l' != l;
    }
  }

  lemma SlotWriteOther(g: Geometry, v0: View, v: View, l: Loc, m: Loc)
    requires SlotWrite(g, v0, v, l) && InBounds(g, m) && m != l
    ensures Slot(g, v, m) == Slot(g, v0, m)
  {
  }

  lemma SlotWriteFat(g: Geometry, v0: View, v: View, l: Loc)
    requires SlotWrite(g, v0, v, l)
    ensures v.fat == v0.fat
  {
  }

  lemma StoredSlot(g: Geometry, v0: View, l: Loc, sector: Sector)
    requires Shaped(g, v0) && InBounds(g, l)
    requires forall k :: 0 <= k < 512 && (k < 32 * l.slot || 32 * l.slot + 32 <= k) ==>
      sector[k] == v0.data[l.cluster][l.sector][k]
    ensures var v := Stored(v0, l.cluster, l.sector, sector);
            SlotWrite(g, v0, v, l) && Slot(g, v, l) == sector[32 * l.slot..32 * l.slot + 32]
  {
    var v := Stored(v0, l.cluster, l.sector, sector);
    forall l' | InBounds(g, l') && l' != l ensures Slot(g, v, l') == Slot(g, v0, l') {
      if l'.cluster == l.cluster && l'.sector == l.sector {
        assert l'.slot != l.slot;
        assert forall k :: 32 * l'.slot <= k < 32 * l'.slot + 32 ==> sector[k] == v0.data[l.cluster][l.sector][k];
      }
    }
  }

  /** The entry with its size and first-cluster fields replaced. */
  function Patched(e: seq<byte>, inode: nat, size: nat): (r: seq<byte>)
    requires |e| == DIRENT_SIZE && inode < 0x1_0000_0000 && size < 0x1_0000_0000
    ensures |r| == DIRENT_SIZE && FirstCluster(r) == inode && FileSize(r) == size && r[0] == e[0]
    ensures forall k :: 0 <= k < 20 || 22 <= k < 26 ==> r[k] == e[k]
  {
    PutHalf(PutHalf(PutWord(e, 28, size), 20, inode / 0x1_0000), 26, inode % 0x1_0000)
  }

  /** fat32_flush_dirent: one sector write moves the on-disk entry to the handle's size and first cluster. */
  method FlushDirent(vol: Volume, node: Node)
    requires vol.Valid() && InBounds(vol.g, node.loc)
    requires node.inode < 0x1_0000_0000 && node.size < 0x1_0000_0000
    modifies vol.d, vol`v, vol`steps
    ensures vol.Valid() && SameOutside(old(vol.d.disk), vol.d.disk, vol.g)
    ensures !node.hasDirent ==> vol.v == old(vol.v) && vol.steps == old(vol.steps)
    ensures node.hasDirent ==>
      && SlotWrite(vol.g, old(vol.v), vol.v, node.loc) && vol.steps == old(vol.steps) + [vol.v]
      && Slot(vol.g, vol.v, node.loc) == Patched(Slot(vol.g, old(vol.v), node.loc), node.inode, node.size)
  {
    hide Volume.Valid;
    if !node.hasDirent {
      return;
    }
    var l := node.loc;
    var buf := vol.ReadSector(l.cluster, l.sector);
    var off := 32 * l.slot;
    var e := Patched(buf[off..off + 32], node.inode, node.size);
    var sector := Splice(buf, off, e);
    StoredSlot(vol.g, vol.v, l, sector);
    vol.WriteSector(l.cluster, l.sector, sector);
    assert sector[off..off + 32] == e;
  }

  /** blk_read of a whole cluster into the transfer buffer. */
  method ReadCluster(vol: Volume, c: nat) returns (buf: seq<Sector>)
    requires vol.Valid() && vol.g.IsCluster(c)
    ensures buf == vol.v.data[c]
  {
    hide Volume.Valid;
    buf := [];
    for s := 0 to vol.g.spc
      invariant |buf| == s && forall k :: 0 <= k < s ==> buf[k] == vol.v.data[c][k]
    {
      var sector := vol.ReadSector(c, s);
      buf := buf + [sector];
    }
  }

  /** The data of at most the clusters in `ch` differs. */
  ghost predicate DataOnly(v0: View, v: View, ch: seq<nat>) {
    && v.fat == v0.fat && |v.data| == |v0.data| == |v0.fat|
    && forall c :: 0 <= c < |v0.data| && c !in ch ==> v.data[c] == v0.data[c]
  }

  ghost predicate StepsDataOnly(steps: seq<View>, from: nat, v0: View, ch: seq<nat>) {
    from <= |steps| && forall k :: from <= k < |steps| ==> DataOnly(v0, steps[k], ch)
  }

  /** blk_write of a whole cluster from the transfer buffer, sector by sector. */
  method WriteCluster(vol: Volume, c: nat, buf: seq<Sector>)
    requires vol.Valid() && vol.g.IsCluster(c) && |buf| == vol.g.spc
    modifies vol.d, vol`v, vol`steps
    ensures vol.Valid() && SameOutside(old(vol.d.disk), vol.d.disk, vol.g)
    ensures DataOnly(old(vol.v), vol.v, [c]) && vol.v.data[c] == buf
    ensures old(vol.steps) <= vol.steps && StepsDataOnly(vol.steps, |old(vol.steps)|, old(vol.v), [c])
  {
    hide Volume.Valid;
    ghost var v0 := vol.v;
    for s := 0 to vol.g.spc
      invariant vol.Valid() && SameOutside(old(vol.d.disk), vol.d.disk, vol.g)
      invariant DataOnly(v0, vol.v, [c]) && forall k :: 0 <= k < s ==> vol.v.data[c][k] == buf[k]
      invariant old(vol.steps) <= vol.steps && StepsDataOnly(vol.steps, |old(vol.steps)|, v0, [c])
    {
      vol.WriteSector(c, s, buf[s]);
      assert DataOnly(v0, vol.v, [c]);
    }
  }

  /** File data written, one slot patched: the directories otherwise as they were. */
  lemma PatchKeepsSlots(g: Geometry, v0: View, v1: View, v2: View, v: View, own: Owners, l: Loc, inode: nat, size: nat)
    requires Inv(g, v0, own) && Shaped(g, v1) && File(l) in own && InBounds(g, l)
    requires forall c: nat :: InDir(own, c) ==> 2 <= c < |v0.data| && v1.data[c] == v0.data[c]
    requires SlotWrite(g, v1, v2, l) && inode < 0x1_0000_0000 && size < 0x1_0000_0000
    requires Slot(g, v2, l) == Patched(Slot(g, v1, l), inode, size)
    requires Shaped(g, v) && v.data == v2.data
    ensures SlotsKept(g, v0, v, own, l)
  {
    assert InDir(own, l.cluster);
    forall k | InBounds(g, k) && InDir(own, k.cluster) && k != l ensures Slot(g, v, k) == Slot(g, v0, k) {
      assert Slot(g, v2, k) == Slot(g, v1, k);
    }
  }
}
