/** ext2_rename, ext2_create and ext2_unlink over directories and the pools. */
module Ext2Ops {
  import opened Words
  import opened BlockStore
  import opened Products
  import opened Ext2Pool
  import opened Ext2Volume
  import opened Ext2Map
  import opened Ext2Files
  import opened Ext2Write
  import opened Ext2Dirents
  import opened Ext2Dirs
  import Ext2Defrag

  /** Live records name inodes of the volume. */
  ghost predicate NamesInodes(v: Vol, blks: seq<seq<byte>>) {
    forall lb: nat, k: nat :: lb < |blks| && LiveAt(blks[lb], k) ==> IsInum(v, EntryAt(blks[lb], k).ino)
  }

  /** `e` became `e'`, in place or by an insertion followed by a removal. */
  ghost predicate Relabelled(es: seq<Entry>, es': seq<Entry>, e: Entry, e': Entry) {
    || (exists i: nat :: Swapped(es, es', i, [e], [e']))
    || (exists mid, i: nat, j: nat :: Swapped(es, mid, i, [], [e']) && Swapped(mid, es', j, [e], []))
  }

  /** As a map from names to inodes: the old key goes, the new one comes, nothing else moves. */
  lemma RelabelledMaps(es: seq<Entry>, es': seq<Entry>, e: Entry, e': Entry, m: map<seq<byte>, nat>)
    requires Relabelled(es, es', e, e') && Distinct(es) && Absent(es, e'.name) && Maps(es, m) && e.name != e'.name
    ensures Distinct(es') && Maps(es', (m - {e.name})[e'.name := e'.ino])
  {
    hide Swapped, Distinct, Absent, Maps;
    if i: nat :| Swapped(es, es', i, [e], [e']) {
      RenameMaps(es, es', i, e, e', m);
    } else {
      var mid, i: nat, j: nat :| Swapped(es, mid, i, [], [e']) && Swapped(mid, es', j, [e], []);
      InsertMaps(es, mid, i, e', m);
      RemoveMaps(mid, es', j, e, m[e'.name := e'.ino]);
      assert m[e'.name := e'.ino] - {e.name} == (m - {e.name})[e'.name := e'.ino];
    }
  }

  /** The record at a position is rewritten: what that does to the directory and to everybody else. */
  method RewriteRecord(vol: Volume, dir: nat, lb: nat, off: nat, phys: nat, b: seq<byte>, ghost blks: seq<seq<byte>>,
                       ghost now: seq<Entry>) returns (ghost i: nat)
    requires vol.Valid() && Owned(vol.g, vol.v) && DirIs(vol.g, vol.v, dir, blks) && lb < |blks|
    requires LiveAt(blks[lb], off)
    requires There(vol.g, vol.v, dir, lb) && phys == PlaceOf(vol.g, vol.v, dir, lb)
    requires Spliced(blks[lb], b, off, off + RecLen(blks[lb], off), Here(blks[lb], off), now)
    modifies vol
    ensures vol.Valid() && Owned(vol.g, vol.v) && Untouched(vol.g, old(vol.v), vol.v, dir)
    ensures vol.v.inums == old(vol.v).inums
    ensures vol.v.inodes == old(vol.v).inodes && vol.v.blocks == old(vol.v).blocks && SameMap(vol.g, old(vol.v), vol.v)
    ensures AllTiled(blks[lb := b]) && DirIs(vol.g, vol.v, dir, blks[lb := b])
    ensures Swapped(DirEntries(blks), DirEntries(blks[lb := b]), i, [EntryAt(blks[lb], off)], now)
    ensures vol.steps == old(vol.steps) + [vol.v]
  {
    hide Volume.Valid, Sound, Owned, Tiled, Untouched, Swapped, DirEntries, Spliced, SameMap;
    DirBlockAt(vol.g, vol.v, dir, blks, lb);
    i := BlockSwapped(blks, lb, b, off, off + RecLen(blks[lb], off), Here(blks[lb], off), now);
    DirRewritten(vol.g, vol.v, dir, blks, lb, b, vol.v.(data := vol.v.data[phys := b]));
    vol.WriteData(phys, b);
  }

  lemma UntouchedBoth(g: Geometry, v: Vol, v1: Vol, v2: Vol, a: nat, b: nat)
    requires Untouched(g, v, v1, a) && Untouched(g, v1, v2, b)
    ensures Apart(g, v, v2, a, b)
  {
    hide Untouched, Apart;
    UntouchedApart(g, v, v1, a, b);
    UntouchedApart(g, v1, v2, a, b);
    ApartTwice(g, v, v1, v2, a, b);
  }

  /** ext2_rename when the new name fits the record: the name is rewritten in place. */
  method RenameInPlace(vol: Volume, dir: nat, lb: nat, off: nat, name: seq<byte>, ghost blks: seq<seq<byte>>)
    returns (ghost blks': seq<seq<byte>>)
    requires vol.Valid() && Owned(vol.g, vol.v) && DirIs(vol.g, vol.v, dir, blks) && lb < |blks|
    requires LiveAt(blks[lb], off)
    requires 0 < |name| < 256 && Need(|name|) <= RecLen(blks[lb], off)
    modifies vol
    ensures vol.Valid() && Owned(vol.g, vol.v) && Untouched(vol.g, old(vol.v), vol.v, dir)
    ensures vol.v.inums == old(vol.v).inums
    ensures DirIs(vol.g, vol.v, dir, blks') && vol.v.inodes == old(vol.v).inodes
    ensures var e := EntryAt(blks[lb], off);
      Relabelled(DirEntries(blks), DirEntries(blks'), e, Entry(name, e.ino, e.kind))
    ensures vol.steps == old(vol.steps) + [vol.v]
  {
    hide Volume.Valid, Sound, Owned, Tiled, Untouched, Swapped, DirEntries, Spliced, Path, SameMap;
    DirBlockAt(vol.g, vol.v, dir, blks, lb);
    var phys := At(vol.g, vol.v.data, vol.v.inodes[dir], lb);
    var b := Renamed(vol.v.data[phys], off, name);
    RenamedOk(blks[lb], off, name, b);
    ghost var i := RewriteRecord(vol, dir, lb, off, phys, b, blks,
      [Entry(name, Ino(blks[lb], off), blks[lb][off + 7])]);
    blks' := blks[lb := b];
  }

  /** Clearing the record: the entry goes, the record stays as a free one. */
  method ClearRecord(vol: Volume, dir: nat, lb: nat, off: nat, phys: nat, ghost blks: seq<seq<byte>>)
    returns (ghost blks': seq<seq<byte>>, ghost i: nat)
    requires vol.Valid() && Owned(vol.g, vol.v) && DirIs(vol.g, vol.v, dir, blks) && lb < |blks|
    requires LiveAt(blks[lb], off)
    requires There(vol.g, vol.v, dir, lb) && phys == PlaceOf(vol.g, vol.v, dir, lb)
    modifies vol
    ensures vol.Valid() && Owned(vol.g, vol.v) && Untouched(vol.g, old(vol.v), vol.v, dir)
    ensures vol.v.inums == old(vol.v).inums
    ensures vol.v.inodes == old(vol.v).inodes && vol.v.blocks == old(vol.v).blocks && SameMap(vol.g, old(vol.v), vol.v)
    ensures DirIs(vol.g, vol.v, dir, blks')
    ensures Swapped(DirEntries(blks), DirEntries(blks'), i, [EntryAt(blks[lb], off)], [])
    ensures vol.steps == old(vol.steps) + [vol.v]
  {
    hide Volume.Valid, Sound, Owned, Tiled, Untouched, Swapped, DirEntries, Spliced, Path, SameMap;
    DirBlockAt(vol.g, vol.v, dir, blks, lb);
    var b := PutWord(vol.v.data[phys], off, 0);
    ClearedOk(blks[lb], off, b);
    i := RewriteRecord(vol, dir, lb, off, phys, b, blks, []);
    blks' := blks[lb := b];
  }

  /** ext2_rename, `sameNode` being whether both directories are given by one node. On success the entry has its new
      name in the new directory and the old name is gone, with inode and type unchanged; on any failure both directories
      are as before. Files keep their contents throughout. The record found lies at `off` of block `lb`. */
  method Rename(vol: Volume, oldDir: nat, oldName: seq<byte>, newDir: nat, newName: seq<byte>, sameNode: bool,
                ghost blksO: seq<seq<byte>>, ghost blksN: seq<seq<byte>>)
    returns (rc: int, ghost e: Entry, ghost blksO': seq<seq<byte>>, ghost blksN': seq<seq<byte>>, ghost lb: nat,
      ghost off: nat)
    requires vol.Valid() && Owned(vol.g, vol.v) && DirIs(vol.g, vol.v, oldDir, blksO)
    requires DirIs(vol.g, vol.v, newDir, blksN)
    requires NamesInodes(vol.v, blksO) && |oldName| < 256 && |vol.v.inums.used| < 0x1_0000_0000
    requires (sameNode ==> oldDir == newDir) && (oldDir == newDir ==> blksN == blksO)
    modifies vol
    ensures vol.Valid() && Owned(vol.g, vol.v) && vol.v.inums == old(vol.v).inums
    ensures DirIs(vol.g, vol.v, oldDir, blksO') && DirIs(vol.g, vol.v, newDir, blksN')
    ensures SameKind(old(vol.v), vol.v, oldDir) && SameKind(old(vol.v), vol.v, newDir)
    ensures Apart(vol.g, old(vol.v), vol.v, newDir, oldDir)
    ensures rc != 0 ==> blksO' == blksO && blksN' == blksN
    ensures rc == 0 ==> e.name == oldName
    ensures rc == 0 && oldDir != newDir ==>
      Gained(DirEntries(blksN), DirEntries(blksN'), Entry(newName, e.ino, e.kind))
        && Lost(DirEntries(blksO), DirEntries(blksO'), e)
    ensures rc == 0 && oldDir == newDir ==>
      blksN' == blksO' && Relabelled(DirEntries(blksO), DirEntries(blksO'), e, Entry(newName, e.ino, e.kind))
    ensures rc in {0, -1, -3, -5, -7} && (rc == -1 <==> |oldName| == 0 || !(0 < |newName| < 256))
    ensures rc == -3 ==> Absent(DirEntries(blksO), oldName)
    ensures rc in {0, -5, -7} ==>
      && lb < |blksO| && LiveAt(blksO[lb], off) && e == EntryAt(blksO[lb], off) && e.name == oldName
      && e.ino in old(vol.v).inodes && RecordAt(blksO[lb], off)
      && (rc == -5 <==> IsDir(old(vol.v).inodes[e.ino]))
    ensures rc in {0, -7} ==>
      var fits := sameNode && Need(|newName|) <= RecLen(blksO[lb], off);
      rc == -7 <==> !fits && NoPlace(vol.g, old(vol.v), newDir, newName, blksN)
    ensures RenameSteps(vol.g, old(vol.v), oldDir, newDir, blksO, blksN, Entry(newName, e.ino, e.kind), old(vol.steps),
              vol.steps, vol.v)
  {
    hide Volume.Valid, Sound, Owned, Tiled, DirIs, LiveAt, DirEntries, Absent, Apart, Relabelled, Gained, Lost, Need,
      NamesInodes, NoPlace, RenameStep;
    e, blksO', blksN', lb, off := Entry([], 0, 0), blksO, blksN, 0, 0;
    ApartSelf(vol.g, vol.v, newDir, oldDir);
    if |oldName| == 0 || |newName| == 0 || |newName| > 255 {
      rc := -1;
      return;
    }
    var found, block, at := FindName(vol, oldDir, oldName, blksO);
    if !found {
      rc := -3;
      return;
    }
    lb, off := block, at;
    DirBlockAt(vol.g, vol.v, oldDir, blksO, lb);
    LiveRecord(vol.g, vol.v, blksO, lb, off);
    e := EntryAt(blksO[lb], off);
    var phys := At(vol.g, vol.v.data, vol.v.inodes[oldDir], block);
    var b := vol.v.data[phys];
    if IsDir(vol.v.inodes[Ino(b, at)]) {
      rc := -5;
      return;
    }
    if sameNode && Need(|newName|) <= RecLen(b, at) {
      ghost var v0, steps0 := vol.v, vol.steps;
      blksO' := RenameInPlace(vol, oldDir, block, at, newName, blksO);
      blksN' := blksO';
      UntouchedApart(vol.g, v0, vol.v, newDir, oldDir);
      RenamedAtOnce(vol.g, v0, vol.v, oldDir, newDir, blksO, blksN, Entry(newName, e.ino, e.kind), steps0);
      rc := 0;
      return;
    }
    rc, blksO', blksN' := MoveEntry(vol, oldDir, block, at, phys, newDir, Entry(newName, Ino(b, at), b[at + 7]), blksO,
      blksN);
  }

  lemma ApartSelf(g: Geometry, v: Vol, a: nat, b: nat)
    ensures Apart(g, v, v, a, b)
  {
  }

  /** What a live record of the directory says. */
  lemma LiveRecord(g: Geometry, v: Vol, blks: seq<seq<byte>>, lb: nat, off: nat)
    requires Sound(g, v) && NamesInodes(v, blks) && lb < |blks| && LiveAt(blks[lb], off)
    ensures RecordAt(blks[lb], off) && Ino(blks[lb], off) != 0 && IsInum(v, Ino(blks[lb], off))
    ensures Ino(blks[lb], off) in v.inodes
    ensures |v.inodes[Ino(blks[lb], off)].blocks| == 15
    ensures EntryAt(blks[lb], off).ino == Ino(blks[lb], off) && EntryAt(blks[lb], off).kind == blks[lb][off + 7]
  {
    assert IsInum(v, EntryAt(blks[lb], off).ino);
  }

  /** A directory will not take an entry of this name. */
  ghost predicate NoPlace(g: Geometry, v: Vol, dir: nat, name: seq<byte>, blks: seq<seq<byte>>) {
    !(0 < |name| < 256) || (NoRoom(blks, Need(|name|)) && CannotGrow(g, v, dir, |blks|))
  }

  // ----- the writes on the way

  /** The new entry is there beside the old one. */
  ghost predicate BothNamed(g: Geometry, w: Vol, oldDir: nat, newDir: nat, blksO: seq<seq<byte>>,
                            blksN: seq<seq<byte>>, e': Entry)
    requires AllTiled(blksN)
  {
    && (oldDir != newDir ==> DirIs(g, w, oldDir, blksO))
    && exists m :: DirIs(g, w, newDir, m) && Gained(DirEntries(blksN), DirEntries(m), e')
  }

  /** At a write on the way to `v'`: every file but the directories is as it was, and the directories are as before, or
      both names are there, or the rename is done. */
  ghost predicate RenameStep(g: Geometry, v: Vol, w: Vol, oldDir: nat, newDir: nat, blksO: seq<seq<byte>>,
                             blksN: seq<seq<byte>>, e': Entry, v': Vol)
    requires AllTiled(blksN)
  {
    && Apart(g, v, w, newDir, oldDir)
    && (w == v' || (DirIs(g, w, oldDir, blksO) && DirIs(g, w, newDir, blksN))
        || BothNamed(g, w, oldDir, newDir, blksO, blksN, e'))
  }

  ghost predicate RenameSteps(g: Geometry, v: Vol, oldDir: nat, newDir: nat, blksO: seq<seq<byte>>,
                              blksN: seq<seq<byte>>, e': Entry, steps: seq<Vol>, steps': seq<Vol>, v': Vol)
    requires AllTiled(blksN)
  {
    && steps <= steps'
    && forall i :: |steps| <= i < |steps'| ==> RenameStep(g, v, steps'[i], oldDir, newDir, blksO, blksN, e', v')
  }

  lemma ApartWider(g: Geometry, v: Vol, w: Vol, a: nat, b: nat)
    requires Apart(g, v, w, a, a)
    ensures Apart(g, v, w, a, b) && Apart(g, v, w, b, a)
  {
    hide There, BlockOf;
  }

  lemma RenamedAtOnce(g: Geometry, v: Vol, v': Vol, oldDir: nat, newDir: nat, blksO: seq<seq<byte>>,
                      blksN: seq<seq<byte>>, e': Entry, steps: seq<Vol>)
    requires AllTiled(blksN) && Apart(g, v, v', newDir, oldDir)
    ensures RenameSteps(g, v, oldDir, newDir, blksO, blksN, e', steps, steps + [v'], v')
  {
    hide Apart, DirIs, BothNamed, AllTiled;
  }

  /** A write of the insertion but the last. */
  lemma StillRename(g: Geometry, v: Vol, w: Vol, oldDir: nat, newDir: nat, blksO: seq<seq<byte>>, blksN: seq<seq<byte>>,
                    e': Entry, v': Vol)
    requires DirIs(g, v, oldDir, blksO) && DirIs(g, v, newDir, blksN) && (oldDir == newDir ==> blksN == blksO)
    requires StillDir(g, v, w, newDir, blksN)
    ensures RenameStep(g, v, w, oldDir, newDir, blksO, blksN, e', v')
  {
    hide Apart, DirIs;
    ApartWider(g, v, w, newDir, oldDir);
    if oldDir != newDir {
      ApartDir(g, v, w, newDir, newDir, oldDir, blksO);
    }
  }

  lemma InsertThenClear(g: Geometry, v: Vol, v1: Vol, v2: Vol, oldDir: nat, newDir: nat, blksO: seq<seq<byte>>,
                        blksN: seq<seq<byte>>, e': Entry, steps: seq<Vol>, steps1: seq<Vol>)
    requires DirIs(g, v, oldDir, blksO) && DirIs(g, v, newDir, blksN) && (oldDir == newDir ==> blksN == blksO)
    requires StepsDir(g, v, newDir, blksN, steps, steps1, v1)
    requires Apart(g, v, v1, newDir, oldDir) && BothNamed(g, v1, oldDir, newDir, blksO, blksN, e')
    requires Apart(g, v, v2, newDir, oldDir)
    ensures RenameSteps(g, v, oldDir, newDir, blksO, blksN, e', steps, steps1 + [v2], v2)
  {
    hide Apart, DirIs, BothNamed, StillDir;
    var steps2 := steps1 + [v2];
    forall i | |steps| <= i < |steps2|
      ensures RenameStep(g, v, steps2[i], oldDir, newDir, blksO, blksN, e', v2)
    {
      if i < |steps1| && StillDir(g, v, steps2[i], newDir, blksN) {
        StillRename(g, v, steps2[i], oldDir, newDir, blksO, blksN, e', v2);
      }
    }
  }

  lemma InsertFailed(g: Geometry, v: Vol, v1: Vol, oldDir: nat, newDir: nat, blksO: seq<seq<byte>>,
                     blksN: seq<seq<byte>>, e': Entry, steps: seq<Vol>, steps1: seq<Vol>)
    requires DirIs(g, v, oldDir, blksO) && DirIs(g, v, newDir, blksN) && (oldDir == newDir ==> blksN == blksO)
    requires StepsDir(g, v, newDir, blksN, steps, steps1, v1) && Apart(g, v, v1, newDir, oldDir)
    ensures RenameSteps(g, v, oldDir, newDir, blksO, blksN, e', steps, steps1, v1)
  {
    hide Apart, DirIs, BothNamed, StillDir;
    forall i | |steps| <= i < |steps1|
      ensures RenameStep(g, v, steps1[i], oldDir, newDir, blksO, blksN, e', v1)
    {
      if StillDir(g, v, steps1[i], newDir, blksN) {
        StillRename(g, v, steps1[i], oldDir, newDir, blksO, blksN, e', v1);
      }
    }
  }

  /** Insert into the new directory, then clear the old record wherever it is: its position has not changed. */
  method MoveEntry(vol: Volume, oldDir: nat, lb: nat, off: nat, phys: nat, newDir: nat, e': Entry,
                   ghost blksO: seq<seq<byte>>, ghost blksN: seq<seq<byte>>)
    returns (rc: int, ghost blksO': seq<seq<byte>>, ghost blksN': seq<seq<byte>>)
    requires vol.Valid() && Owned(vol.g, vol.v) && DirIs(vol.g, vol.v, oldDir, blksO)
    requires DirIs(vol.g, vol.v, newDir, blksN)
    requires oldDir == newDir ==> blksN == blksO
    requires lb < |blksO| && LiveAt(blksO[lb], off) && There(vol.g, vol.v, oldDir, lb)
    requires phys == PlaceOf(vol.g, vol.v, oldDir, lb)
    requires 0 < e'.ino < 0x1_0000_0000
    modifies vol
    ensures vol.Valid() && Owned(vol.g, vol.v) && vol.v.inums == old(vol.v).inums && (rc == 0 || rc == -7)
    ensures DirIs(vol.g, vol.v, oldDir, blksO') && DirIs(vol.g, vol.v, newDir, blksN')
    ensures SameKind(old(vol.v), vol.v, oldDir) && SameKind(old(vol.v), vol.v, newDir)
    ensures Apart(vol.g, old(vol.v), vol.v, newDir, oldDir)
    ensures rc != 0 ==> blksO' == blksO && blksN' == blksN
    ensures rc == -7 <==> NoPlace(vol.g, old(vol.v), newDir, e'.name, blksN)
    ensures rc == 0 && oldDir != newDir ==>
      Gained(DirEntries(blksN), DirEntries(blksN'), e')
        && Lost(DirEntries(blksO), DirEntries(blksO'), EntryAt(blksO[lb], off))
    ensures rc == 0 && oldDir == newDir ==>
      blksN' == blksO' && Relabelled(DirEntries(blksO), DirEntries(blksO'), EntryAt(blksO[lb], off), e')
    ensures RenameSteps(vol.g, old(vol.v), oldDir, newDir, blksO, blksN, e', old(vol.steps), vol.steps, vol.v)
  {
    hide Volume.Valid, Sound, Owned, Tiled, DirIs, DirEntries, Apart, Swapped, Need, Untouched, Path, RecordAt, NoFree,
      NoRoom, EntryAt, CannotGrow, StepsDir, RenameSteps;
    ghost var v0, steps0 := vol.v, vol.steps;
    ghost var i, j: nat;
    rc, blksN', i := InsertDirent(vol, newDir, e', blksN);
    ghost var v1, steps1 := vol.v, vol.steps;
    UntouchedApart(vol.g, v0, v1, newDir, oldDir);
    StillPlaced(vol.g, v0, v1, newDir, oldDir, lb);
    KindKept(vol.g, v0, v1, newDir, oldDir);
    ghost var mid := if oldDir == newDir then blksN' else blksO;
    if oldDir != newDir {
      UntouchedApart(vol.g, v0, v1, newDir, newDir);
      ApartDir(vol.g, v0, v1, newDir, newDir, oldDir, blksO);
    }
    if rc != 0 {
      InsertFailed(vol.g, v0, v1, oldDir, newDir, blksO, blksN, e', steps0, steps1);
      return -7, blksO, blksN;
    }
    GainedAt(DirEntries(blksN), DirEntries(blksN'), i, e');
    assert BothNamed(vol.g, v1, oldDir, newDir, blksO, blksN, e');
    blksO', j := ClearRecord(vol, oldDir, lb, off, phys, mid);
    UntouchedBoth(vol.g, v0, v1, vol.v, newDir, oldDir);
    InsertThenClear(vol.g, v0, v1, vol.v, oldDir, newDir, blksO, blksN, e', steps0, steps1);
    if oldDir == newDir {
      blksN' := blksO';
    } else {
      UntouchedApart(vol.g, v1, vol.v, oldDir, oldDir);
      ApartDir(vol.g, v1, vol.v, oldDir, oldDir, newDir, blksN');
    }
  }

  lemma KindKept(g: Geometry, v: Vol, v': Vol, dir: nat, j: nat)
    requires Untouched(g, v, v', dir) && SameKind(v, v', dir) && j in v.inodes
    ensures SameKind(v, v', j)
  {
    assert j in v.inodes.Keys;
  }

  lemma StillPlaced(g: Geometry, v: Vol, v': Vol, dir: nat, j: nat, k: nat)
    requires Untouched(g, v, v', dir) && There(g, v, j, k)
    ensures There(g, v', j, k) && PlaceOf(g, v', j, k) == PlaceOf(g, v, j, k)
  {
  }

  ghost predicate Gained(es: seq<Entry>, es': seq<Entry>, e: Entry) { exists i: nat :: Swapped(es, es', i, [], [e]) }

  ghost predicate Lost(es: seq<Entry>, es': seq<Entry>, e: Entry) { exists i: nat :: Swapped(es, es', i, [e], []) }

  // ----- letting go of an inode

  /** The refs of `ino` that hold a block. */
  ghost predicate Listed(g: Geometry, v: Vol, ino: nat, olds: seq<nat>, from: seq<Ref>) {
    && |from| == |olds|
    && (forall i :: 0 <= i < |from| ==>
       from[i].ino == ino && IsRef(g, v, from[i]) && Where(g, v, from[i]) == olds[i] != 0)
    && (forall i, k :: 0 <= i < k < |from| ==> from[i] != from[k])
  }

  lemma ListMore(g: Geometry, v: Vol, ino: nat, olds: seq<nat>, from: seq<Ref>, r: Ref)
    requires Listed(g, v, ino, olds, from) && IsRef(g, v, r) && r.ino == ino && Where(g, v, r) != 0 && r !in from
    ensures Listed(g, v, ino, olds + [Where(g, v, r)], from + [r])
  {
    hide IsRef, Where;
  }

  lemma ListedFacts(g: Geometry, v: Vol, ino: nat, olds: seq<nat>, from: seq<Ref>)
    requires Listed(g, v, ino, olds, from) && Owned(g, v)
    ensures forall i :: 0 <= i < |olds| ==> IsUsed(g, v, olds[i]) && olds[i] != 0
    ensures forall i, k :: 0 <= i < k < |olds| ==> olds[i] != olds[k]
    ensures forall r :: IsRef(g, v, r) && r.ino != ino ==> Where(g, v, r) !in olds
  {
    hide IsRef, Where;
    forall i, k | 0 <= i < k < |olds|
      ensures olds[i] != olds[k]
    {
      assert from[i] != from[k];
    }
    forall r | IsRef(g, v, r) && r.ino != ino
      ensures Where(g, v, r) !in olds
    {
      forall i | 0 <= i < |olds|
        ensures olds[i] != Where(g, v, r)
      {
        assert from[i] != r;
      }
    }
  }

  /** Every nonzero ref of `ino` is in the list. */
  ghost predicate AllListed(g: Geometry, v: Vol, ino: nat, olds: seq<nat>) {
    forall r :: IsRef(g, v, r) && r.ino == ino && Where(g, v, r) != 0 ==> Where(g, v, r) in olds
  }

  /** The blocks ext2_unlink frees, in its order: direct ones, those of the indirect block, the indirect block
      itself. */
  method BlockList(vol: Volume, ino: nat) returns (olds: seq<nat>, ghost from: seq<Ref>)
    requires vol.Valid() && IsInum(vol.v, ino)
    ensures Listed(vol.g, vol.v, ino, olds, from) && AllListed(vol.g, vol.v, ino, olds)
  {
    InodeThere(vol.g, vol.v, ino);
    hide Volume.Valid, Sound;
    var nd := vol.v.inodes[ino];
    olds, from := [], [];
    var lb := 0;
    while lb < vol.g.MaxBlocks()
      invariant 0 <= lb <= vol.g.MaxBlocks() && Listed(vol.g, vol.v, ino, olds, from)
      invariant forall r :: r in from ==> r.Leaf? && r.lb < lb
      invariant forall k: nat :: k < lb && At(vol.g, vol.v.data, nd, k) != 0 ==> At(vol.g, vol.v.data, nd, k) in olds
    {
      var b := At(vol.g, vol.v.data, nd, lb);
      if b != 0 {
        ListMore(vol.g, vol.v, ino, olds, from, Leaf(ino, lb));
        olds, from := olds + [b], from + [Leaf(ino, lb)];
      }
      lb := lb + 1;
    }
    if nd.blocks[12] != 0 {
      ListMore(vol.g, vol.v, ino, olds, from, Indirect(ino));
      olds, from := olds + [nd.blocks[12]], from + [Indirect(ino)];
    }
  }

  predicate NoBlocks(nd: Inode) { |nd.blocks| == 15 && forall i :: 0 <= i < 15 ==> nd.blocks[i] == 0 }

  /** `ino` refers to nothing any more; all else refers to what it did. */
  ghost predicate Emptied(g: Geometry, v: Vol, v': Vol, ino: nat) {
    && (forall r :: IsRef(g, v', r) <==> IsRef(g, v, r))
    && (forall r :: IsRef(g, v, r) ==> Where(g, v', r) == if r.ino == ino then 0 else Where(g, v, r))
  }

  lemma EmptiedRefs(g: Geometry, v: Vol, ino: nat, nd: Inode, v': Vol)
    requires ino in v.inodes && |v.inodes[ino].blocks| == 15 && NoBlocks(nd)
    requires v'.data == v.data && |v'.inums.used| == |v.inums.used| && v'.inodes == v.inodes[ino := nd]
    ensures Emptied(g, v, v', ino)
  {
  }

  /** An inode emptied and its blocks, if any, given back: nothing is referred to twice or unreserved. */
  lemma EmptiedOwned(g: Geometry, v: Vol, v': Vol, ino: nat, nd: Inode, olds: seq<nat>)
    requires Owned(g, v) && Emptied(g, v, v', ino) && v'.inodes == v.inodes[ino := nd] && NoBlocks(nd)
    requires |v'.inums.used| == |v.inums.used| && |v'.blocks.used| == |v.blocks.used|
    requires forall b: nat :: IsFree(g, v', b) <==> IsFree(g, v, b) || b in olds
    requires forall r :: IsRef(g, v, r) && r.ino != ino ==> Where(g, v, r) !in olds
    ensures Owned(g, v')
  {
    hide IsRef, Where;
    forall r | IsRef(g, v', r) && Where(g, v', r) != 0
      ensures IsUsed(g, v', Where(g, v', r))
    {
      assert IsUsed(g, v, Where(g, v, r));
      assert !IsFree(g, v', Where(g, v, r));
    }
    forall i | IsInum(v', i) && i in v'.inodes && |v'.inodes[i].blocks| == 15
      ensures NoDouble(v'.inodes[i])
    {
      assert i != ino ==> v'.inodes[i] == v.inodes[i] && IsInum(v, i);
    }
  }

  /** Others keep their blocks when `ino` is emptied. */
  lemma EmptiedApart(g: Geometry, v: Vol, v': Vol, a: nat, ino: nat, nd: Inode)
    requires Emptied(g, v, v', ino) && v'.data == v.data && |v'.inums.used| == |v.inums.used| && ino in v.inodes
    requires v'.inodes == v.inodes[ino := nd]
    ensures Apart(g, v, v', a, ino) && Apart(g, v, v', ino, ino)
  {
    assert v'.inodes.Keys == v.inodes.Keys;
  }

  // ----- ext2_unlink

  ghost predicate NamesUsed(v: Vol, blks: seq<seq<byte>>) {
    forall lb: nat, k: nat :: lb < |blks| && LiveAt(blks[lb], k) ==> InumIs(v, EntryAt(blks[lb], k).ino, true)
  }

  /** The file is gone: its record blank, its number free, and exactly its blocks given back. */
  ghost predicate Gone(g: Geometry, v: Vol, v': Vol, ino: nat) {
    && ino in v'.inodes && NoBlocks(v'.inodes[ino]) && v'.inodes[ino].links == 0 && InumIs(v', ino, false)
    && (forall r :: IsRef(g, v, r) && r.ino == ino && Where(g, v, r) != 0 ==> IsFree(g, v', Where(g, v, r)))
    && (forall b: nat :: IsFree(g, v', b) && !IsFree(g, v, b) ==>
       exists r :: IsRef(g, v, r) && r.ino == ino && Where(g, v, r) == b)
  }

  const BLANK: Inode := Inode(0, 0, 0, [0, 0, 0, 0, 0, 0, 0, 0, 0, 0, 0, 0, 0, 0, 0])

  /** The records stay as they are until the write that leads to `v'`. */
  ghost predicate KeptBut(steps: seq<Vol>, steps': seq<Vol>, v: Vol, v': Vol) {
    steps <= steps' && forall i :: |steps| <= i < |steps'| ==> SameRecords(v, steps'[i]) || steps'[i] == v'
  }

  lemma KeptThen(steps: seq<Vol>, steps1: seq<Vol>, v: Vol, v': Vol)
    requires StepsKeep(steps, steps1, v)
    ensures KeptBut(steps, steps1 + [v'], v, v')
  {
    hide SameRecords;
  }

  /** The last name of a file is gone: blocks, inode number and inode record are given back. */
  method Discard(vol: Volume, ino: nat)
    requires vol.Valid() && Owned(vol.g, vol.v) && InumIs(vol.v, ino, true)
    modifies vol
    ensures vol.Valid() && Owned(vol.g, vol.v) && Gone(vol.g, old(vol.v), vol.v, ino)
    ensures vol.v.inodes == old(vol.v).inodes[ino := BLANK] && vol.v.data == old(vol.v).data
    ensures |vol.v.inums.used| == |old(vol.v).inums.used| && Emptied(vol.g, old(vol.v), vol.v, ino)
    ensures forall j :: j != ino && InumIs(old(vol.v), j, true) ==> InumIs(vol.v, j, true)
    ensures KeptBut(old(vol.steps), vol.steps, old(vol.v), vol.v)
  {
    hide Volume.Valid, Sound, Owned, Listed, AllListed, Emptied, Gone, Ext2Defrag.Freed, StepsKeep;
    ghost var v0, steps0 := vol.v, vol.steps;
    InodeThere(vol.g, v0, ino);
    var olds;
    ghost var from;
    olds, from := BlockList(vol, ino);
    ListedFacts(vol.g, v0, ino, olds, from);
    Ext2Defrag.FreeOld(vol, olds);
    ghost var v1, steps1 := vol.v, vol.steps;
    FreedParts(vol.g, v0, v1, olds);
    vol.FreeInode(ino);
    ghost var v2 := vol.v;
    KeepMore(steps0, steps1, vol.steps, v0, v1);
    InumKept(vol.g, v1, ino, false);
    KeptThen(steps0, vol.steps, v0, vol.v.(inodes := vol.v.inodes[ino := BLANK]));
    vol.WriteInode(ino, BLANK);
    EmptiedRefs(vol.g, v0, ino, BLANK, vol.v);
    EmptiedOwned(vol.g, v0, vol.v, ino, BLANK, olds);
    NowGone(vol.g, v0, vol.v, ino, olds, from);
  }

  lemma FreedParts(g: Geometry, s: Vol, s': Vol, olds: seq<nat>)
    requires Ext2Defrag.Freed(g, s, s', olds, |olds|)
    ensures s'.inodes == s.inodes && s'.data == s.data && s'.inums == s.inums && |s'.blocks.used| == |s.blocks.used|
    ensures forall b: nat :: IsFree(g, s', b) <==> IsFree(g, s, b) || b in olds
  {
    assert olds[..|olds|] == olds;
  }

  lemma InumKept(g: Geometry, v: Vol, ino: nat, b: bool)
    requires InumCan(g, v, ino, b)
    ensures var v' := InumSet(g, v, ino, b);
      && v'.inodes == v.inodes && v'.data == v.data && v'.blocks == v.blocks && |v'.inums.used| == |v.inums.used|
      && InumIs(v', ino, b) && forall j, c :: j != ino && InumIs(v, j, c) ==> InumIs(v', j, c)
  {
  }

  lemma NowGone(g: Geometry, v: Vol, v': Vol, ino: nat, olds: seq<nat>, from: seq<Ref>)
    requires Listed(g, v, ino, olds, from) && AllListed(g, v, ino, olds) && InumIs(v', ino, false)
    requires ino in v'.inodes && v'.inodes[ino] == BLANK
    requires forall b: nat :: IsFree(g, v', b) <==> IsFree(g, v, b) || b in olds
    ensures Gone(g, v, v', ino)
  {
    hide IsRef, Where, IsFree;
    forall b: nat | IsFree(g, v', b) && !IsFree(g, v, b)
      ensures exists r :: IsRef(g, v, r) && r.ino == ino && Where(g, v, r) == b
    {
      var i :| 0 <= i < |olds| && olds[i] == b;
      assert IsRef(g, v, from[i]) && from[i].ino == ino && Where(g, v, from[i]) == b;
    }
  }

  /** Mode, size and link count do not bear on the block map. */
  lemma LinksAlone(g: Geometry, v: Vol, ino: nat, nd: Inode)
    requires Owned(g, v) && ino in v.inodes && IsInum(v, ino) && |nd.blocks| == 15
    requires nd == v.inodes[ino].(links := nd.links)
    ensures var v' := v.(inodes := v.inodes[ino := nd]);
      && Owned(g, v') && v'.inodes.Keys == v.inodes.Keys
      && forall j: nat, k: nat :: There(g, v, j, k) ==>
         There(g, v', j, k) && BlockOf(g, v', j, k) == BlockOf(g, v, j, k)
  {
    var v' := v.(inodes := v.inodes[ino := nd]);
    PendingSame(v, ino);
    assert SameMap(g, v, v');
    hide IsRef, Where;
    assert forall i :: i in v'.inodes ==> i in v.inodes && v'.inodes[i].blocks == v.inodes[i].blocks;
    assert v'.inodes.Keys == v.inodes.Keys;
  }

  /** Some live record of the directory says `e`. */
  ghost predicate Holds(blks: seq<seq<byte>>, e: Entry) {
    exists lb: nat, off: nat :: lb < |blks| && LiveAt(blks[lb], off) && EntryAt(blks[lb], off) == e
  }

  /** ext2_unlink: the entry goes; a file with other names loses a link, and one without is given back whole, block for
      block. Every other file keeps its contents, and a refusal changes nothing. */
  method Unlink(vol: Volume, dir: nat, name: seq<byte>, ghost blks: seq<seq<byte>>)
    returns (rc: int, ghost e: Entry, ghost blks': seq<seq<byte>>)
    requires vol.Valid() && Owned(vol.g, vol.v) && DirIs(vol.g, vol.v, dir, blks) && NamesUsed(vol.v, blks)
    requires |name| < 256
    requires IsDir(vol.v.inodes[dir])
    modifies vol
    ensures vol.Valid() && Owned(vol.g, vol.v) && DirIs(vol.g, vol.v, dir, blks')
    ensures rc != 0 ==> vol.v == old(vol.v) && blks' == blks
    ensures rc == 0 ==>
      e.name == name && Lost(DirEntries(blks), DirEntries(blks'), e) && e.ino != dir && e.ino in old(vol.v).inodes
    ensures rc == 0 && old(vol.v).inodes[e.ino].links > 1 ==>
      && Apart(vol.g, old(vol.v), vol.v, dir, e.ino)
      && (Whole(vol.g, old(vol.v), e.ino) ==>
         Whole(vol.g, vol.v, e.ino) && Content(vol.g, vol.v, e.ino) == Content(vol.g, old(vol.v), e.ino))
      && e.ino in vol.v.inodes && vol.v.inodes[e.ino] ==
         old(vol.v).inodes[e.ino].(links := old(vol.v).inodes[e.ino].links - 1)
    ensures rc == 0 ==> !IsDir(old(vol.v).inodes[e.ino])
    ensures rc == 0 ==>
      && SameKind(old(vol.v), vol.v, dir)
      && forall j :: j != e.ino && InumIs(old(vol.v), j, true) ==> InumIs(vol.v, j, true)
    ensures rc == 0 && old(vol.v).inodes[e.ino].links > 1 ==> vol.v.inums == old(vol.v).inums
    ensures |vol.v.inums.used| == |old(vol.v).inums.used|
    ensures rc == 0 && old(vol.v).inodes[e.ino].links <= 1 ==>
      Gone(vol.g, old(vol.v), vol.v, e.ino) && Apart(vol.g, old(vol.v), vol.v, dir, e.ino)
    ensures rc in {0, -1, -3, -5} && (rc == -1 <==> |name| == 0)
    ensures rc == -3 ==> Absent(DirEntries(blks), name)
    ensures rc == -5 ==>
      e.ino in old(vol.v).inodes && IsDir(old(vol.v).inodes[e.ino]) && e.name == name && Holds(blks, e)
    ensures rc != 0 ==> vol.steps == old(vol.steps)
    ensures rc == 0 ==> UnlinkSteps(vol.g, old(vol.v), dir, e.ino, blks', old(vol.steps), vol.steps, vol.v)
  {
    hide Volume.Valid, Sound, Owned, Tiled, DirIs, LiveAt, DirEntries, Absent, Apart, Lost, NamesUsed, Gone, Untouched,
      Emptied, Swapped, SameMap, UnlinkSteps;
    e, blks' := Entry([], 0, 0), blks;
    if |name| == 0 {
      rc := -1;
      return;
    }
    var found, lb, off := FindName(vol, dir, name, blks);
    if !found {
      rc := -3;
      return;
    }
    ghost var v0, steps0 := vol.v, vol.steps;
    DirBlockAt(vol.g, v0, dir, blks, lb);
    UsedInodes(v0, blks);
    LiveRecord(vol.g, v0, blks, lb, off);
    UsedRecord(v0, blks, lb, off);
    e := EntryAt(blks[lb], off);
    var phys := At(vol.g, vol.v.data, vol.v.inodes[dir], lb);
    var ino := Ino(vol.v.data[phys], off);
    var nd := vol.v.inodes[ino];
    if IsDir(nd) {
      rc := -5;
      return;
    }
    ghost var i;
    blks', i := ClearRecord(vol, dir, lb, off, phys, blks);
    LostAt(DirEntries(blks), DirEntries(blks'), i, e);
    ghost var v1, steps1 := vol.v, vol.steps;
    UntouchedApart(vol.g, v0, v1, dir, dir);
    if nd.links > 1 {
      LinksAlone(vol.g, v1, ino, nd.(links := nd.links - 1));
      vol.WriteInode(ino, nd.(links := nd.links - 1));
      DroppedLink(vol.g, v0, v1, vol.v, dir, ino, blks');
    } else {
      Discard(vol, ino);
      Dropped(vol.g, v0, v1, vol.v, dir, ino, blks');
    }
    ClearedFirst(vol.g, v0, v1, dir, ino, blks', steps0, vol.steps, vol.v);
    rc := 0;
  }

  /** At a write of an unlink on the way to `v'`: the name is gone already, everybody but the file is as before, and the
      file is too until the last write. */
  ghost predicate UnlinkStep(g: Geometry, v: Vol, w: Vol, dir: nat, ino: nat, blks': seq<seq<byte>>, v': Vol) {
    && DirIs(g, w, dir, blks') && Apart(g, v, w, dir, ino) && (w == v' || Apart(g, v, w, dir, dir))
  }

  ghost predicate UnlinkSteps(g: Geometry, v: Vol, dir: nat, ino: nat, blks': seq<seq<byte>>, steps: seq<Vol>,
                              steps': seq<Vol>, v': Vol) {
    && steps <= steps'
    && forall i :: |steps| <= i < |steps'| ==> UnlinkStep(g, v, steps'[i], dir, ino, blks', v')
  }

  lemma ClearedFirst(g: Geometry, v: Vol, v1: Vol, dir: nat, ino: nat, blks': seq<seq<byte>>, steps: seq<Vol>,
                     steps': seq<Vol>, v': Vol)
    requires DirIs(g, v1, dir, blks') && Apart(g, v, v1, dir, dir)
    requires DirIs(g, v', dir, blks') && Apart(g, v, v', dir, ino) && KeptBut(steps + [v1], steps', v1, v')
    ensures UnlinkSteps(g, v, dir, ino, blks', steps, steps', v')
  {
    hide Apart, DirIs, SameRecords;
    assert steps <= steps + [v1] <= steps';
    forall i | |steps| <= i < |steps'|
      ensures UnlinkStep(g, v, steps'[i], dir, ino, blks', v')
    {
      if i == |steps| {
        assert steps'[i] == (steps + [v1])[i] == v1;
        ApartWider(g, v, v1, dir, ino);
      } else if steps'[i] != v' {
        RecordsStill(g, v, v1, steps'[i], dir, blks');
        ApartWider(g, v, steps'[i], dir, ino);
      }
    }
  }

  lemma RecordsStill(g: Geometry, v: Vol, v1: Vol, w: Vol, dir: nat, blks: seq<seq<byte>>)
    requires DirIs(g, v1, dir, blks) && Apart(g, v, v1, dir, dir) && SameRecords(v1, w)
    ensures DirIs(g, w, dir, blks) && Apart(g, v, w, dir, dir)
  {
    forall j: nat, k: nat | There(g, v1, j, k)
      ensures There(g, w, j, k) && BlockOf(g, w, j, k) == BlockOf(g, v1, j, k)
    {
      assert IsRef(g, w, Leaf(j, k));
    }
    hide There, BlockOf, Tiled;
    assert Apart(g, v1, w, dir, dir);
    ApartTwice(g, v, v1, w, dir, dir);
  }

  lemma UsedInodes(v: Vol, blks: seq<seq<byte>>)
    requires NamesUsed(v, blks)
    ensures NamesInodes(v, blks)
  {
  }

  lemma UsedRecord(v: Vol, blks: seq<seq<byte>>, lb: nat, off: nat)
    requires NamesUsed(v, blks) && lb < |blks| && LiveAt(blks[lb], off)
    ensures InumIs(v, EntryAt(blks[lb], off).ino, true)
  {
  }

  lemma LostAt(es: seq<Entry>, es': seq<Entry>, i: nat, e: Entry)
    requires Swapped(es, es', i, [e], [])
    ensures Lost(es, es', e)
  {
  }

  lemma DroppedLink(g: Geometry, v0: Vol, v1: Vol, v2: Vol, dir: nat, ino: nat, blks: seq<seq<byte>>)
    requires Untouched(g, v0, v1, dir) && v1.inodes == v0.inodes && DirIs(g, v1, dir, blks) && dir != ino
    requires ino in v1.inodes
    requires v2.inums == v1.inums && ino in v2.inodes && v2.inodes == v1.inodes[ino := v2.inodes[ino]]
    requires v2.inodes.Keys == v1.inodes.Keys
    requires v2.inodes[ino] == v1.inodes[ino].(links := v2.inodes[ino].links)
    requires forall j: nat, k: nat :: There(g, v1, j, k) ==>
      There(g, v2, j, k) && BlockOf(g, v2, j, k) == BlockOf(g, v1, j, k)
    ensures DirIs(g, v2, dir, blks) && Apart(g, v0, v2, dir, ino)
    ensures Whole(g, v0, ino) ==> Whole(g, v2, ino) && Content(g, v2, ino) == Content(g, v0, ino)
  {
    assert Apart(g, v1, v2, dir, ino) && Apart(g, v1, v2, ino, ino) by { hide There, BlockOf; }
    UntouchedApart(g, v0, v1, dir, ino);
    UntouchedApart(g, v0, v1, dir, dir);
    ApartDir(g, v1, v2, ino, ino, dir, blks);
    hide Apart, DirIs, Untouched;
    ApartTwice(g, v0, v1, v2, dir, ino);
    if Whole(g, v0, ino) {
      ApartFiles(g, v0, v1, dir, dir, ino);
      hide There, BlockOf, Content;
      SameContent(g, v1, v2, ino);
    }
  }

  lemma Dropped(g: Geometry, v0: Vol, v1: Vol, v2: Vol, dir: nat, ino: nat, blks: seq<seq<byte>>)
    requires Untouched(g, v0, v1, dir) && v1.inodes == v0.inodes && v1.blocks == v0.blocks && v1.inums == v0.inums
    requires DirIs(g, v1, dir, blks) && dir != ino && ino in v1.inodes && Gone(g, v1, v2, ino) && SameMap(g, v0, v1)
    requires v2.inodes == v1.inodes[ino := BLANK] && v2.data == v1.data && |v2.inums.used| == |v1.inums.used|
    requires Emptied(g, v1, v2, ino)
    ensures DirIs(g, v2, dir, blks) && Apart(g, v0, v2, dir, ino) && Gone(g, v0, v2, ino)
  {
    hide Untouched, Emptied, DirIs, Apart, IsRef, Where;
    EmptiedApart(g, v1, v2, dir, ino, BLANK);
    ApartDir(g, v1, v2, ino, ino, dir, blks);
    UntouchedApart(g, v0, v1, dir, ino);
    ApartTwice(g, v0, v1, v2, dir, ino);
  }

  // ----- ext2_create

  const REGULAR: byte := 1
  const NEW_FILE: Inode := Inode(0x81A4, 0, 1, [0, 0, 0, 0, 0, 0, 0, 0, 0, 0, 0, 0, 0, 0, 0])

  /** Only which inode numbers are taken has changed. */
  lemma PoolAlone(g: Geometry, v: Vol, v': Vol, dir: nat, blks: seq<seq<byte>>)
    requires v' == v.(inums := v'.inums) && |v'.inums.used| == |v.inums.used| && Owned(g, v)
    ensures Owned(g, v') && SameMap(g, v, v') && Untouched(g, v, v', dir)
    ensures DirIs(g, v, dir, blks) ==> DirIs(g, v', dir, blks)
  {
    assert SameMap(g, v, v');
    PoolOwned(g, v, v');
    forall j: nat, k: nat | There(g, v, j, k)
      ensures There(g, v', j, k) && BlockOf(g, v', j, k) == BlockOf(g, v, j, k)
      ensures PlaceOf(g, v', j, k) == PlaceOf(g, v, j, k)
    {
    }
    hide There, BlockOf, PlaceOf, Owned, Tiled;
  }

  lemma PoolOwned(g: Geometry, v: Vol, v': Vol)
    requires Owned(g, v) && SameMap(g, v, v') && v'.blocks == v.blocks && |v'.inums.used| == |v.inums.used|
    requires v'.inodes == v.inodes
    ensures Owned(g, v')
  {
    hide IsRef, Where;
    assert forall i :: IsInum(v', i) <==> IsInum(v, i);
  }

  /** Taking an inode number and giving it back restores the pool, bits and counters. */
  lemma TakeAndGive(g: Geometry, v: Vol, w: Vol, ino: nat)
    requires InumCan(g, v, ino, true) && InumIs(v, ino, false) && w.inums == InumSet(g, v, ino, true).inums
    ensures InumCan(g, w, ino, false) && InumSet(g, w, ino, false).inums == v.inums
  {
    var i, p := ino - 1, v.inums;
    assert p.used[i := true][i := false] == p.used;
    var free: seq<nat> := p.free[i / g.iper := p.free[i / g.iper] - 1];
    assert free[i / g.iper := free[i / g.iper] + 1] == p.free;
  }

  /** No inode number outside the reserved ones is free. */
  ghost predicate NoInum(g: Geometry, v: Vol) { LowInums(g, v, |v.inums.used| + 1) }

  /** Every inode number below `ino` is reserved or in use. */
  ghost predicate LowInums(g: Geometry, v: Vol, ino: nat) {
    forall j :: 0 <= j < |v.inums.used| && g.firstIno - 1 <= j < ino - 1 ==> v.inums.used[j]
  }

  /** Inode numbers have no bearing on whether a directory can take an entry. */
  lemma PlaceSame(g: Geometry, v: Vol, v': Vol, dir: nat, name: seq<byte>, blks: seq<seq<byte>>)
    requires v' == v.(inums := v'.inums)
    ensures NoPlace(g, v', dir, name, blks) == NoPlace(g, v, dir, name, blks)
  {
    hide NoRoom;
  }

  /** ext2_create: a new empty file under the name, on the lowest free inode that is not reserved; or nothing, with
      every inode number as free as it was, exactly when there is no such inode or no place for the entry. */
  method Create(vol: Volume, dir: nat, name: seq<byte>, ghost blks: seq<seq<byte>>)
    returns (ino: nat, ghost blks': seq<seq<byte>>)
    requires vol.Valid() && Owned(vol.g, vol.v) && DirIs(vol.g, vol.v, dir, blks) && InumIs(vol.v, dir, true)
    requires |vol.v.inums.used| < 0x1_0000_0000
    modifies vol
    ensures vol.Valid() && Owned(vol.g, vol.v) && DirIs(vol.g, vol.v, dir, blks')
    ensures ino == 0 <==> NoInum(vol.g, old(vol.v)) || NoPlace(vol.g, old(vol.v), dir, name, blks)
    ensures ino == 0 ==> blks' == blks && vol.v.inums == old(vol.v).inums && Apart(vol.g, old(vol.v), vol.v, dir, dir)
    ensures ino != 0 ==> LowInums(vol.g, old(vol.v), ino)
    ensures ino != 0 ==> Gained(DirEntries(blks), DirEntries(blks'), Entry(name, ino, REGULAR))
    ensures ino != 0 ==> InumIs(old(vol.v), ino, false) && InumIs(vol.v, ino, true) && ino >= vol.g.firstIno
    ensures ino != 0 ==> Whole(vol.g, vol.v, ino) && Content(vol.g, vol.v, ino) == []
    ensures ino != 0 ==>
      Apart(vol.g, old(vol.v), vol.v, dir, ino) && ino in vol.v.inodes && vol.v.inodes[ino] == NEW_FILE
    ensures SameKind(old(vol.v), vol.v, dir) && forall j :: InumIs(old(vol.v), j, true) ==> InumIs(vol.v, j, true)
    ensures |vol.v.inums.used| == |old(vol.v).inums.used|
  {
    hide Volume.Valid, Sound, Owned, Tiled, DirIs, DirEntries, Apart, Gained, Untouched, Emptied, Swapped, SameMap,
      RecordsStay, NoFree, NoRoom, Whole, Content, InumCan, InumSet, InumIs, CannotGrow, LowInums;
    ghost var v0 := vol.v;
    ApartSelf(vol.g, v0, dir, dir);
    if |name| == 0 || |name| > 255 { return 0, blks; }
    ino := vol.AllocInode();
    LowestIs(vol.g, v0, ino);
    if ino == 0 { return 0, blks; }
    ghost var v1 := vol.v;
    InumOnly(vol.g, v0, ino);
    PlaceSame(vol.g, v0, v1, dir, name, blks);
    InumKept(vol.g, v0, ino, true);
    DistinctInums(v0, dir, ino);
    PoolAlone(vol.g, v0, v1, dir, blks);
    var rc;
    ghost var i;
    rc, blks', i := InsertDirent(vol, dir, Entry(name, ino, REGULAR), blks);
    ghost var v2 := vol.v;
    InumAgain(v1, v2, ino);
    UntouchedTwice(vol.g, v0, v1, v2, dir);
    UntouchedApart(vol.g, v0, v2, dir, dir);
    if rc != 0 {
      TakeAndGive(vol.g, v0, v2, ino);
      vol.FreeInode(ino);
      InumKept(vol.g, v2, ino, false);
      PoolAlone(vol.g, v2, vol.v, dir, blks);
      UntouchedTwice(vol.g, v0, v2, vol.v, dir);
      UntouchedApart(vol.g, v0, vol.v, dir, dir);
      InumsSame(v0, vol.v);
      return 0, blks;
    }
    GainedAt(DirEntries(blks), DirEntries(blks'), i, Entry(name, ino, REGULAR));
    vol.WriteInode(ino, NEW_FILE);
    InumsSame(v1, vol.v);
    InumsGrow(v0, v1, ino);
    Created(vol.g, v0, v2, vol.v, dir, ino, blks');
  }

  /** What the inode allocator says, in these terms. */
  lemma LowestIs(g: Geometry, v: Vol, ino: nat)
    requires 0 < g.firstIno && (ino == 0 ==> forall j :: g.firstIno - 1 <= j < |v.inums.used| ==> v.inums.used[j])
    requires ino != 0 ==> g.firstIno <= ino && InumIs(v, ino, false)
    requires ino != 0 ==> forall j :: g.firstIno - 1 <= j < ino - 1 ==> v.inums.used[j]
    ensures ino == 0 <==> NoInum(g, v)
    ensures ino != 0 ==> LowInums(g, v, ino)
  {
    if ino != 0 {
      assert !v.inums.used[ino - 1];
    }
  }

  lemma InumOnly(g: Geometry, v: Vol, ino: nat)
    requires InumCan(g, v, ino, true)
    ensures InumSet(g, v, ino, true) == v.(inums := InumSet(g, v, ino, true).inums)
  {
  }

  lemma GainedAt(es: seq<Entry>, es': seq<Entry>, i: nat, e: Entry)
    requires Swapped(es, es', i, [], [e])
    ensures Gained(es, es', e)
  {
  }

  lemma DistinctInums(v: Vol, a: nat, b: nat)
    requires InumIs(v, a, true) && InumIs(v, b, false)
    ensures a != b && IsInum(v, a) && IsInum(v, b)
  {
  }

  lemma InumsSame(v: Vol, v': Vol)
    requires v'.inums == v.inums
    ensures forall j, b :: InumIs(v', j, b) <==> InumIs(v, j, b)
  {
  }

  lemma InumsGrow(v: Vol, v': Vol, ino: nat)
    requires InumIs(v, ino, false) && forall j, c :: j != ino && InumIs(v, j, c) ==> InumIs(v', j, c)
    ensures forall j :: InumIs(v, j, true) ==> InumIs(v', j, true)
  {
  }

  lemma InumAgain(v: Vol, v': Vol, ino: nat)
    requires v'.inums == v.inums && InumIs(v, ino, true)
    ensures InumIs(v', ino, true) && IsInum(v', ino)
  {
  }

  /** The new inode refers to nothing, so writing its record disturbs nobody. */
  lemma Created(g: Geometry, v0: Vol, v2: Vol, v3: Vol, dir: nat, ino: nat, blks: seq<seq<byte>>)
    requires Sound(g, v2) && Owned(g, v2) && Untouched(g, v0, v2, dir) && DirIs(g, v2, dir, blks) && dir != ino
    requires InumIs(v2, ino, true)
    requires v3 == v2.(inodes := v2.inodes[ino := NEW_FILE]) && g.bs > 0
    ensures Owned(g, v3) && DirIs(g, v3, dir, blks) && Apart(g, v0, v3, dir, ino) && InumIs(v3, ino, true)
    ensures Whole(g, v3, ino) && Content(g, v3, ino) == []
  {
    InodeThere(g, v2, ino);
    assert Whole(g, v3, ino);
    hide Whole, Sound, Owned, Untouched, DirIs;
    EmptiedRefs(g, v2, ino, NEW_FILE, v3);
    EmptiedOwned(g, v2, v3, ino, NEW_FILE, []);
    hide Emptied, Apart;
    EmptiedApart(g, v2, v3, dir, ino, NEW_FILE);
    ApartDir(g, v2, v3, ino, ino, dir, blks);
    UntouchedApart(g, v0, v2, dir, ino);
    ApartTwice(g, v0, v2, v3, dir, ino);
  }
}
