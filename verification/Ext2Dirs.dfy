/** Directories of ext2: the list of live entries over a directory's blocks, name lookup and insertion. */
module Ext2Dirs {
  import opened Words
  import opened BlockStore
  import opened Products
  import opened Ext2Pool
  import opened Ext2Volume
  import opened Ext2Map
  import opened Ext2Files
  import opened Ext2Write
  import opened Ext2Dirents

  ghost predicate AllTiled(blks: seq<seq<byte>>) { forall i :: 0 <= i < |blks| ==> Tiled(blks[i]) }

  /** The live entries of a directory, block after block. */
  ghost function DirEntries(blks: seq<seq<byte>>): seq<Entry>
    requires AllTiled(blks)
  {
    if blks == [] then [] else DirEntries(blks[..|blks| - 1]) + Entries(blks[|blks| - 1])
  }

  lemma {:induction false} DirSplit(blks: seq<seq<byte>>, lb: nat)
    requires AllTiled(blks) && lb < |blks|
    ensures DirEntries(blks) == DirEntries(blks[..lb]) + Entries(blks[lb]) + DirEntries(blks[lb + 1..])
  {
    hide Tiled, Entries;
    var n := |blks| - 1;
    if lb == n {
      assert blks[lb + 1..] == [] && DirEntries(blks[lb + 1..]) == [];
    } else {
      DirSplit(blks[..n], lb);
      var rest := blks[lb + 1..];
      assert blks[..n][..lb] == blks[..lb] && blks[..n][lb + 1..] == rest[..|rest| - 1] && rest[|rest| - 1] == blks[n];
      Assoc(DirEntries(blks[..lb]) + Entries(blks[lb]), DirEntries(rest[..|rest| - 1]), Entries(blks[n]));
    }
  }

  /** `to` is `from` with the entries `was` at position `i` replaced by `now`. */
  ghost predicate Swapped(from: seq<Entry>, to: seq<Entry>, i: nat, was: seq<Entry>, now: seq<Entry>) {
    i + |was| <= |from| && from[i..i + |was|] == was && to == from[..i] + now + from[i + |was|..]
  }

  lemma SwappedAround(p: seq<Entry>, x: seq<Entry>, was: seq<Entry>, now: seq<Entry>, y: seq<Entry>, q: seq<Entry>)
    ensures Swapped(p + (x + was + y) + q, p + (x + now + y) + q, |p| + |x|, was, now)
  {
    var from, to, i := p + (x + was + y) + q, p + (x + now + y) + q, |p| + |x|;
    assert from == (p + x) + was + (y + q);
    assert from[..i] == p + x && from[i..i + |was|] == was && from[i + |was|..] == y + q;
  }

  /** Rewriting records of one block swaps entries of the directory. */
  lemma BlockSwapped(blks: seq<seq<byte>>, lb: nat, b: seq<byte>, off: nat, next: nat, was: seq<Entry>, now: seq<Entry>)
    returns (i: nat)
    requires AllTiled(blks) && lb < |blks| && Spliced(blks[lb], b, off, next, was, now)
    ensures AllTiled(blks[lb := b]) && Swapped(DirEntries(blks), DirEntries(blks[lb := b]), i, was, now)
  {
    var blks' := blks[lb := b];
    DirSplit(blks, lb);
    DirSplit(blks', lb);
    assert blks'[..lb] == blks[..lb] && blks'[lb + 1..] == blks[lb + 1..];
    var p, x := DirEntries(blks[..lb]), Between(blks[lb], 0, off);
    var y, q := Between(blks[lb], next, |blks[lb]|), DirEntries(blks[lb + 1..]);
    i := |p| + |x|;
    hide DirEntries, Between, Path;
    SwappedAround(p, x, was, now, y, q);
  }

  // ----- names

  ghost predicate Distinct(es: seq<Entry>) { forall i, j :: 0 <= i < j < |es| ==> es[i].name != es[j].name }

  ghost predicate Absent(es: seq<Entry>, name: seq<byte>) { forall i :: 0 <= i < |es| ==> es[i].name != name }

  /** The directory as a map from names to inode numbers. */
  ghost predicate Maps(es: seq<Entry>, m: map<seq<byte>, nat>) { Sends(es, m) && Backed(es, m) }

  /** Every entry is in the map, and every key of the map is backed by an entry. */
  ghost predicate Sends(es: seq<Entry>, m: map<seq<byte>, nat>) {
    forall i :: 0 <= i < |es| ==> es[i].name in m && m[es[i].name] == es[i].ino
  }

  ghost predicate Backed(es: seq<Entry>, m: map<seq<byte>, nat>) { forall n :: n in m ==> !Absent(es, n) }

  lemma InsertedAt(es: seq<Entry>, es': seq<Entry>, i: nat, e: Entry)
    requires Swapped(es, es', i, [], [e])
    ensures i <= |es| && |es'| == |es| + 1
    ensures forall k :: 0 <= k < |es'| ==> es'[k] == if k < i then es[k] else if k == i then e else es[k - 1]
  {
  }

  lemma InsertDistinct(es: seq<Entry>, es': seq<Entry>, i: nat, e: Entry)
    requires Swapped(es, es', i, [], [e]) && Distinct(es) && Absent(es, e.name)
    ensures Distinct(es')
  {
    InsertedAt(es, es', i, e);
    hide Swapped;
  }

  /** Inserting an entry whose name is absent adds exactly that key. */
  lemma InsertMaps(es: seq<Entry>, es': seq<Entry>, i: nat, e: Entry, m: map<seq<byte>, nat>)
    requires Swapped(es, es', i, [], [e]) && Distinct(es) && Absent(es, e.name) && Maps(es, m)
    ensures Distinct(es') && Maps(es', m[e.name := e.ino])
  {
    hide Swapped, Distinct, Absent, Sends, Backed;
    InsertDistinct(es, es', i, e);
    InsertSends(es, es', i, e, m);
    InsertBacked(es, es', i, e, m);
  }

  lemma InsertSends(es: seq<Entry>, es': seq<Entry>, i: nat, e: Entry, m: map<seq<byte>, nat>)
    requires Swapped(es, es', i, [], [e]) && Absent(es, e.name) && Sends(es, m)
    ensures Sends(es', m[e.name := e.ino])
  {
    InsertedAt(es, es', i, e);
    hide Swapped;
    forall k | 0 <= k < |es'|
      ensures es'[k].name in m[e.name := e.ino] && m[e.name := e.ino][es'[k].name] == es'[k].ino
    {
      if k != i {
        var j := if k < i then k else k - 1;
        assert es'[k] == es[j] && es[j].name != e.name;
      }
    }
  }

  lemma InsertBacked(es: seq<Entry>, es': seq<Entry>, i: nat, e: Entry, m: map<seq<byte>, nat>)
    requires Swapped(es, es', i, [], [e]) && Backed(es, m)
    ensures Backed(es', m[e.name := e.ino])
  {
    InsertedAt(es, es', i, e);
    hide Swapped;
    forall n | n in m[e.name := e.ino]
      ensures !Absent(es', n)
    {
      if n == e.name {
        assert es'[i].name == n;
      } else {
        var k :| 0 <= k < |es| && es[k].name == n;
        assert es'[if k < i then k else k + 1].name == n;
      }
    }
  }

  lemma RemovedAt(es: seq<Entry>, es': seq<Entry>, i: nat, e: Entry)
    requires Swapped(es, es', i, [e], [])
    ensures i < |es| && es[i] == e && |es'| == |es| - 1
    ensures forall k :: 0 <= k < |es'| ==> es'[k] == if k < i then es[k] else es[k + 1]
  {
    assert es[i..i + 1][0] == e;
  }

  /** Removing an entry removes exactly its key. */
  lemma RemoveMaps(es: seq<Entry>, es': seq<Entry>, i: nat, e: Entry, m: map<seq<byte>, nat>)
    requires Swapped(es, es', i, [e], []) && Distinct(es) && Maps(es, m)
    ensures Distinct(es') && Maps(es', m - {e.name}) && e.name in m && m[e.name] == e.ino
  {
    RemovedAt(es, es', i, e);
    RemoveDistinct(es, es', i, e);
    RemoveBacked(es, es', i, e, m);
    hide Swapped, Backed;
    forall k | 0 <= k < |es'|
      ensures es'[k].name in m - {e.name} && (m - {e.name})[es'[k].name] == es'[k].ino
    {
      var j := if k < i then k else k + 1;
      assert es'[k] == es[j] && es[j].name != es[i].name;
    }
  }

  lemma RemoveDistinct(es: seq<Entry>, es': seq<Entry>, i: nat, e: Entry)
    requires Swapped(es, es', i, [e], []) && Distinct(es)
    ensures Distinct(es')
  {
    RemovedAt(es, es', i, e);
    hide Swapped;
  }

  lemma RemoveBacked(es: seq<Entry>, es': seq<Entry>, i: nat, e: Entry, m: map<seq<byte>, nat>)
    requires Swapped(es, es', i, [e], []) && Backed(es, m)
    ensures Backed(es', m - {e.name})
  {
    RemovedAt(es, es', i, e);
    hide Swapped;
    forall n | n in m - {e.name}
      ensures !Absent(es', n)
    {
      var k :| 0 <= k < |es| && es[k].name == n;
      assert es'[if k < i then k else k - 1].name == n;
    }
  }

  /** Renaming an entry in place moves its inode from the old key to the new one. */
  lemma RenameMaps(es: seq<Entry>, es': seq<Entry>, i: nat, e: Entry, e': Entry, m: map<seq<byte>, nat>)
    requires Swapped(es, es', i, [e], [e']) && Distinct(es) && Absent(es, e'.name) && Maps(es, m)
    ensures Distinct(es') && Maps(es', (m - {e.name})[e'.name := e'.ino])
  {
    var mid := es[..i] + es[i + 1..];
    assert Swapped(es, mid, i, [e], []) by { assert mid == es[..i] + [] + es[i + 1..]; }
    RemoveMaps(es, mid, i, e, m);
    assert Absent(mid, e'.name);
    assert Swapped(mid, es', i, [], [e']) by { assert mid[..i] == es[..i] && mid[i..] == es[i + 1..]; }
    InsertMaps(mid, es', i, e', m - {e.name});
  }

  // ----- a directory on the volume

  /** `blks` are the blocks of directory `dir`, each tiled by records. */
  ghost predicate DirIs(g: Geometry, v: Vol, dir: nat, blks: seq<seq<byte>>)
    ensures DirIs(g, v, dir, blks) ==> AllTiled(blks) && IsInum(v, dir) && dir in v.inodes && |blks| <= g.MaxBlocks()
  {
    && IsInum(v, dir) && dir in v.inodes && |v.inodes[dir].blocks| == 15 && v.inodes[dir].size == PosOf(g, |blks|, 0)
    && |blks| <= g.MaxBlocks() && AllTiled(blks)
    && forall lb :: 0 <= lb < |blks| ==> There(g, v, dir, lb) && BlockOf(g, v, dir, lb) == blks[lb]
  }

  /** Inodes other than `dir` are as they were, blocks and all; and no logical block of any inode, `dir` included, has
      been moved to another block. */
  ghost predicate Untouched(g: Geometry, v: Vol, v': Vol, dir: nat) {
    && |v'.inums.used| == |v.inums.used| && v'.inodes.Keys == v.inodes.Keys
    && (forall j :: j in v.inodes && j in v'.inodes && j != dir ==> v'.inodes[j] == v.inodes[j])
    && (forall j, k :: There(g, v, j, k) ==> There(g, v', j, k) && PlaceOf(g, v', j, k) == PlaceOf(g, v, j, k))
    && (forall j, k :: j != dir && There(g, v, j, k) && There(g, v', j, k) ==>
       BlockOf(g, v', j, k) == BlockOf(g, v, j, k))
  }

  ghost function PlaceOf(g: Geometry, v: Vol, j: nat, k: nat): nat
    requires There(g, v, j, k)
  {
    Where(g, v, Leaf(j, k))
  }

  lemma UntouchedApart(g: Geometry, v: Vol, v': Vol, a: nat, b: nat)
    requires Untouched(g, v, v', a) || Untouched(g, v, v', b)
    ensures Apart(g, v, v', a, b)
  {
    hide There, BlockOf, PlaceOf;
  }

  /** A directory among the others keeps its blocks. */
  lemma ApartDir(g: Geometry, v: Vol, v': Vol, a: nat, b: nat, dir: nat, blks: seq<seq<byte>>)
    requires Apart(g, v, v', a, b) && dir != a && dir != b && DirIs(g, v, dir, blks)
    ensures DirIs(g, v', dir, blks)
  {
    hide There, BlockOf, Tiled;
    assert dir in v.inodes.Keys;
  }

  lemma UntouchedTwice(g: Geometry, v: Vol, v1: Vol, v2: Vol, dir: nat)
    requires Untouched(g, v, v1, dir) && Untouched(g, v1, v2, dir)
    ensures Untouched(g, v, v2, dir)
  {
    hide There, BlockOf;
    forall j | j in v.inodes && j in v2.inodes && j != dir
      ensures v2.inodes[j] == v.inodes[j]
    {
      assert j in v1.inodes.Keys;
    }
  }

  /** Mode and link count of `dir` are what they were. */
  ghost predicate SameKind(v: Vol, v': Vol, dir: nat) {
    dir in v.inodes && dir in v'.inodes && v'.inodes[dir].mode == v.inodes[dir].mode
      && v'.inodes[dir].links == v.inodes[dir].links
  }

  /** get_block on a directory's own logical block. */
  lemma DirBlockAt(g: Geometry, v: Vol, dir: nat, blks: seq<seq<byte>>, lb: nat)
    requires Sound(g, v) && Owned(g, v) && DirIs(g, v, dir, blks) && lb < |blks|
    ensures var phys := At(g, v.data, v.inodes[dir], lb);
      && |v.inodes[dir].blocks| == 15 && phys == Where(g, v, Leaf(dir, lb)) && phys in v.data
         && v.data[phys] == blks[lb]
      && IsBlock(g, v, phys) && |blks[lb]| == g.bs && There(g, v, dir, lb)
  {
    assert There(g, v, dir, lb);
    assert IsUsed(g, v, Where(g, v, Leaf(dir, lb)));
  }

  /** One block of the directory is rewritten. */
  lemma DirRewritten(g: Geometry, v: Vol, dir: nat, blks: seq<seq<byte>>, lb: nat, b: seq<byte>, v': Vol)
    requires Sound(g, v) && Owned(g, v) && DirIs(g, v, dir, blks) && lb < |blks| && Tiled(b) && |b| == g.bs
    requires There(g, v, dir, lb) && v' == v.(data := v.data[Where(g, v, Leaf(dir, lb)) := b])
    ensures Owned(g, v') && DirIs(g, v', dir, blks[lb := b]) && Untouched(g, v, v', dir) && SameMap(g, v, v')
  {
    hide Tiled;
    WriteLeaf(g, v, dir, lb, b, v');
    hide There, BlockOf, Owned, SameMap;
  }

  // ----- the scans

  lemma AbsentJoins(x: seq<Entry>, y: seq<Entry>, name: seq<byte>)
    requires Absent(x, name) && Absent(y, name)
    ensures Absent(x + y, name)
  {
  }

  /** One block searched for a name. */
  method ScanName(b: seq<byte>, name: seq<byte>) returns (found: bool, off: nat)
    requires Tiled(b) && |name| < 256
    ensures found ==> LiveAt(b, off) && EntryAt(b, off).name == name
    ensures !found ==> Absent(Entries(b), name)
  {
    hide Path, Between, Absent;
    off, found := 0, false;
    ScanStarts(b, name);
    while off < |b|
      invariant 0 <= off <= |b| && Path(b, 0, off) && Absent(Between(b, 0, off), name)
      decreases |b| - off
    {
      RecordHere(b, off);
      PathStep(b, off);
      if Ino(b, off) != 0 && NameLen(b, off) == |name| && b[off + 8..off + 8 + |name|] == name { return true, off; }
      NotHere(b, off, name);
      AbsentJoins(Between(b, 0, off), Here(b, off), name);
      off := off + RecLen(b, off);
    }
  }

  lemma ScanStarts(b: seq<byte>, name: seq<byte>)
    ensures Path(b, 0, 0) && Absent(Between(b, 0, 0), name)
  {
  }

  lemma NotHere(b: seq<byte>, off: nat, name: seq<byte>)
    requires RecordAt(b, off)
    requires !(Ino(b, off) != 0 && NameLen(b, off) == |name| && b[off + 8..off + 8 + NameLen(b, off)] == name)
    ensures Absent(Here(b, off), name)
  {
  }

  /** Bytes of a record that its own entry does not need. */
  function Avail(b: seq<byte>, off: nat): nat
    requires RecordAt(b, off)
  {
    RecLen(b, off) - (if Ino(b, off) != 0 then Need(NameLen(b, off)) else 0)
  }

  /** One block searched for the first record with `need` bytes to spare. */
  method ScanRoom(b: seq<byte>, need: nat) returns (found: bool, off: nat)
    requires Tiled(b)
    ensures found ==> Path(b, 0, off) && off < |b| && RecordAt(b, off) && Avail(b, off) >= need
    ensures !found ==> forall k: nat :: k < |b| && Path(b, 0, k) ==> RecordAt(b, k) && Avail(b, k) < need
  {
    hide Path;
    off, found := 0, false;
    RoomStarts(b);
    while off < |b|
      invariant 0 <= off <= |b| && Path(b, 0, off)
      invariant forall k: nat :: k < off && Path(b, 0, k) ==> RecordAt(b, k) && Avail(b, k) < need
      decreases |b| - off
    {
      RecordHere(b, off);
      PathStep(b, off);
      if Avail(b, off) >= need { return true, off; }
      NoneBetween(b, off);
      off := off + RecLen(b, off);
    }
  }

  lemma RoomStarts(b: seq<byte>)
    ensures Path(b, 0, 0)
  {
  }

  /** No record starts inside another. */
  lemma NoneBetween(b: seq<byte>, off: nat)
    requires Path(b, 0, off) && RecordAt(b, off)
    ensures forall k: nat :: off < k < off + RecLen(b, off) ==> !Path(b, 0, k)
  {
    forall k: nat | off < k < off + RecLen(b, off)
      ensures !Path(b, 0, k)
    {
      if Path(b, 0, k) {
        PathSplits(b, 0, off, k);
      }
    }
  }

  /** A directory searched for a name. */
  method FindName(vol: Volume, dir: nat, name: seq<byte>, ghost blks: seq<seq<byte>>)
    returns (found: bool, lb: nat, off: nat)
    requires vol.Valid() && Owned(vol.g, vol.v) && DirIs(vol.g, vol.v, dir, blks) && |name| < 256
    ensures found ==> lb < |blks| && LiveAt(blks[lb], off) && EntryAt(blks[lb], off).name == name
    ensures !found ==> Absent(DirEntries(blks), name)
  {
    hide Volume.Valid, Sound, Owned, Tiled, Entries, LiveAt, PosOf, Absent;
    DirSize(vol.g, vol.v, dir, blks);
    lb, off, found := 0, 0, false;
    NoEntries(blks, name);
    while PosOf(vol.g, lb, 0) < vol.v.inodes[dir].size
      invariant 0 <= lb <= |blks| && Absent(DirEntries(blks[..lb]), name)
      decreases |blks| - lb
    {
      DirBlockAt(vol.g, vol.v, dir, blks, lb);
      found, off := ScanName(vol.v.data[At(vol.g, vol.v.data, vol.v.inodes[dir], lb)], name);
      if found { return; }
      assert blks[..lb + 1][..lb] == blks[..lb];
      AbsentJoins(DirEntries(blks[..lb]), Entries(blks[lb]), name);
      lb := lb + 1;
    }
    assert blks[..|blks|] == blks;
  }

  lemma NoEntries(blks: seq<seq<byte>>, name: seq<byte>)
    requires AllTiled(blks)
    ensures Absent(DirEntries(blks[..0]), name)
  {
  }

  lemma DirSize(g: Geometry, v: Vol, dir: nat, blks: seq<seq<byte>>)
    requires Sound(g, v) && DirIs(g, v, dir, blks)
    ensures forall lb: nat :: lb <= |blks| ==> (PosOf(g, lb, 0) < v.inodes[dir].size <==> lb < |blks|)
  {
    hide There, BlockOf;
    forall lb: nat | lb <= |blks|
      ensures PosOf(g, lb, 0) < v.inodes[dir].size <==> lb < |blks|
    {
      if lb < |blks| {
        PosOrder(g, lb, |blks|);
      }
    }
  }

  /** A directory searched for room. */
  method FindRoom(vol: Volume, dir: nat, need: nat, ghost blks: seq<seq<byte>>) returns (found: bool, lb: nat, off: nat)
    requires vol.Valid() && Owned(vol.g, vol.v) && DirIs(vol.g, vol.v, dir, blks)
    ensures found ==> lb < |blks| && Path(blks[lb], 0, off) && off < |blks[lb]| && RecordAt(blks[lb], off)
    ensures found ==> Avail(blks[lb], off) >= need
    ensures !found ==> forall i: nat, k: nat :: i < |blks| && k < |blks[i]| && Path(blks[i], 0, k) ==>
      RecordAt(blks[i], k) && Avail(blks[i], k) < need
  {
    hide Volume.Valid, Sound, Owned, Tiled, PosOf, Path, RecordAt, Avail;
    DirSize(vol.g, vol.v, dir, blks);
    lb, off, found := 0, 0, false;
    while PosOf(vol.g, lb, 0) < vol.v.inodes[dir].size
      invariant 0 <= lb <= |blks|
      invariant forall i: nat, k: nat :: i < lb && k < |blks[i]| && Path(blks[i], 0, k) ==>
        RecordAt(blks[i], k) && Avail(blks[i], k) < need
      decreases |blks| - lb
    {
      DirBlockAt(vol.g, vol.v, dir, blks, lb);
      found, off := ScanRoom(vol.v.data[At(vol.g, vol.v.data, vol.v.inodes[dir], lb)], need);
      if found { return; }
      lb := lb + 1;
    }
  }

  // ----- ext2_insert_dirent

  /** Every live record of the directory is still where it was, with its entry. */
  ghost predicate RecordsStay(blks: seq<seq<byte>>, blks': seq<seq<byte>>) {
    && |blks| <= |blks'|
    && forall lb: nat, k: nat :: lb < |blks| && LiveAt(blks[lb], k) ==>
         LiveAt(blks'[lb], k) && EntryAt(blks'[lb], k) == EntryAt(blks[lb], k)
  }

  lemma OneBlockStays(blks: seq<seq<byte>>, lb: nat, b: seq<byte>)
    requires lb < |blks|
    requires forall k: nat :: LiveAt(blks[lb], k) ==> LiveAt(b, k) && EntryAt(b, k) == EntryAt(blks[lb], k)
    ensures RecordsStay(blks, blks[lb := b])
  {
    hide LiveAt, EntryAt;
  }

  /** A free record is reused: everything live stays, and the entry is new. */
  lemma FillInserts(blks: seq<seq<byte>>, lb: nat, off: nat, e: Entry, b: seq<byte>) returns (i: nat)
    requires AllTiled(blks) && lb < |blks| && Path(blks[lb], 0, off) && off < |blks[lb]| && RecordAt(blks[lb], off)
    requires Ino(blks[lb], off) == 0 && 0 < e.ino < 0x1_0000_0000 && |e.name| < 256
    requires Need(|e.name|) <= RecLen(blks[lb], off)
    requires b == Filled(blks[lb], off, e)
    ensures AllTiled(blks[lb := b]) && Swapped(DirEntries(blks), DirEntries(blks[lb := b]), i, [], [e])
    ensures RecordsStay(blks, blks[lb := b]) && |b| == |blks[lb]|
  {
    hide Path, Between, DirEntries, Swapped, Filled, Spliced, RecordsStay;
    FilledOk(blks[lb], off, e, b);
    i := BlockSwapped(blks, lb, b, off, off + RecLen(blks[lb], off), [], [e]);
    OneRecord(b, off, off + RecLen(blks[lb], off), e);
    forall k: nat | LiveAt(blks[lb], k)
      ensures LiveAt(b, k) && EntryAt(b, k) == EntryAt(blks[lb], k)
    {
      OthersStay(blks[lb], b, off, k);
    }
    OneBlockStays(blks, lb, b);
  }

  lemma SwapIsInsert(from: seq<Entry>, to: seq<Entry>, i: nat, d: Entry, e: Entry)
    requires Swapped(from, to, i, [d], [d, e])
    ensures Swapped(from, to, i + 1, [], [e])
  {
    assert from[i..i + 1][0] == d;
    assert from[..i + 1] == from[..i] + [d];
    assert from[..i] + [d, e] + from[i + 1..] == from[..i + 1] + [e] + from[i + 1..];
  }

  /** Slack is split off a live record. */
  lemma SplitInserts(blks: seq<seq<byte>>, lb: nat, off: nat, e: Entry, b: seq<byte>) returns (i: nat)
    requires AllTiled(blks) && lb < |blks| && Path(blks[lb], 0, off) && off < |blks[lb]| && HasSlack(blks[lb], off, e)
    requires b == Split(blks[lb], off, e)
    ensures AllTiled(blks[lb := b]) && Swapped(DirEntries(blks), DirEntries(blks[lb := b]), i, [], [e])
    ensures RecordsStay(blks, blks[lb := b]) && |b| == |blks[lb]|
  {
    hide Path, Between, DirEntries, Swapped, Split, Spliced, RecordsStay;
    var was := blks[lb];
    SplitOk(was, off, e, b);
    SplitRecords(was, off, e, b);
    i := BlockSwapped(blks, lb, b, off, off + RecLen(was, off), [EntryAt(was, off)], [EntryAt(was, off), e]);
    SwapIsInsert(DirEntries(blks), DirEntries(blks[lb := b]), i, EntryAt(was, off), e);
    i := i + 1;
    PathKept(was, b, off);
    forall k: nat | LiveAt(was, k)
      ensures LiveAt(b, k) && EntryAt(b, k) == EntryAt(was, k)
    {
      if k != off {
        OthersStay(was, b, off, k);
      }
    }
    OneBlockStays(blks, lb, b);
  }

  lemma PathKept(b: seq<byte>, b': seq<byte>, off: nat)
    requires Path(b, 0, off) && Agree(b, b', 0, off)
    ensures Path(b', 0, off)
  {
    SamePath(b, b', 0, off);
  }

  /** A block is appended. */
  lemma AppendInserts(blks: seq<seq<byte>>, e: Entry, b: seq<byte>)
    requires AllTiled(blks) && Tiled(b) && Entries(b) == [e]
    ensures AllTiled(blks + [b]) && Swapped(DirEntries(blks), DirEntries(blks + [b]), |DirEntries(blks)|, [], [e])
    ensures RecordsStay(blks, blks + [b])
  {
    hide Tiled, Entries, LiveAt, EntryAt, Swapped;
    var blks' := blks + [b];
    assert blks'[..|blks'| - 1] == blks;
    AtEnd(DirEntries(blks), e);
  }

  lemma AtEnd(es: seq<Entry>, e: Entry)
    ensures Swapped(es, es + [e], |es|, [], [e])
  {
    assert es[..|es|] == es && es[|es|..] == [];
  }

  /** The appended block on the volume: the growth, the block's contents, the inode's new size. */
  lemma DirAppended(g: Geometry, v0: Vol, v1: Vol, dir: nat, blks: seq<seq<byte>>, nd: Inode, phys: nat, b: seq<byte>,
                    v3: Vol)
    requires Sound(g, v0) && Sound(g, v1) && Owned(g, v0) && DirIs(g, v0, dir, blks) && Tiled(b) && |b| == g.bs
    requires phys != 0
    requires Grew(g, v0, v1, dir, v0.inodes[dir], nd, |blks|, phys)
    requires At(g, v0.data, v0.inodes[dir], |blks|) == 0 || phys == At(g, v0.data, v0.inodes[dir], |blks|)
    requires |nd.blocks| == 15
    requires v3 == Pending(v1.(data := v1.data[phys := b]), dir, nd.(size := PosOf(g, |blks| + 1, 0)))
    ensures Owned(g, v3) && DirIs(g, v3, dir, blks + [b]) && Untouched(g, v0, v3, dir)
  {
    hide Tiled, Sound, Owned, There, BlockOf, Grew, Extended;
    var n, w1 := |blks|, Pending(v1, dir, nd);
    PendingSame(v0, dir);
    PendingSound(g, v1, dir, nd);
    ExtendedStart(g, v0, dir, n);
    GrewParts(g, v0, v1, dir, v0.inodes[dir], nd, n, phys);
    ExtendedStep(g, v0, v0, w1, dir, n, n, phys);
    ExtendedThere(g, v0, w1, dir, n, n + 1);
    GrewWhere(g, v0, v1, dir, nd, n, phys);
    var v2 := v1.(data := v1.data[phys := b]);
    WriteLeaf(g, w1, dir, n, b, Pending(v2, dir, nd));
    SizeAlone(g, v2, dir, nd, PosOf(g, n + 1, 0));
    PlacesChain(g, v0, w1, Pending(v2, dir, nd), v3, dir, n, n + 1);
    AppendedDir(g, v0, w1, Pending(v2, dir, nd), v3, dir, blks, nd, b);
  }

  lemma PlacesChain(g: Geometry, v0: Vol, w1: Vol, w2: Vol, v3: Vol, dir: nat, lo: nat, hi: nat)
    requires Extended(g, v0, w1, dir, lo, hi) && SameMap(g, w1, w2) && SameMap(g, w2, v3)
    ensures forall j: nat, k: nat :: There(g, v0, j, k) && There(g, v3, j, k) ==>
      PlaceOf(g, v3, j, k) == PlaceOf(g, v0, j, k)
  {
    hide IsRef, Where, LeavesKept;
  }

  lemma GrewWhere(g: Geometry, v0: Vol, v1: Vol, dir: nat, nd: Inode, n: nat, phys: nat)
    requires dir in v0.inodes && IsInum(v0, dir) && Grew(g, v0, v1, dir, v0.inodes[dir], nd, n, phys) && phys != 0
    ensures n < g.MaxBlocks() && IsInum(v1, dir) && IsRef(g, Pending(v1, dir, nd), Leaf(dir, n))
    ensures Where(g, Pending(v1, dir, nd), Leaf(dir, n)) == phys
    ensures v1.inodes == v0.inodes && v1.inums == v0.inums
  {
    hide Owned, LeavesKept, Mapped;
  }

  lemma AppendedDir(g: Geometry, v0: Vol, w1: Vol, w2: Vol, v3: Vol, dir: nat, blks: seq<seq<byte>>, nd: Inode,
                    b: seq<byte>)
    requires DirIs(g, v0, dir, blks) && Tiled(b) && |blks| < g.MaxBlocks() && |nd.blocks| == 15
    requires v3.inums == v0.inums && v3.inodes == v0.inodes[dir := nd.(size := PosOf(g, |blks| + 1, 0))]
    requires forall j, k :: There(g, v0, j, k) ==> There(g, w1, j, k) && BlockOf(g, w1, j, k) == BlockOf(g, v0, j, k)
    requires There(g, w2, dir, |blks|) && BlockOf(g, w2, dir, |blks|) == b
    requires forall j, k :: (j != dir || k != |blks|) && There(g, w1, j, k) ==>
      There(g, w2, j, k) && BlockOf(g, w2, j, k) == BlockOf(g, w1, j, k)
    requires forall j, k :: There(g, w2, j, k) ==> There(g, v3, j, k) && BlockOf(g, v3, j, k) == BlockOf(g, w2, j, k)
    requires forall j, k :: There(g, v0, j, k) && There(g, v3, j, k) ==> PlaceOf(g, v3, j, k) == PlaceOf(g, v0, j, k)
    ensures DirIs(g, v3, dir, blks + [b]) && Untouched(g, v0, v3, dir)
  {
    hide There, BlockOf, Tiled, PosOf, PlaceOf;
    assert v3.inodes.Keys == v0.inodes.Keys;
  }

  // ----- the writes on the way

  /** The directory reads as before, and so does everything else. */
  ghost predicate StillDir(g: Geometry, v: Vol, w: Vol, dir: nat, blks: seq<seq<byte>>) {
    Apart(g, v, w, dir, dir) && DirIs(g, w, dir, blks)
  }

  /** At every write since `steps` but the one that leads to `v'`. */
  ghost predicate StepsDir(g: Geometry, v: Vol, dir: nat, blks: seq<seq<byte>>, steps: seq<Vol>, steps': seq<Vol>,
                           v': Vol) {
    && steps <= steps'
    && forall i :: |steps| <= i < |steps'| ==> StillDir(g, v, steps'[i], dir, blks) || steps'[i] == v'
  }

  lemma QuietStill(g: Geometry, v: Vol, w: Vol, dir: nat, blks: seq<seq<byte>>)
    requires DirIs(g, v, dir, blks) && QuietAt(g, v, dir, v.inodes[dir], w)
    ensures StillDir(g, v, w, dir, blks)
  {
    PendingSame(v, dir);
    PendingSame(w, dir);
    forall j: nat, k: nat | There(g, v, j, k)
      ensures There(g, w, j, k) && BlockOf(g, w, j, k) == BlockOf(g, v, j, k)
    {
      assert IsRef(g, v, Leaf(j, k)) && Where(g, v, Leaf(j, k)) != 0;
    }
    hide There, BlockOf, Tiled, Quiet;
  }

  lemma QuietStills(g: Geometry, v: Vol, dir: nat, blks: seq<seq<byte>>, steps: seq<Vol>, steps': seq<Vol>, v': Vol,
                    v2: Vol)
    requires DirIs(g, v, dir, blks) && QuietSteps(g, v, dir, v.inodes[dir], steps, steps', v')
    ensures StepsDir(g, v, dir, blks, steps, steps', v2) && StillDir(g, v, v', dir, blks)
  {
    hide DirIs, QuietAt, StillDir;
    QuietStill(g, v, v', dir, blks);
    forall i | |steps| <= i < |steps'|
      ensures StillDir(g, v, steps'[i], dir, blks)
    {
      QuietStill(g, v, steps'[i], dir, blks);
    }
  }

  /** The block to be appended is nobody's, so what it holds does not show before the inode says so. */
  lemma AppendedElse(g: Geometry, v: Vol, v1: Vol, dir: nat, nd: Inode, n: nat, phys: nat, b: seq<byte>, j: nat, k: nat)
    requires IsInum(v, dir) && dir in v.inodes && |v.inodes[dir].blocks| == 15
    requires Grew(g, v, v1, dir, v.inodes[dir], nd, n, phys) && QuietAt(g, v, dir, v.inodes[dir], v1) && phys != 0
    requires v.inodes[dir].blocks[12] != 0 ==> nd.blocks[12] == v.inodes[dir].blocks[12]
    requires There(g, v, j, k) && (j != dir || k != n)
    ensures var w := v1.(data := v1.data[phys := b]);
      There(g, w, j, k) && BlockOf(g, w, j, k) == BlockOf(g, v, j, k)
  {
    GrewWhere(g, v, v1, dir, nd, n, phys);
    PendingSame(v, dir);
    PendingSame(v1, dir);
    var p := Pending(v1, dir, nd);
    var s := Leaf(j, k);
    assert IsRef(g, v, s) && Where(g, v, s) != 0;
    assert IsRef(g, p, s) && Where(g, p, s) == Where(g, v, s) && Where(g, v1, s) == Where(g, v, s);
    assert Where(g, p, s) != phys;
    assert IsRef(g, p, Indirect(j)) && Where(g, p, Indirect(j)) != phys;
    assert j == dir || p.inodes[j] == v.inodes[j];
    assert v.inodes[j].blocks[12] != phys;
  }

  lemma AppendedStill(g: Geometry, v: Vol, v1: Vol, dir: nat, nd: Inode, phys: nat, b: seq<byte>,
                      blks: seq<seq<byte>>)
    requires DirIs(g, v, dir, blks) && phys != 0
    requires Grew(g, v, v1, dir, v.inodes[dir], nd, |blks|, phys) && QuietAt(g, v, dir, v.inodes[dir], v1)
    requires v.inodes[dir].blocks[12] != 0 ==> nd.blocks[12] == v.inodes[dir].blocks[12]
    ensures StillDir(g, v, v1.(data := v1.data[phys := b]), dir, blks)
  {
    hide Grew, Quiet, There, BlockOf, Tiled;
    var w := v1.(data := v1.data[phys := b]);
    forall j: nat, k: nat | There(g, v, j, k) && (j != dir || k != |blks|)
      ensures There(g, w, j, k) && BlockOf(g, w, j, k) == BlockOf(g, v, j, k)
    {
      AppendedElse(g, v, v1, dir, nd, |blks|, phys, b, j, k);
    }
    assert |w.inums.used| == |v.inums.used| by { GrewInums(g, v, v1, dir, nd, |blks|, phys); }
  }

  lemma GrewInums(g: Geometry, v: Vol, v1: Vol, dir: nat, nd: Inode, n: nat, phys: nat)
    requires dir in v.inodes && Grew(g, v, v1, dir, v.inodes[dir], nd, n, phys)
    ensures v1.inums == v.inums
  {
  }

  /** Writing the entry into the room found: a free record as a whole, or the slack behind a live one. */
  method PutEntry(vol: Volume, dir: nat, e: Entry, lb: nat, off: nat, ghost blks: seq<seq<byte>>)
    returns (ghost blks': seq<seq<byte>>, ghost i: nat)
    requires vol.Valid() && Owned(vol.g, vol.v) && DirIs(vol.g, vol.v, dir, blks) && 0 < e.ino < 0x1_0000_0000
    requires |e.name| < 256
    requires lb < |blks| && Path(blks[lb], 0, off) && off < |blks[lb]| && RecordAt(blks[lb], off)
    requires Avail(blks[lb], off) >= Need(|e.name|)
    modifies vol
    ensures vol.Valid() && Owned(vol.g, vol.v) && Untouched(vol.g, old(vol.v), vol.v, dir)
    ensures vol.v.inums == old(vol.v).inums
    ensures SameKind(old(vol.v), vol.v, dir)
    ensures DirIs(vol.g, vol.v, dir, blks') && Swapped(DirEntries(blks), DirEntries(blks'), i, [], [e])
    ensures RecordsStay(blks, blks') && vol.steps == old(vol.steps) + [vol.v]
  {
    hide Volume.Valid, Sound, Owned, Path, Tiled, Untouched, Swapped, DirEntries, RecordsStay, LiveAt, Split, Filled;
    DirBlockAt(vol.g, vol.v, dir, blks, lb);
    var phys := At(vol.g, vol.v.data, vol.v.inodes[dir], lb);
    var b := vol.v.data[phys];
    var b';
    if Ino(b, off) == 0 {
      b' := Filled(b, off, e);
      i := FillInserts(blks, lb, off, e, b');
    } else {
      b' := Split(b, off, e);
      i := SplitInserts(blks, lb, off, e, b');
    }
    blks' := blks[lb := b'];
    assert blks'[lb] == b';
    DirRewritten(vol.g, vol.v, dir, blks, lb, b', vol.v.(data := vol.v.data[phys := b']));
    vol.WriteData(phys, b');
  }

  /** Growing the directory by one block that holds just the entry. */
  method AppendEntry(vol: Volume, dir: nat, e: Entry, ghost blks: seq<seq<byte>>)
    returns (rc: int, ghost blks': seq<seq<byte>>)
    requires vol.Valid() && Owned(vol.g, vol.v) && DirIs(vol.g, vol.v, dir, blks) && 0 < e.ino < 0x1_0000_0000
    requires |e.name| < 256
    modifies vol
    ensures vol.Valid() && Owned(vol.g, vol.v) && Untouched(vol.g, old(vol.v), vol.v, dir)
    ensures vol.v.inums == old(vol.v).inums
    ensures SameKind(old(vol.v), vol.v, dir)
    ensures (rc == 0 || rc == -1) && DirIs(vol.g, vol.v, dir, blks')
    ensures rc == 0 ==>
      Swapped(DirEntries(blks), DirEntries(blks'), |DirEntries(blks)|, [], [e]) && RecordsStay(blks, blks')
    ensures rc == -1 ==> blks' == blks && (|blks| >= vol.g.MaxBlocks() || NoFree(vol.v))
    ensures rc == -1 <==> CannotGrow(vol.g, old(vol.v), dir, |blks|)
    ensures StepsDir(vol.g, old(vol.v), dir, blks, old(vol.steps), vol.steps, vol.v)
  {
    hide Volume.Valid, Sound, Owned, Path, Tiled, Untouched, Swapped, DirEntries, RecordsStay, Grew, NoFree, PosOf, Lb,
      At, FreshBlock, Abandoned, QuietSteps, StepsDir, StillDir;
    ghost var v0, steps0 := vol.v, vol.steps;
    InodeThere(vol.g, v0, dir);
    AppendAt(vol.g, v0, dir, blks);
    PendingSame(v0, dir);
    var nd := vol.v.inodes[dir];
    var size := nd.size;
    var phys;
    phys, nd := GetOrAlloc(vol, dir, nd, Lb(vol.g, size));
    if phys == 0 {
      GrewParts(vol.g, v0, vol.v, dir, v0.inodes[dir], nd, |blks|, 0);
      DirAbandoned(vol.g, v0, vol.v, dir, blks);
      QuietStills(vol.g, v0, dir, blks, steps0, vol.steps, vol.v, vol.v);
      return -1, blks;
    }
    ghost var v1, steps1 := vol.v, vol.steps;
    GrewBlock(vol.g, v0, v1, dir, v0.inodes[dir], nd, |blks|, phys);
    BlockSize(vol.g, v0);
    var b := FreshBlock(vol.g.bs, e);
    FreshOk(vol.g.bs, e);
    blks' := blks + [b];
    AppendInserts(blks, e, b);
    DirAppended(vol.g, v0, v1, dir, blks, nd, phys, b,
                Pending(v1.(data := v1.data[phys := b]), dir, nd.(size := PosOf(vol.g, |blks| + 1, 0))));
    vol.WriteData(phys, b);
    vol.WriteInode(dir, nd.(size := size + vol.g.bs));
    StepsAppended(vol.g, v0, v1, dir, nd, phys, b, blks, steps0, steps1, vol.v);
    rc := 0;
  }

  lemma StepsAppended(g: Geometry, v: Vol, v1: Vol, dir: nat, nd: Inode, phys: nat, b: seq<byte>,
                      blks: seq<seq<byte>>, steps: seq<Vol>, steps1: seq<Vol>, v3: Vol)
    requires DirIs(g, v, dir, blks) && phys != 0
    requires Grew(g, v, v1, dir, v.inodes[dir], nd, |blks|, phys)
    requires QuietSteps(g, v, dir, v.inodes[dir], steps, steps1, v1)
    requires v.inodes[dir].blocks[12] != 0 ==> nd.blocks[12] == v.inodes[dir].blocks[12]
    ensures StepsDir(g, v, dir, blks, steps, steps1 + [v1.(data := v1.data[phys := b])] + [v3], v3)
  {
    hide DirIs, Grew, StillDir, QuietAt;
    AppendedStill(g, v, v1, dir, nd, phys, b, blks);
    QuietStills(g, v, dir, blks, steps, steps1, v1, v3);
  }

  /** The directory has no block to spare after its first `n` and cannot get one. */
  ghost predicate CannotGrow(g: Geometry, v: Vol, dir: nat, n: nat) {
    dir in v.inodes && |v.inodes[dir].blocks| == 15 && Ungettable(g, v, v.inodes[dir], n)
  }

  lemma BlockSize(g: Geometry, v: Vol)
    requires Sound(g, v)
    ensures 1024 <= g.bs <= 4096 && g.bs % 4 == 0
  {
  }

  lemma AppendAt(g: Geometry, v: Vol, dir: nat, blks: seq<seq<byte>>)
    requires Sound(g, v) && DirIs(g, v, dir, blks)
    ensures v.inodes[dir].size == PosOf(g, |blks|, 0) && Lb(g, v.inodes[dir].size) == |blks|
    ensures PosOf(g, |blks| + 1, 0) == v.inodes[dir].size + g.bs
  {
    PosUnique(g, |blks|, 0);
    PosNext(g, |blks|);
  }

  lemma GrewBlock(g: Geometry, v: Vol, v': Vol, ino: nat, nd: Inode, nd': Inode, lb: nat, b: nat)
    requires Grew(g, v, v', ino, nd, nd', lb, b) && b != 0 && IsInum(v, ino)
    ensures IsBlock(g, v', b) && IsInum(v', ino) && lb < g.MaxBlocks()
  {
    hide Owned, LeavesKept, Mapped;
  }

  /** A failed growth leaves the directory and everybody else as they were. */
  lemma DirAbandoned(g: Geometry, v: Vol, v': Vol, dir: nat, blks: seq<seq<byte>>)
    requires DirIs(g, v, dir, blks) && dir in v.inodes && v'.inodes == v.inodes
    requires Abandoned(g, v, Pending(v', dir, v.inodes[dir]))
    ensures Owned(g, v') && DirIs(g, v', dir, blks) && Untouched(g, v, v', dir)
  {
    PendingSame(v', dir);
    assert v' == Pending(v', dir, v.inodes[dir]);
    AbandonedOwned(g, v, v');
    forall j: nat, k: nat | There(g, v, j, k)
      ensures There(g, v', j, k) && BlockOf(g, v', j, k) == BlockOf(g, v, j, k)
    {
      ThereKept(g, v, v', j, k);
    }
    hide There, BlockOf, Tiled;
  }

  /** ext2_insert_dirent: the directory gains exactly the entry, by whichever of the three paths; every other record
      stays where it was and every other inode is untouched. It fails exactly for a bad name, or when no record has room
      and the directory cannot grow, and then the directory is as before. */
  method InsertDirent(vol: Volume, dir: nat, e: Entry, ghost blks: seq<seq<byte>>)
    returns (rc: int, ghost blks': seq<seq<byte>>, ghost i: nat)
    requires vol.Valid() && Owned(vol.g, vol.v) && DirIs(vol.g, vol.v, dir, blks) && 0 < e.ino < 0x1_0000_0000
    modifies vol
    ensures vol.Valid() && Owned(vol.g, vol.v) && Untouched(vol.g, old(vol.v), vol.v, dir)
    ensures vol.v.inums == old(vol.v).inums
    ensures SameKind(old(vol.v), vol.v, dir)
    ensures (rc == 0 || rc == -1) && DirIs(vol.g, vol.v, dir, blks')
    ensures rc == 0 ==> Swapped(DirEntries(blks), DirEntries(blks'), i, [], [e]) && RecordsStay(blks, blks')
    ensures rc == -1 ==> blks' == blks
    ensures rc == -1 <==>
      !(0 < |e.name| < 256) || (NoRoom(blks, Need(|e.name|)) && CannotGrow(vol.g, old(vol.v), dir, |blks|))
    ensures StepsDir(vol.g, old(vol.v), dir, blks, old(vol.steps), vol.steps, vol.v)
  {
    hide Volume.Valid, Sound, Owned, Path, Tiled, Untouched, Swapped, DirEntries, RecordsStay, NoFree, RecordAt,
      CannotGrow, StillDir;
    i := 0;
    SelfUntouched(vol.g, vol.v, dir);
    if |e.name| == 0 || |e.name| > 255 { return -1, blks, 0; }
    var found, lb, off := FindRoom(vol, dir, Need(|e.name|), blks);
    if found {
      blks', i := PutEntry(vol, dir, e, lb, off, blks);
      return 0, blks', i;
    }
    rc, blks' := AppendEntry(vol, dir, e, blks);
    i := |DirEntries(blks)|;
  }

  ghost predicate NoRoom(blks: seq<seq<byte>>, need: nat) {
    forall i: nat, k: nat :: i < |blks| && k < |blks[i]| && Path(blks[i], 0, k) ==>
      RecordAt(blks[i], k) && Avail(blks[i], k) < need
  }

  lemma SelfUntouched(g: Geometry, v: Vol, dir: nat)
    ensures Untouched(g, v, v, dir)
  {
  }
}
