/** Any run of create, write, rename, unlink and defragment on an ext2 volume with any number of directories. */
module Ext2Session {
  import opened Words
  import opened BlockStore
  import opened Products
  import opened Ext2Pool
  import opened Ext2Volume
  import opened Ext2Map
  import opened Ext2Files
  import opened Ext2Write
  import opened Ext2Dirents
  import opened Ext2Dirs
  import opened Ext2Ops
  import opened Ext2Defrag
  import opened Ext2Tree
  import opened Ext2Refine

  // ----- the operations

  /** Create, unless the name is taken: as a map, one free name comes to lead to an empty file of its own. */
  method Make(vol: Volume, dirs: seq<nat>, d: nat, name: seq<byte>, ghost all: seq<Blocks>)
    returns (ino: nat, ghost all': seq<Blocks>)
    requires vol.Valid() && FsInv(vol.g, vol.v, dirs, all) && d < |dirs| && |name| < 256
    modifies vol
    ensures vol.Valid() && FsInv(vol.g, vol.v, dirs, all')
    ensures Step(vol.g, Snap(old(vol.v), all), Snap(vol.v, all'), dirs, MakeFile(d, name))
  {
    hide Volume.Valid, FsInv, Sound, Owned, DirIs, DirOk, Absent, Distinct, DirEntries, Apart, SameKind, NamesUsed,
      Gained, Whole, Content, InumIs, NoInum, NoPlace, LowInums, Means, OneMeaning, SameMeaning, Unnamed, NodeOf;
    ghost var v0 := vol.v;
    DirReady(vol.g, v0, dirs, all, d);
    SameSelf(vol.g, Snap(v0, all));
    ino, all' := 0, all;
    var found, lb, off := FindName(vol, dirs[d], name, all[d]);
    if found {
      Found(vol.g, Snap(v0, all), dirs, d, lb, off);
      return;
    }
    NotFound(vol.g, Snap(v0, all), dirs, d, name);
    ghost var blks';
    ino, blks' := Create(vol, dirs[d], name, all[d]);
    StaysOne(v0, vol.v, dirs[d]);
    if ino == 0 {
      NotMade(vol.g, v0, vol.v, dirs, all, d);
      KeptMeaning(vol.g, Snap(v0, all), Snap(vol.v, all), dirs, dirs[d], dirs[d]);
    } else {
      all' := all[d := blks'];
      MadeOk(vol.g, v0, vol.v, dirs, all, d, blks', name, ino);
      EmptyNode(vol.g, vol.v, ino);
      MadeMeaning(vol.g, Snap(v0, all), Snap(vol.v, all'), dirs, d, name, ino);
    }
  }

  lemma StaysOne(v: Vol, v': Vol, dir: nat)
    requires SameKind(v, v', dir) && dir in v.inodes && IsDir(v.inodes[dir])
    ensures StaysDir(v, v', dir)
  {
  }

  lemma EmptyNode(g: Geometry, v: Vol, ino: nat)
    requires Whole(g, v, ino) && Content(g, v, ino) == [] && ino in v.inodes && v.inodes[ino] == NEW_FILE
    ensures NodeOf(g, v, ino) == File(ino, [])
  {
  }

  lemma DirOkAgain(g: Geometry, v: Vol, v': Vol, dir: nat, blks: Blocks, blks': Blocks)
    requires DirOk(g, v, dir, blks) && DirIs(g, v', dir, blks') && SameKind(v, v', dir) && InumIs(v', dir, true)
    requires Distinct(DirEntries(blks'))
    ensures DirOk(g, v', dir, blks')
  {
  }

  /** A directory that is named stays a directory. */
  lemma NamedDir(g: Geometry, v: Vol, v': Vol, es: seq<Entry>, dir: nat)
    requires SameKind(v, v', dir) && IsDir(v.inodes[dir]) && InumIs(v', dir, true)
    ensures NamedOk(g, v', es, dir)
  {
  }

  lemma NotMade(g: Geometry, v: Vol, v': Vol, dirs: seq<nat>, all: seq<Blocks>, d: nat)
    requires FsInv(g, v, dirs, all) && d < |dirs| && Sound(g, v') && Owned(g, v') && DirIs(g, v', dirs[d], all[d])
    requires Apart(g, v, v', dirs[d], dirs[d]) && SameKind(v, v', dirs[d]) && v'.inums == v.inums
    ensures FsInv(g, v', dirs, all)
  {
    hide Owned, Sound, DirIs, AllEntries, DirEntries, Apart, Distinct;
    InumsSame(v, v');
    DirReady(g, v, dirs, all, d);
    DirOkAgain(g, v, v', dirs[d], all[d], all[d]);
    NamedDir(g, v, v', AllEntries(all), dirs[d]);
    hide NamedOk, SameKind, InumIs, DirOk;
    Preserved(g, v, v', dirs, all, all, dirs[d], dirs[d]);
  }

  lemma MadeOk(g: Geometry, v: Vol, v': Vol, dirs: seq<nat>, all: seq<Blocks>, d: nat, blks': Blocks, name: seq<byte>,
               ino: nat)
    requires FsInv(g, v, dirs, all) && d < |dirs| && Sound(g, v') && Owned(g, v') && DirIs(g, v', dirs[d], blks')
    requires Apart(g, v, v', dirs[d], ino) && SameKind(v, v', dirs[d]) && |v'.inums.used| == |v.inums.used|
    requires InumIs(v, ino, false) && InumIs(v', ino, true) && forall j :: InumIs(v, j, true) ==> InumIs(v', j, true)
    requires Gained(DirEntries(all[d]), DirEntries(blks'), Entry(name, ino, REGULAR))
    requires Absent(DirEntries(all[d]), name)
    requires Whole(g, v', ino) && ino in v'.inodes && v'.inodes[ino] == NEW_FILE
    ensures FsInv(g, v', dirs, all[d := blks'])
  {
    hide Owned, Sound, DirIs, AllEntries, DirEntries, Apart, Distinct, Swapped, Absent, Names, Whole;
    DirReady(g, v, dirs, all, d);
    var e := Entry(name, ino, REGULAR);
    var i: nat :| Swapped(DirEntries(all[d]), DirEntries(blks'), i, [], [e]);
    InsertDistinct(DirEntries(all[d]), DirEntries(blks'), i, e);
    DirOkAgain(g, v, v', dirs[d], all[d], blks');
    var k := AllSwapped(all, d, blks', i, [], [e]);
    NamesMade(g, v, v', AllEntries(all), AllEntries(all[d := blks']), k, e, dirs[d]);
    hide NamedOk, SameKind, InumIs, DirOk;
    NoDirMade(g, v, dirs, all, ino);
    Preserved(g, v, v', dirs, all, all[d := blks'], dirs[d], ino);
  }

  lemma NoDirMade(g: Geometry, v: Vol, dirs: seq<nat>, all: seq<Blocks>, ino: nat)
    requires FsInv(g, v, dirs, all) && InumIs(v, ino, false)
    ensures forall c :: 0 <= c < |dirs| ==> dirs[c] != ino
  {
  }

  lemma NamesMade(g: Geometry, v: Vol, v': Vol, es: seq<Entry>, es': seq<Entry>, k: nat, e: Entry, dir: nat)
    requires EntriesOk(g, v, es) && Swapped(es, es', k, [], [e]) && InumIs(v, e.ino, false) && InumIs(v', e.ino, true)
    requires Whole(g, v', e.ino) && e.ino in v'.inodes && v'.inodes[e.ino] == NEW_FILE
    requires SameKind(v, v', dir) && IsDir(v.inodes[dir]) && InumIs(v', dir, true)
    ensures forall x :: x in es' ==>
      || NamedOk(g, v', es', x.ino)
      || (x.ino != dir && x.ino != e.ino && NamedOk(g, v, es, x.ino) && Names(es', x.ino) <= Names(es, x.ino))
  {
    hide Swapped, Names, Whole;
    SwappedFrom(es, es', k, [], [e]);
    NamesNone(es, e.ino);
    NamesSwapped(es, es', k, [], [e], e.ino);
    NamesOne(e, e.ino);
    assert NamedOk(g, v', es', e.ino);
    NamedDir(g, v, v', es', dir);
    forall x | x in es' && x.ino != dir && x.ino != e.ino
      ensures NamedOk(g, v, es, x.ino) && Names(es', x.ino) <= Names(es, x.ino)
    {
      NamesSwapped(es, es', k, [], [e], x.ino);
      NamesOne(e, x.ino);
    }
  }

  /** What a name leads to. */
  lemma Opened(g: Geometry, v: Vol, dirs: seq<nat>, all: seq<Blocks>, d: nat, lb: nat, off: nat)
    requires FsInv(g, v, dirs, all) && d < |dirs| && lb < |all[d]| && LiveAt(all[d][lb], off)
    ensures var ino := EntryAt(all[d][lb], off).ino;
      && IsInum(v, ino) && ino in v.inodes && NamedOk(g, v, AllEntries(all), ino)
      && (!IsDir(v.inodes[ino]) ==> Whole(g, v, ino) && forall c :: 0 <= c < |dirs| ==> dirs[c] != ino)
  {
    InAll(all, d);
    LiveIn(all[d], lb, off);
    hide DirIs, Path, AllEntries, DirEntries;
    assert EntryAt(all[d][lb], off) in AllEntries(all);
    assert forall c :: 0 <= c < |dirs| ==> DirOk(g, v, dirs[c], all[c]);
  }

  /** The file a name leads to, if it is one. */
  method Open(vol: Volume, dirs: seq<nat>, d: nat, name: seq<byte>, ghost all: seq<Blocks>) returns (ino: nat)
    requires vol.Valid() && FsInv(vol.g, vol.v, dirs, all) && d < |dirs| && |name| < 256
    ensures ino != 0 ==>
      IsInum(vol.v, ino) && ino in vol.v.inodes && !IsDir(vol.v.inodes[ino]) && Whole(vol.g, vol.v, ino)
    ensures ino != 0 ==> NamedOk(vol.g, vol.v, AllEntries(all), ino) && forall c :: 0 <= c < |dirs| ==> dirs[c] != ino
    ensures ino != 0 <==> Means(vol.g, Snap(vol.v, all), d, name).File?
    ensures ino != 0 ==>
      Means(vol.g, Snap(vol.v, all), d, name) == NodeOf(vol.g, vol.v, ino) && NodeOf(vol.g, vol.v, ino).ino == ino
  {
    hide Volume.Valid, FsInv, Sound, Owned, DirIs, DirOk, Absent, Distinct, DirEntries, NamesUsed, Whole, InumIs, Path,
      Means, NodeOf;
    DirReady(vol.g, vol.v, dirs, all, d);
    var found, lb, off := FindName(vol, dirs[d], name, all[d]);
    if !found {
      NotFound(vol.g, Snap(vol.v, all), dirs, d, name);
      return 0;
    }
    Opened(vol.g, vol.v, dirs, all, d, lb, off);
    Found(vol.g, Snap(vol.v, all), dirs, d, lb, off);
    LiveIn(all[d], lb, off);
    DirBlockAt(vol.g, vol.v, dirs[d], all[d], lb);
    var nd := vol.v.inodes[dirs[d]];
    ino := Ino(vol.v.data[At(vol.g, vol.v.data, nd, lb)], off);
    if IsDir(vol.v.inodes[ino]) { return 0; }
  }

  /** Write to a named file: as a map, every name of that file comes to lead to the bytes with a prefix of the data put
      in place. */
  method Put(vol: Volume, dirs: seq<nat>, d: nat, name: seq<byte>, off: nat, data: seq<byte>, ghost all: seq<Blocks>)
    requires vol.Valid() && FsInv(vol.g, vol.v, dirs, all) && d < |dirs| && |name| < 256
    modifies vol
    ensures vol.Valid() && FsInv(vol.g, vol.v, dirs, all)
    ensures Step(vol.g, Snap(old(vol.v), all), Snap(vol.v, all), dirs, PutFile(d, name, off, data))
  {
    hide Volume.Valid, FsInv, Sound, Owned, Whole, NamedOk, Wrote, WrotePart, NoFree, PosOf, InumIs, Means, NodeOf,
      SameMeaning, Rewritten, Content;
    DirReady(vol.g, vol.v, dirs, all, d);
    SameSelf(vol.g, Snap(vol.v, all));
    var ino := Open(vol, dirs, d, name, all);
    if ino == 0 { return; }
    ghost var v0 := vol.v;
    FileSize(vol.g, v0, ino);
    var rc := Write(vol, ino, off, data);
    if rc >= 0 && off <= v0.inodes[ino].size {
      PutOk(vol.g, v0, vol.v, dirs, all, ino, off, data[..rc]);
      PutMeaning(vol.g, Snap(v0, all), Snap(vol.v, all), dirs, ino, off, data[..rc]);
      assert PutPrefix(vol.g, Snap(v0, all), Snap(vol.v, all), NodeOf(vol.g, v0, ino), off, data, rc);
    }
  }

  lemma FileSize(g: Geometry, v: Vol, ino: nat)
    requires NodeOf(g, v, ino).File?
    ensures ino in v.inodes && |NodeOf(g, v, ino).bytes| == v.inodes[ino].size
  {
  }

  lemma PutOk(g: Geometry, v: Vol, v': Vol, dirs: seq<nat>, all: seq<Blocks>, ino: nat, off: nat, data: seq<byte>)
    requires FsInv(g, v, dirs, all) && Sound(g, v') && Owned(g, v') && v'.inums == v.inums
    requires Wrote(g, v, v', ino, off, data)
    requires ino in v.inodes && !IsDir(v.inodes[ino]) && NamedOk(g, v, AllEntries(all), ino)
    requires forall c :: 0 <= c < |dirs| ==> dirs[c] != ino
    ensures FsInv(g, v', dirs, all)
  {
    hide Sound, Owned, Whole, DirIs, AllEntries, DirEntries, Content, Written, Apart, Names, Distinct;
    InumsSame(v, v');
    assert ino in v'.inodes by { WholeInode(g, v', ino); }
    assert NamedOk(g, v', AllEntries(all), ino);
    hide DirOk, NamedOk, InumIs;
    Preserved(g, v, v', dirs, all, all, ino, ino);
  }

  lemma WholeInode(g: Geometry, v: Vol, ino: nat)
    requires Whole(g, v, ino)
    ensures ino in v.inodes
  {
  }

  /** Defragment a named file: no name leads elsewhere, and no file reads differently. */
  method Defragment(vol: Volume, dirs: seq<nat>, d: nat, name: seq<byte>, ghost all: seq<Blocks>)
    requires vol.Valid() && FsInv(vol.g, vol.v, dirs, all) && d < |dirs| && |name| < 256
    modifies vol
    ensures vol.Valid() && FsInv(vol.g, vol.v, dirs, all)
    ensures Step(vol.g, Snap(old(vol.v), all), Snap(vol.v, all), dirs, DefragFile(d, name))
  {
    hide Volume.Valid, FsInv, Sound, Owned, Whole, NamedOk, Resolved, StepsSafe, InOneRun, OldFree, HasHole, RunHere,
      Count, InumIs, Means, NodeOf, SameMeaning;
    DirReady(vol.g, vol.v, dirs, all, d);
    SameSelf(vol.g, Snap(vol.v, all));
    var ino := Open(vol, dirs, d, name, all);
    if ino == 0 { return; }
    ghost var v0 := vol.v;
    var rc := DefragOne(vol, ino);
    if rc == 1 {
      ResolvedInv(vol.g, v0, vol.v, dirs, all);
      ResolvedMeaning(vol.g, Snap(v0, all), Snap(vol.v, all), dirs);
    }
  }

  lemma ResolvedInv(g: Geometry, v: Vol, v': Vol, dirs: seq<nat>, all: seq<Blocks>)
    requires FsInv(g, v, dirs, all) && Sound(g, v') && Owned(g, v') && v'.inums == v.inums && Resolved(g, v, v')
    ensures FsInv(g, v', dirs, all)
  {
    hide Sound, Owned, AllEntries, DirEntries, Content, Names, Distinct;
    InumsSame(v, v');
    forall d | 0 <= d < |dirs|
      ensures DirOk(g, v', dirs[d], all[d])
    {
      ResolvedDir(g, v, v', dirs[d], all[d]);
    }
    hide DirOk, DirIs;
    forall e | e in AllEntries(all)
      ensures NamedOk(g, v', AllEntries(all), e.ino)
    {
      ResolvedNamed(g, v, v', AllEntries(all), e.ino);
    }
  }

  lemma ResolvedDir(g: Geometry, v: Vol, v': Vol, dir: nat, blks: Blocks)
    requires DirOk(g, v, dir, blks) && Resolved(g, v, v') && v'.inums == v.inums
    ensures DirOk(g, v', dir, blks)
  {
    hide There, BlockOf, Tiled, DirEntries, Distinct;
    assert dir in v.inodes.Keys;
  }

  lemma ResolvedNamed(g: Geometry, v: Vol, v': Vol, es: seq<Entry>, ino: nat)
    requires NamedOk(g, v, es, ino) && Resolved(g, v, v') && v'.inums == v.inums
    ensures NamedOk(g, v', es, ino)
  {
    hide There, BlockOf, Names, Content;
    assert ino in v.inodes.Keys;
    if Whole(g, v, ino) {
      ResolvedReads(g, v, v', ino);
    }
  }

  /** Unlink a name: as a map, a file's name comes to lead nowhere, and other names of the file stay. */
  method Remove(vol: Volume, dirs: seq<nat>, d: nat, name: seq<byte>, ghost all: seq<Blocks>)
    returns (ghost all': seq<Blocks>)
    requires vol.Valid() && FsInv(vol.g, vol.v, dirs, all) && d < |dirs| && |name| < 256
    modifies vol
    ensures vol.Valid() && FsInv(vol.g, vol.v, dirs, all')
    ensures Step(vol.g, Snap(old(vol.v), all), Snap(vol.v, all'), dirs, RemoveFile(d, name))
  {
    hide Volume.Valid, FsInv, Sound, Owned, DirIs, DirOk, Absent, Distinct, DirEntries, Apart, SameKind, NamesUsed,
      Lost, Whole, Content, InumIs, Gone, Holds, Means, NodeOf, SameMeaning, OneMeaning;
    ghost var v0 := vol.v;
    DirReady(vol.g, v0, dirs, all, d);
    SameSelf(vol.g, Snap(v0, all));
    all' := all;
    var rc;
    ghost var e, blks';
    rc, e, blks' := Unlink(vol, dirs[d], name, all[d]);
    if rc == 0 {
      all' := all[d := blks'];
      LostIn(vol.g, Snap(v0, all), dirs, d, blks', e);
      StaysOne(v0, vol.v, dirs[d]);
      RemovedOk(vol.g, v0, vol.v, dirs, all, d, blks', e);
      LinkNode(vol.g, v0, vol.v, dirs, all, d, e);
      RemovedMeaning(vol.g, Snap(v0, all), Snap(vol.v, all'), dirs, d, e);
    } else if rc == -3 {
      NotFound(vol.g, Snap(v0, all), dirs, d, name);
    } else if rc == -5 {
      HeldFolder(vol.g, Snap(v0, all), dirs, d, e);
    }
  }

  /** What was lost was there. */
  lemma LostIn(g: Geometry, s: Snap, dirs: seq<nat>, d: nat, blks': Blocks, e: Entry)
    requires FsInv(g, s.v, dirs, s.all) && d < |dirs| && AllTiled(blks')
    requires Lost(DirEntries(s.all[d]), DirEntries(blks'), e) && e.ino in s.v.inodes && !IsDir(s.v.inodes[e.ino])
    ensures e in DirEntries(s.all[d]) && NodeOf(g, s.v, e.ino).File? && Whole(g, s.v, e.ino)
    ensures Means(g, s, d, e.name) == NodeOf(g, s.v, e.ino)
  {
    hide AllEntries, DirEntries, DirIs, Path, Names, Content, Sound, Owned, Whole;
    var es := DirEntries(s.all[d]);
    var i: nat :| Swapped(es, DirEntries(blks'), i, [e], []);
    assert es[i] == e by { assert es[i..i + 1][0] == e; }
    assert DirOk(g, s.v, dirs[d], s.all[d]);
    MeansEntry(g, s, d, e);
    InAll(s.all, d);
    assert NamedOk(g, s.v, AllEntries(s.all), e.ino);
  }

  lemma LinkNode(g: Geometry, v: Vol, v': Vol, dirs: seq<nat>, all: seq<Blocks>, d: nat, e: Entry)
    requires e.ino in v.inodes && !IsDir(v.inodes[e.ino]) && Whole(g, v, e.ino)
    requires v.inodes[e.ino].links > 1 ==>
      && Whole(g, v', e.ino) && Content(g, v', e.ino) == Content(g, v, e.ino)
      && e.ino in v'.inodes && v'.inodes[e.ino] == v.inodes[e.ino].(links := v.inodes[e.ino].links - 1)
    requires v.inodes[e.ino].links <= 1 ==> Gone(g, v, v', e.ino)
    ensures NodeOf(g, v', e.ino) == NodeOf(g, v, e.ino) || InumIs(v', e.ino, false)
  {
    hide Whole, Content;
  }

  lemma HeldFolder(g: Geometry, s: Snap, dirs: seq<nat>, d: nat, e: Entry)
    requires FsInv(g, s.v, dirs, s.all) && d < |dirs| && Holds(s.all[d], e) && e.ino in s.v.inodes
    requires IsDir(s.v.inodes[e.ino])
    ensures Means(g, s, d, e.name).Folder?
  {
    hide FsInv, Path, DirEntries, Means;
    var lb: nat, off: nat :| lb < |s.all[d]| && LiveAt(s.all[d][lb], off) && EntryAt(s.all[d][lb], off) == e;
    Found(g, s, dirs, d, lb, off);
  }

  /** The removed entry's file, if it is still there, has as many links as names left. */
  ghost predicate LinkLess(g: Geometry, v: Vol, v': Vol, ino: nat) {
    && ino in v.inodes
    && (v.inodes[ino].links > 1 ==>
          && ino in v'.inodes && v'.inodes[ino] == v.inodes[ino].(links := v.inodes[ino].links - 1)
             && v'.inums == v.inums
          && (Whole(g, v, ino) ==> Whole(g, v', ino)))
  }

  lemma RemovedOk(g: Geometry, v: Vol, v': Vol, dirs: seq<nat>, all: seq<Blocks>, d: nat, blks': Blocks, e: Entry)
    requires FsInv(g, v, dirs, all) && d < |dirs| && Sound(g, v') && Owned(g, v') && DirIs(g, v', dirs[d], blks')
    requires Apart(g, v, v', dirs[d], e.ino) && SameKind(v, v', dirs[d]) && |v'.inums.used| == |v.inums.used|
    requires e.ino != dirs[d]
    requires Lost(DirEntries(all[d]), DirEntries(blks'), e) && e.ino in v.inodes && !IsDir(v.inodes[e.ino])
    requires (forall j :: j != e.ino && InumIs(v, j, true) ==> InumIs(v', j, true)) && LinkLess(g, v, v', e.ino)
    ensures FsInv(g, v', dirs, all[d := blks'])
  {
    hide Owned, Sound, DirIs, AllEntries, DirEntries, Apart, Distinct, Swapped, Names, Whole, LinkLess;
    DirReady(g, v, dirs, all, d);
    var i: nat :| Swapped(DirEntries(all[d]), DirEntries(blks'), i, [e], []);
    RemoveDistinct(DirEntries(all[d]), DirEntries(blks'), i, e);
    DirOkAgain(g, v, v', dirs[d], all[d], blks');
    var k := AllSwapped(all, d, blks', i, [e], []);
    NamesRemoved(g, v, v', AllEntries(all), AllEntries(all[d := blks']), k, e, dirs[d]);
    assert forall c :: 0 <= c < |dirs| ==> DirOk(g, v, dirs[c], all[c]) && dirs[c] != e.ino;
    hide NamedOk, SameKind, InumIs, DirOk;
    Preserved(g, v, v', dirs, all, all[d := blks'], dirs[d], e.ino);
  }

  lemma NamesRemoved(g: Geometry, v: Vol, v': Vol, es: seq<Entry>, es': seq<Entry>, k: nat, e: Entry, dir: nat)
    requires EntriesOk(g, v, es) && Swapped(es, es', k, [e], []) && e.ino in v.inodes && !IsDir(v.inodes[e.ino])
    requires SameKind(v, v', dir) && IsDir(v.inodes[dir]) && InumIs(v', dir, true) && LinkLess(g, v, v', e.ino)
    ensures forall x :: x in es' ==>
      || NamedOk(g, v', es', x.ino)
      || (x.ino != dir && x.ino != e.ino && NamedOk(g, v, es, x.ino) && Names(es', x.ino) <= Names(es, x.ino))
  {
    hide Swapped, Names, Whole;
    SwappedFrom(es, es', k, [e], []);
    assert e in [e];
    assert NamedOk(g, v, es, e.ino);
    NamesSwapped(es, es', k, [e], [], e.ino);
    NamesOne(e, e.ino);
    NamesNone(es', e.ino);
    NamedDir(g, v, v', es', dir);
    forall x | x in es' && x.ino != dir && x.ino != e.ino
      ensures NamedOk(g, v, es, x.ino) && Names(es', x.ino) <= Names(es, x.ino)
    {
      NamesSwapped(es, es', k, [e], [], x.ino);
      NamesOne(e, x.ino);
    }
    forall x | x in es' && x.ino == e.ino
      ensures NamedOk(g, v', es', x.ino)
    {
      LinkLeft(g, v, v', es, es', e.ino);
    }
  }

  lemma LinkLeft(g: Geometry, v: Vol, v': Vol, es: seq<Entry>, es': seq<Entry>, ino: nat)
    requires NamedOk(g, v, es, ino) && !IsDir(v.inodes[ino]) && LinkLess(g, v, v', ino)
    requires Names(es', ino) == Names(es, ino) - 1 && Names(es', ino) > 0
    ensures NamedOk(g, v', es', ino)
  {
    hide Names, Whole;
    InumsSame(v, v');
  }

  /** Rename a file, unless the new name is taken: as a map, the new name comes to lead where the old one led, and the
      old one nowhere. */
  method Move(vol: Volume, dirs: seq<nat>, d: nat, name: seq<byte>, d2: nat, name2: seq<byte>, sameNode: bool,
              ghost all: seq<Blocks>)
    returns (ghost all': seq<Blocks>)
    requires vol.Valid() && FsInv(vol.g, vol.v, dirs, all) && d < |dirs| && d2 < |dirs| && (sameNode ==> d == d2)
    requires |name| < 256 && |name2| < 256
    modifies vol
    ensures vol.Valid() && FsInv(vol.g, vol.v, dirs, all')
    ensures Step(vol.g, Snap(old(vol.v), all), Snap(vol.v, all'), dirs, MoveFile(d, name, d2, name2, sameNode))
  {
    hide Volume.Valid, FsInv, Sound, Owned, DirIs, DirOk, Absent, Distinct, DirEntries, Apart, SameKind, NamesUsed,
      NamesInodes, Lost, Gained, Relabelled, InumIs, NoPlace, Means, NodeOf, SameMeaning, Carried;
    ghost var v0 := vol.v;
    all' := all;
    DirReady(vol.g, v0, dirs, all, d);
    DirReady(vol.g, v0, dirs, all, d2);
    SameSelf(vol.g, Snap(v0, all));
    var taken, lb, off := FindName(vol, dirs[d2], name2, all[d2]);
    if taken {
      Found(vol.g, Snap(v0, all), dirs, d2, lb, off);
      return;
    }
    NotFound(vol.g, Snap(v0, all), dirs, d2, name2);
    DirsApart(vol.g, v0, dirs, all, d, d2);
    var rc;
    ghost var e, blksO, blksN;
    ghost var block, at;
    rc, e, blksO, blksN, block, at := Rename(vol, dirs[d], name, dirs[d2], name2, sameNode, all[d], all[d2]);
    all' := all[d := blksO][d2 := blksN];
    StaysOne(v0, vol.v, dirs[d]);
    StaysOne(v0, vol.v, dirs[d2]);
    if rc != 0 {
      assert all' == all;
      StillNamed(vol.g, v0, vol.v, dirs, all, all, d, d2);
      KeptMeaning(vol.g, Snap(v0, all), Snap(vol.v, all), dirs, dirs[d2], dirs[d]);
      if rc == -3 {
        NotFound(vol.g, Snap(v0, all), dirs, d, name);
      } else if rc == -5 || rc == -7 {
        Found(vol.g, Snap(v0, all), dirs, d, block, at);
      }
      return;
    }
    Found(vol.g, Snap(v0, all), dirs, d, block, at);
    if d == d2 {
      assert all' == all[d := blksO];
      RelabelledAll(all, d, blksO, e, Entry(name2, e.ino, e.kind));
    } else {
      assert all[d := blksO][d2] == all[d2];
      CarriedAll(all, d, d2, blksO, blksN, e, Entry(name2, e.ino, e.kind));
    }
    StillNamed(vol.g, v0, vol.v, dirs, all, all', d, d2);
    MovedMeaning(vol.g, Snap(v0, all), Snap(vol.v, all'), dirs, d, d2, e, Entry(name2, e.ino, e.kind));
  }

  /** Every inode is named as often as before. */
  ghost predicate SameNames(es: seq<Entry>, es': seq<Entry>) { forall ino :: Names(es', ino) == Names(es, ino) }

  /** Changing one directory changes the count of names by what changed there. */
  lemma AllNames(all: seq<Blocks>, d: nat, blks: Blocks, ino: nat)
    requires EachTiled(all) && d < |all| && AllTiled(blks)
    ensures EachTiled(all[d := blks])
    ensures Names(AllEntries(all[d := blks]), ino)
         == Names(AllEntries(all), ino) - Names(DirEntries(all[d]), ino) + Names(DirEntries(blks), ino)
  {
    hide AllTiled, DirEntries, AllEntries, Names;
    var all' := all[d := blks];
    AllSplit(all, d);
    AllSplit(all', d);
    assert all'[..d] == all[..d] && all'[d + 1..] == all[d + 1..];
    var p, q := AllEntries(all[..d]), AllEntries(all[d + 1..]);
    NamesJoin(p, DirEntries(all[d]), ino);
    NamesJoin(p + DirEntries(all[d]), q, ino);
    NamesJoin(p, DirEntries(blks), ino);
    NamesJoin(p + DirEntries(blks), q, ino);
  }

  lemma RelabelledNames(es: seq<Entry>, es': seq<Entry>, e: Entry, e': Entry, ino: nat)
    requires Relabelled(es, es', e, e') && e'.ino == e.ino
    ensures Names(es', ino) == Names(es, ino)
  {
    hide Swapped, Names;
    NamesOne(e, ino);
    NamesOne(e', ino);
    if i: nat :| Swapped(es, es', i, [e], [e']) {
      NamesSwapped(es, es', i, [e], [e'], ino);
    } else {
      var mid, i: nat, j: nat :| Swapped(es, mid, i, [], [e']) && Swapped(mid, es', j, [e], []);
      NamesSwapped(es, mid, i, [], [e'], ino);
      NamesSwapped(mid, es', j, [e], [], ino);
    }
  }

  lemma RelabelledDistinct(es: seq<Entry>, es': seq<Entry>, e: Entry, e': Entry)
    requires Relabelled(es, es', e, e') && Distinct(es) && Absent(es, e'.name)
    ensures Distinct(es')
  {
    hide Swapped, Distinct, Absent;
    if i: nat :| Swapped(es, es', i, [e], [e']) {
      ReplaceDistinct(es, es', i, e, e');
    } else {
      var mid, i: nat, j: nat :| Swapped(es, mid, i, [], [e']) && Swapped(mid, es', j, [e], []);
      InsertDistinct(es, mid, i, e');
      RemoveDistinct(mid, es', j, e);
    }
  }

  lemma ReplaceDistinct(es: seq<Entry>, es': seq<Entry>, i: nat, e: Entry, e': Entry)
    requires Swapped(es, es', i, [e], [e']) && Distinct(es) && Absent(es, e'.name)
    ensures Distinct(es')
  {
    assert |es'| == |es| && forall k :: 0 <= k < |es| ==> es'[k] == if k == i then e' else es[k];
    hide Swapped;
  }

  lemma RelabelledAll(all: seq<Blocks>, d: nat, blks: Blocks, e: Entry, e': Entry)
    requires EachTiled(all) && d < |all| && AllTiled(blks) && Relabelled(DirEntries(all[d]), DirEntries(blks), e, e')
    requires e'.ino == e.ino
    requires Distinct(DirEntries(all[d])) && Absent(DirEntries(all[d]), e'.name)
    ensures EachTiled(all[d := blks]) && SameNames(AllEntries(all), AllEntries(all[d := blks]))
    ensures Distinct(DirEntries(blks))
  {
    hide AllTiled, DirEntries, AllEntries, Names, Relabelled, Distinct, Absent;
    RelabelledDistinct(DirEntries(all[d]), DirEntries(blks), e, e');
    AllNames(all, d, blks, 0);
    forall ino: nat
      ensures Names(AllEntries(all[d := blks]), ino) == Names(AllEntries(all), ino)
    {
      AllNames(all, d, blks, ino);
      RelabelledNames(DirEntries(all[d]), DirEntries(blks), e, e', ino);
    }
  }

  /** One directory loses an entry and another gains it under a new name. */
  lemma CarriedAll(all: seq<Blocks>, d: nat, d2: nat, blksO: Blocks, blksN: Blocks, e: Entry, e': Entry)
    requires EachTiled(all) && d < |all| && d2 < |all| && d != d2 && AllTiled(blksO) && AllTiled(blksN)
    requires e'.ino == e.ino
    requires Lost(DirEntries(all[d]), DirEntries(blksO), e) && Gained(DirEntries(all[d2]), DirEntries(blksN), e')
    requires Distinct(DirEntries(all[d])) && Distinct(DirEntries(all[d2])) && Absent(DirEntries(all[d2]), e'.name)
    ensures EachTiled(all[d := blksO][d2 := blksN])
    ensures SameNames(AllEntries(all), AllEntries(all[d := blksO][d2 := blksN]))
    ensures Distinct(DirEntries(blksO)) && Distinct(DirEntries(blksN))
  {
    hide AllTiled, DirEntries, AllEntries, Names, Distinct, Absent, Swapped;
    var mid := all[d := blksO];
    var i: nat :| Swapped(DirEntries(all[d]), DirEntries(blksO), i, [e], []);
    var j: nat :| Swapped(DirEntries(all[d2]), DirEntries(blksN), j, [], [e']);
    RemoveDistinct(DirEntries(all[d]), DirEntries(blksO), i, e);
    InsertDistinct(DirEntries(all[d2]), DirEntries(blksN), j, e');
    AllNames(all, d, blksO, 0);
    AllNames(mid, d2, blksN, 0);
    forall ino: nat
      ensures Names(AllEntries(mid[d2 := blksN]), ino) == Names(AllEntries(all), ino)
    {
      AllNames(all, d, blksO, ino);
      AllNames(mid, d2, blksN, ino);
      NamesSwapped(DirEntries(all[d]), DirEntries(blksO), i, [e], [], ino);
      NamesSwapped(DirEntries(all[d2]), DirEntries(blksN), j, [], [e'], ino);
      NamesOne(e, ino);
      NamesOne(e', ino);
    }
  }

  /** Directories rewritten without a change in who is named how often. */
  lemma StillNamed(g: Geometry, v: Vol, v': Vol, dirs: seq<nat>, all: seq<Blocks>, all': seq<Blocks>, d: nat, d2: nat)
    requires FsInv(g, v, dirs, all) && d < |dirs| && d2 < |dirs| && Sound(g, v') && Owned(g, v') && v'.inums == v.inums
    requires Apart(g, v, v', dirs[d2], dirs[d]) && SameKind(v, v', dirs[d]) && SameKind(v, v', dirs[d2])
    requires EachTiled(all') && |all'| == |all| && forall c :: 0 <= c < |all| && c != d && c != d2 ==> all'[c] == all[c]
    requires DirIs(g, v', dirs[d], all'[d]) && DirIs(g, v', dirs[d2], all'[d2])
    requires Distinct(DirEntries(all'[d])) && Distinct(DirEntries(all'[d2]))
    requires SameNames(AllEntries(all), AllEntries(all'))
    ensures FsInv(g, v', dirs, all')
  {
    hide Owned, Sound, DirIs, AllEntries, DirEntries, Apart, Distinct, Names;
    InumsSame(v, v');
    DirReady(g, v, dirs, all, d);
    DirReady(g, v, dirs, all, d2);
    DirOkAgain(g, v, v', dirs[d], all[d], all'[d]);
    DirOkAgain(g, v, v', dirs[d2], all[d2], all'[d2]);
    NamedDir(g, v, v', AllEntries(all'), dirs[d]);
    NamedDir(g, v, v', AllEntries(all'), dirs[d2]);
    forall x | x in AllEntries(all')
      ensures NamedOk(g, v, AllEntries(all), x.ino) && Names(AllEntries(all'), x.ino) <= Names(AllEntries(all), x.ino)
    {
      NamedBefore(g, v, AllEntries(all), AllEntries(all'), x);
    }
    assert forall c :: 0 <= c < |dirs| && c != d && c != d2 ==> dirs[c] != dirs[d] && dirs[c] != dirs[d2];
    hide NamedOk, SameKind, InumIs, DirOk;
    Preserved(g, v, v', dirs, all, all', dirs[d2], dirs[d]);
  }

  lemma NamedBefore(g: Geometry, v: Vol, es: seq<Entry>, es': seq<Entry>, x: Entry)
    requires EntriesOk(g, v, es) && SameNames(es, es') && x in es'
    ensures NamedOk(g, v, es, x.ino)
  {
    hide NamedOk, Names;
    NamesNone(es, x.ino);
    NamesNone(es', x.ino);
    assert Names(es', x.ino) == Names(es, x.ino);
    var i :| 0 <= i < |es'| && es'[i] == x;
    var k :| 0 <= k < |es| && es[k].ino == x.ino;
    assert es[k] in es;
  }

  lemma DirsApart(g: Geometry, v: Vol, dirs: seq<nat>, all: seq<Blocks>, c: nat, d: nat)
    requires FsInv(g, v, dirs, all) && c < |dirs| && d < |dirs|
    ensures dirs[c] == dirs[d] ==> c == d
  {
  }

  // ----- runs

  /** The states of a run, each sound, and each reached from the one before as its operation says. */
  ghost predicate Trace(g: Geometry, dirs: seq<nat>, states: seq<Snap>, ops: seq<Op>) {
    && |states| == |ops| + 1 && (forall k :: 0 <= k < |ops| ==> Sane(ops[k], |dirs|))
    && (forall k :: 0 <= k < |states| ==> FsInv(g, states[k].v, dirs, states[k].all))
    && (forall k :: 0 <= k < |ops| ==> Step(g, states[k], states[k + 1], dirs, ops[k]))
  }

  lemma TraceFirst(g: Geometry, dirs: seq<nat>, s: Snap)
    requires FsInv(g, s.v, dirs, s.all)
    ensures Trace(g, dirs, [s], [])
  {
    hide FsInv;
  }

  lemma TraceMore(g: Geometry, dirs: seq<nat>, states: seq<Snap>, ops: seq<Op>, s: Snap, op: Op)
    requires Trace(g, dirs, states, ops) && FsInv(g, s.v, dirs, s.all) && Sane(op, |dirs|)
    requires Step(g, states[|ops|], s, dirs, op)
    ensures Trace(g, dirs, states + [s], ops + [op])
  {
    hide FsInv, Step, Sane;
    var states', ops' := states + [s], ops + [op];
    forall k | 0 <= k < |states'|
      ensures FsInv(g, states'[k].v, dirs, states'[k].all)
    {
      assert k < |states| ==> states'[k] == states[k];
    }
    forall k | 0 <= k < |ops'|
      ensures Sane(ops'[k], |dirs|) && Step(g, states'[k], states'[k + 1], dirs, ops'[k])
    {
      assert states'[k] == states[k];
      assert k < |ops| ==> states'[k + 1] == states[k + 1] && ops'[k] == ops[k];
    }
  }

  method Perform(vol: Volume, dirs: seq<nat>, op: Op, ghost all: seq<Blocks>) returns (ghost all': seq<Blocks>)
    requires vol.Valid() && FsInv(vol.g, vol.v, dirs, all) && Sane(op, |dirs|)
    modifies vol
    ensures vol.Valid() && FsInv(vol.g, vol.v, dirs, all')
    ensures Step(vol.g, Snap(old(vol.v), all), Snap(vol.v, all'), dirs, op)
  {
    hide Volume.Valid, FsInv, Step;
    match op {
      case MakeFile(d, name) =>
        var ino;
        ino, all' := Make(vol, dirs, d, name, all);
      case PutFile(d, name, off, data) =>
        Put(vol, dirs, d, name, off, data, all);
        all' := all;
      case MoveFile(d, name, d2, name2, sameNode) => all' := Move(vol, dirs, d, name, d2, name2, sameNode, all);
      case RemoveFile(d, name) => all' := Remove(vol, dirs, d, name, all);
      case DefragFile(d, name) =>
        Defragment(vol, dirs, d, name, all);
        all' := all;
    }
  }

  /** Over every run: both accounting laws, single ownership of every block, directories tiled by records with no name
      twice, and every name leading to an inode in use with links enough and no hole; and every operation does to the
      map from names to files exactly what it says. */
  method Run(vol: Volume, dirs: seq<nat>, ops: seq<Op>, ghost all: seq<Blocks>)
    returns (ghost all': seq<Blocks>, ghost states: seq<Snap>)
    requires vol.Valid() && FsInv(vol.g, vol.v, dirs, all) && forall i :: 0 <= i < |ops| ==> Sane(ops[i], |dirs|)
    modifies vol
    ensures vol.Valid() && FsInv(vol.g, vol.v, dirs, all')
    ensures Trace(vol.g, dirs, states, ops) && |states| == |ops| + 1 && states[0] == Snap(old(vol.v), all)
    ensures states[|ops|] == Snap(vol.v, all')
  {
    hide Volume.Valid, FsInv, Step, Trace, Sane, EachTiled;
    all' := all;
    TraceFirst(vol.g, dirs, Snap(vol.v, all));
    states := [Snap(vol.v, all)];
    for i := 0 to |ops|
      invariant vol.Valid() && FsInv(vol.g, vol.v, dirs, all')
      invariant |states| > 0 && Trace(vol.g, dirs, states, ops[..i])
      invariant states[0] == Snap(old(vol.v), all)
      invariant |states| == i + 1 && states[i] == Snap(vol.v, all')
    {
      all' := Perform(vol, dirs, ops[i], all');
      TraceMore(vol.g, dirs, states, ops[..i], Snap(vol.v, all'), ops[i]);
      states := states + [Snap(vol.v, all')];
      assert ops[..i + 1] == ops[..i] + [ops[i]];
    }
    assert ops[..|ops|] == ops;
  }
}
