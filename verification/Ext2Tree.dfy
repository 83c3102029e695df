/** The invariant of an ext2 volume with any number of directories: how often each inode is named, and what every named
    inode is. */
module Ext2Tree {
  import opened Words
  import opened BlockStore
  import opened Products
  import opened Ext2Pool
  import opened Ext2Volume
  import opened Ext2Map
  import opened Ext2Files
  import opened Ext2Write
  import opened Ext2Dirents
  import opened Ext2Dirs
  import opened Ext2Ops
  import opened Ext2Defrag

  type Blocks = seq<seq<byte>>

  ghost predicate EachTiled(all: seq<Blocks>) { forall d :: 0 <= d < |all| ==> AllTiled(all[d]) }

  /** The live entries of all directories. */
  ghost function AllEntries(all: seq<Blocks>): seq<Entry>
    requires EachTiled(all)
  {
    if all == [] then [] else AllEntries(all[..|all| - 1]) + DirEntries(all[|all| - 1])
  }

  lemma {:induction false} AllSplit(all: seq<Blocks>, d: nat)
    requires EachTiled(all) && d < |all|
    ensures AllEntries(all) == AllEntries(all[..d]) + DirEntries(all[d]) + AllEntries(all[d + 1..])
  {
    hide AllTiled, DirEntries;
    var n := |all| - 1;
    if d == n {
      assert all[d + 1..] == [] && AllEntries(all[d + 1..]) == [];
    } else {
      AllSplit(all[..n], d);
      var rest := all[d + 1..];
      assert all[..n][..d] == all[..d] && all[..n][d + 1..] == rest[..|rest| - 1] && rest[|rest| - 1] == all[n];
      Assoc(AllEntries(all[..d]) + DirEntries(all[d]), AllEntries(rest[..|rest| - 1]), DirEntries(all[n]));
    }
  }

  /** A swap in one directory is a swap among all entries. */
  lemma AllSwapped(all: seq<Blocks>, d: nat, blks: Blocks, i: nat, was: seq<Entry>, now: seq<Entry>) returns (k: nat)
    requires EachTiled(all) && d < |all| && AllTiled(blks) && Swapped(DirEntries(all[d]), DirEntries(blks), i, was, now)
    ensures EachTiled(all[d := blks]) && Swapped(AllEntries(all), AllEntries(all[d := blks]), k, was, now)
  {
    hide AllTiled, DirEntries, AllEntries;
    var all' := all[d := blks];
    AllSplit(all, d);
    AllSplit(all', d);
    assert all'[..d] == all[..d] && all'[d + 1..] == all[d + 1..];
    var es := DirEntries(all[d]);
    var p, q := AllEntries(all[..d]), AllEntries(all[d + 1..]);
    k := |p| + i;
    assert es == es[..i] + was + es[i + |was|..];
    SwappedAround(p, es[..i], was, now, es[i + |was|..], q);
  }

  // ----- how often an inode is named

  ghost function Names(es: seq<Entry>, ino: nat): nat {
    if es == [] then 0 else Names(es[..|es| - 1], ino) + (if es[|es| - 1].ino == ino then 1 else 0)
  }

  lemma {:induction false} NamesJoin(x: seq<Entry>, y: seq<Entry>, ino: nat)
    ensures Names(x + y, ino) == Names(x, ino) + Names(y, ino)
  {
    if y == [] {
      assert x + y == x;
    } else {
      var n := |y| - 1;
      NamesJoin(x, y[..n], ino);
      assert (x + y)[..|x + y| - 1] == x + y[..n];
    }
  }

  lemma NamesSwapped(es: seq<Entry>, es': seq<Entry>, i: nat, was: seq<Entry>, now: seq<Entry>, ino: nat)
    requires Swapped(es, es', i, was, now)
    ensures Names(es', ino) == Names(es, ino) - Names(was, ino) + Names(now, ino)
  {
    hide Names;
    var a, b := es[..i], es[i + |was|..];
    assert es == a + was + b;
    NamesJoin(a, was, ino);
    NamesJoin(a + was, b, ino);
    NamesJoin(a, now, ino);
    NamesJoin(a + now, b, ino);
  }

  lemma NamesOne(e: Entry, ino: nat)
    ensures Names([e], ino) == (if e.ino == ino then 1 else 0) && Names([], ino) == 0
  {
    assert [e][..0] == [];
  }

  lemma {:induction false} NamesNone(es: seq<Entry>, ino: nat)
    ensures Names(es, ino) == 0 <==> forall i :: 0 <= i < |es| ==> es[i].ino != ino
  {
    if es != [] {
      NamesNone(es[..|es| - 1], ino);
    }
  }

  /** Entries of a swapped list come from the old one or are new. */
  lemma SwappedFrom(es: seq<Entry>, es': seq<Entry>, i: nat, was: seq<Entry>, now: seq<Entry>)
    requires Swapped(es, es', i, was, now)
    ensures forall e :: e in es' ==> e in es || e in now
    ensures forall e :: e in was ==> e in es
  {
    assert forall e :: e in es[i..i + |was|] ==> e in es;
  }

  // ----- the invariant of the volume

  /** An inode that is named is in use; if it is a file, it has no hole, and at least as many links as names. */
  ghost predicate NamedOk(g: Geometry, v: Vol, es: seq<Entry>, ino: nat) {
    && InumIs(v, ino, true) && ino in v.inodes
    && (IsDir(v.inodes[ino]) || (Whole(g, v, ino) && Names(es, ino) <= v.inodes[ino].links))
  }

  ghost predicate EntriesOk(g: Geometry, v: Vol, es: seq<Entry>) { forall e :: e in es ==> NamedOk(g, v, es, e.ino) }

  /** Directory `d` is on the volume, is a directory, is in use, and no name occurs twice in it. */
  ghost predicate DirOk(g: Geometry, v: Vol, dir: nat, blks: Blocks)
    ensures DirOk(g, v, dir, blks) ==> DirIs(g, v, dir, blks) && AllTiled(blks) && InumIs(v, dir, true)
  {
    && DirIs(g, v, dir, blks) && IsDir(v.inodes[dir]) && InumIs(v, dir, true) && Distinct(DirEntries(blks))
  }

  ghost predicate DirsOk(g: Geometry, v: Vol, dirs: seq<nat>, all: seq<Blocks>) {
    && |dirs| == |all| && (forall d :: 0 <= d < |dirs| ==> DirOk(g, v, dirs[d], all[d]))
    && (forall c, d :: 0 <= c < d < |dirs| ==> dirs[c] != dirs[d])
  }

  /** Both accounting laws, single ownership of blocks, well-formed directories, and names that mean something. */
  ghost predicate FsInv(g: Geometry, v: Vol, dirs: seq<nat>, all: seq<Blocks>)
    ensures FsInv(g, v, dirs, all) ==> EachTiled(all) && |dirs| == |all|
  {
    && Sound(g, v) && Owned(g, v) && |v.inums.used| < 0x1_0000_0000 && DirsOk(g, v, dirs, all) && EachTiled(all)
    && EntriesOk(g, v, AllEntries(all))
  }

  /** A directory's own entries are among all entries. */
  lemma InAll(all: seq<Blocks>, d: nat)
    requires EachTiled(all) && d < |all|
    ensures forall e :: e in DirEntries(all[d]) ==> e in AllEntries(all)
  {
    hide DirEntries, AllEntries;
    AllSplit(all, d);
  }

  /** A live record's entry is among the directory's entries. */
  lemma LiveIn(blks: Blocks, lb: nat, k: nat)
    requires AllTiled(blks) && lb < |blks| && LiveAt(blks[lb], k)
    ensures EntryAt(blks[lb], k) in DirEntries(blks)
  {
    var b := blks[lb];
    BeforeAndAfter(b, k, k + RecLen(b, k));
    assert EntryAt(b, k) in Here(b, k);
    hide Path, Between, DirEntries;
    DirSplit(blks, lb);
  }

  /** What the operations ask of a directory. */
  lemma DirReady(g: Geometry, v: Vol, dirs: seq<nat>, all: seq<Blocks>, d: nat)
    requires FsInv(g, v, dirs, all) && d < |dirs|
    ensures Sound(g, v) && Owned(g, v) && DirOk(g, v, dirs[d], all[d]) && DirIs(g, v, dirs[d], all[d])
    ensures IsDir(v.inodes[dirs[d]]) && NamesUsed(v, all[d]) && NamesInodes(v, all[d]) && Distinct(DirEntries(all[d]))
    ensures |v.inums.used| < 0x1_0000_0000
  {
    hide DirIs, Path, Owned, Sound, NamedOk, AllEntries, DirEntries;
    InAll(all, d);
    forall lb: nat, k: nat | lb < |all[d]| && LiveAt(all[d][lb], k)
      ensures InumIs(v, EntryAt(all[d][lb], k).ino, true)
    {
      LiveIn(all[d], lb, k);
      NamedUsed(g, v, AllEntries(all), EntryAt(all[d][lb], k).ino);
    }
    UsedInodes(v, all[d]);
  }

  lemma NamedUsed(g: Geometry, v: Vol, es: seq<Entry>, ino: nat)
    requires NamedOk(g, v, es, ino)
    ensures InumIs(v, ino, true)
  {
  }

  /** What is left to show after an operation that disturbed at most inodes `a` and `b`. */
  lemma Preserved(g: Geometry, v: Vol, v': Vol, dirs: seq<nat>, all: seq<Blocks>, all': seq<Blocks>, a: nat, b: nat)
    requires FsInv(g, v, dirs, all) && Sound(g, v') && Owned(g, v') && Apart(g, v, v', a, b) && EachTiled(all')
    requires |all'| == |dirs| && forall d :: 0 <= d < |dirs| ==>
      DirOk(g, v', dirs[d], all'[d]) || (all'[d] == all[d] && dirs[d] != a && dirs[d] != b)
    requires forall j :: j != a && j != b && InumIs(v, j, true) ==> InumIs(v', j, true)
    requires forall e :: e in AllEntries(all') ==>
      || NamedOk(g, v', AllEntries(all'), e.ino)
      || (e.ino != a && e.ino != b && NamedOk(g, v, AllEntries(all), e.ino)
        && Names(AllEntries(all'), e.ino) <= Names(AllEntries(all), e.ino))
    ensures FsInv(g, v', dirs, all')
  {
    hide AllEntries, DirEntries, Owned, Sound, DirIs, Names, Content;
    forall d | 0 <= d < |dirs|
      ensures DirOk(g, v', dirs[d], all'[d])
    {
      if !DirOk(g, v', dirs[d], all'[d]) {
        DirStays(g, v, v', a, b, dirs[d], all[d]);
      }
    }
    forall e | e in AllEntries(all')
      ensures NamedOk(g, v', AllEntries(all'), e.ino)
    {
      if !NamedOk(g, v', AllEntries(all'), e.ino) {
        NamedStays(g, v, v', a, b, AllEntries(all), AllEntries(all'), e.ino);
      }
    }
  }

  lemma DirStays(g: Geometry, v: Vol, v': Vol, a: nat, b: nat, dir: nat, blks: Blocks)
    requires DirOk(g, v, dir, blks) && Apart(g, v, v', a, b) && dir != a && dir != b && InumIs(v', dir, true)
    ensures DirOk(g, v', dir, blks)
  {
    ApartDir(g, v, v', a, b, dir, blks);
    assert dir in v.inodes.Keys;
  }

  lemma NamedStays(g: Geometry, v: Vol, v': Vol, a: nat, b: nat, es: seq<Entry>, es': seq<Entry>, ino: nat)
    requires NamedOk(g, v, es, ino) && Apart(g, v, v', a, b) && ino != a && ino != b && InumIs(v', ino, true)
    requires Names(es', ino) <= Names(es, ino)
    ensures NamedOk(g, v', es', ino)
  {
    assert ino in v.inodes.Keys;
    if Whole(g, v, ino) {
      ApartFiles(g, v, v', a, b, ino);
    }
  }
}
