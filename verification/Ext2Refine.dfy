/** What an ext2 volume looks like from outside: for every directory and name, the folder or the file's bytes it leads
    to, and what each operation does to that map. Two names of one file lead to the same inode. */
module Ext2Refine {
  import opened Words
  import opened BlockStore
  import opened Ext2Volume
  import opened Ext2Map
  import opened Ext2Files
  import opened Ext2Write
  import opened Ext2Dirents
  import opened Ext2Dirs
  import opened Ext2Ops
  import opened Ext2Defrag
  import opened Ext2Tree

  datatype Node = Nothing | Folder(ino: nat) | File(ino: nat, bytes: seq<byte>)

  ghost function NodeOf(g: Geometry, v: Vol, ino: nat): Node {
    if ino in v.inodes && IsDir(v.inodes[ino]) then Folder(ino)
    else if Whole(g, v, ino) then File(ino, Content(g, v, ino)) else Nothing
  }

  /** The entries as a map; with distinct names it is the only one. */
  ghost function DirMap(es: seq<Entry>): map<seq<byte>, nat> {
    if es == [] then map[] else DirMap(es[..|es| - 1])[es[|es| - 1].name := es[|es| - 1].ino]
  }

  lemma {:induction false} DirMaps(es: seq<Entry>)
    requires Distinct(es)
    ensures Maps(es, DirMap(es))
  {
    if es != [] {
      var n := |es| - 1;
      DirMaps(es[..n]);
      assert forall i :: 0 <= i < n ==> es[..n][i] == es[i];
    }
  }

  lemma MapsOne(es: seq<Entry>, m: map<seq<byte>, nat>, m': map<seq<byte>, nat>)
    requires Maps(es, m) && Maps(es, m')
    ensures m == m'
  {
    forall n | n in m ensures n in m' && m'[n] == m[n] {
      var i :| 0 <= i < |es| && es[i].name == n;
    }
    forall n | n in m' ensures n in m {
      var i :| 0 <= i < |es| && es[i].name == n;
    }
  }

  /** What the name leads to. */
  ghost function Means(g: Geometry, s: Snap, d: nat, name: seq<byte>): Node
    requires EachTiled(s.all) && d < |s.all|
  {
    var m := DirMap(DirEntries(s.all[d]));
    if name in m then NodeOf(g, s.v, m[name]) else Nothing
  }

  /** A state of the volume: its records, and the blocks of its directories. */
  datatype Snap = Snap(v: Vol, all: seq<Blocks>)

  lemma MeansEntry(g: Geometry, s: Snap, d: nat, e: Entry)
    requires EachTiled(s.all) && d < |s.all| && Distinct(DirEntries(s.all[d])) && e in DirEntries(s.all[d])
    ensures Means(g, s, d, e.name) == NodeOf(g, s.v, e.ino)
  {
    DirMaps(DirEntries(s.all[d]));
  }

  lemma MeansNothing(g: Geometry, s: Snap, d: nat, name: seq<byte>)
    requires EachTiled(s.all) && d < |s.all| && Distinct(DirEntries(s.all[d])) && Absent(DirEntries(s.all[d]), name)
    ensures Means(g, s, d, name) == Nothing
  {
    DirMaps(DirEntries(s.all[d]));
  }

  /** What a name leads to is an inode in use. */
  lemma MeansNamed(g: Geometry, s: Snap, dirs: seq<nat>, d: nat, name: seq<byte>)
    requires FsInv(g, s.v, dirs, s.all) && d < |dirs|
    ensures var m := DirMap(DirEntries(s.all[d]));
      name in m ==> NamedOk(g, s.v, AllEntries(s.all), m[name])
  {
    hide AllEntries, DirEntries, NamedOk, DirIs, Sound, Owned;
    var es := DirEntries(s.all[d]);
    assert DirOk(g, s.v, dirs[d], s.all[d]);
    DirMaps(es);
    InAll(s.all, d);
    if name in DirMap(es) {
      var i :| 0 <= i < |es| && es[i].name == name;
      assert es[i] in es;
    }
  }

  // ----- what leaves a node as it was

  /** `a` is a directory before and after. */
  ghost predicate StaysDir(v: Vol, v': Vol, a: nat) { SameKind(v, v', a) && IsDir(v.inodes[a]) }

  lemma NodeKept(g: Geometry, v: Vol, v': Vol, es: seq<Entry>, ino: nat, a: nat, b: nat)
    requires NamedOk(g, v, es, ino) && Apart(g, v, v', a, b)
    requires (ino != a || StaysDir(v, v', a)) && (ino != b || StaysDir(v, v', b))
    ensures NodeOf(g, v', ino) == NodeOf(g, v, ino)
  {
    hide Content, Names;
    assert ino in v'.inodes.Keys;
    if ino != a && ino != b && !IsDir(v.inodes[ino]) {
      ApartFiles(g, v, v', a, b, ino);
    }
  }

  lemma NodeResolved(g: Geometry, v: Vol, v': Vol, es: seq<Entry>, ino: nat)
    requires NamedOk(g, v, es, ino) && Resolved(g, v, v')
    ensures NodeOf(g, v', ino) == NodeOf(g, v, ino)
  {
    hide Content, Names, There, BlockOf;
    assert ino in v'.inodes.Keys;
    if !IsDir(v.inodes[ino]) {
      ResolvedReads(g, v, v', ino);
    }
  }

  // ----- what an operation does to the map

  ghost predicate SameMeaning(g: Geometry, s: Snap, s': Snap)
    requires EachTiled(s.all) && EachTiled(s'.all)
  {
    |s'.all| == |s.all| && forall c: nat, n :: c < |s.all| ==> Means(g, s', c, n) == Means(g, s, c, n)
  }

  /** One name leads elsewhere. */
  ghost predicate OneMeaning(g: Geometry, s: Snap, s': Snap, d: nat, name: seq<byte>, node: Node)
    requires EachTiled(s.all) && EachTiled(s'.all)
  {
    |s'.all| == |s.all| && forall c: nat, n :: c < |s.all| ==>
      Means(g, s', c, n) == if c == d && n == name then node else Means(g, s, c, n)
  }

  /** One name leads where another did, and that one nowhere. */
  ghost predicate Carried(g: Geometry, s: Snap, s': Snap, d: nat, name: seq<byte>, d2: nat, name2: seq<byte>)
    requires EachTiled(s.all) && EachTiled(s'.all) && d < |s.all|
  {
    |s'.all| == |s.all| && forall c: nat, n :: c < |s.all| ==>
      Means(g, s', c, n) ==
        if c == d2 && n == name2 then Means(g, s, d, name)
        else if c == d && n == name then Nothing else Means(g, s, c, n)
  }

  /** Every name of one file leads to new bytes. */
  ghost predicate Rewritten(g: Geometry, s: Snap, s': Snap, ino: nat, bytes: seq<byte>)
    requires EachTiled(s.all) && EachTiled(s'.all)
  {
    |s'.all| == |s.all| && forall c: nat, n :: c < |s.all| ==>
      Means(g, s', c, n) == if LeadsTo(Means(g, s, c, n), ino) then File(ino, bytes) else Means(g, s, c, n)
  }

  ghost predicate LeadsTo(node: Node, ino: nat) { node != Nothing && node.ino == ino }

  /** No name leads to it. */
  ghost predicate Unnamed(g: Geometry, s: Snap, ino: nat)
    requires EachTiled(s.all)
  {
    forall c: nat, n :: c < |s.all| ==> !LeadsTo(Means(g, s, c, n), ino)
  }

  lemma MapInserted(es: seq<Entry>, es': seq<Entry>, e: Entry)
    requires Gained(es, es', e) && Distinct(es) && Absent(es, e.name)
    ensures DirMap(es') == DirMap(es)[e.name := e.ino]
  {
    hide Swapped, Distinct, Absent, Maps;
    var i: nat :| Swapped(es, es', i, [], [e]);
    DirMaps(es);
    InsertMaps(es, es', i, e, DirMap(es));
    DirMaps(es');
    MapsOne(es', DirMap(es'), DirMap(es)[e.name := e.ino]);
  }

  lemma MapRemoved(es: seq<Entry>, es': seq<Entry>, e: Entry)
    requires Lost(es, es', e) && Distinct(es)
    ensures DirMap(es') == DirMap(es) - {e.name} && e.name in DirMap(es) && DirMap(es)[e.name] == e.ino
  {
    hide Swapped, Distinct, Maps;
    var i: nat :| Swapped(es, es', i, [e], []);
    DirMaps(es);
    RemoveMaps(es, es', i, e, DirMap(es));
    DirMaps(es');
    MapsOne(es', DirMap(es'), DirMap(es) - {e.name});
  }

  lemma MapRelabelled(es: seq<Entry>, es': seq<Entry>, e: Entry, e': Entry)
    requires Relabelled(es, es', e, e') && Distinct(es) && Absent(es, e'.name) && e in es
    ensures DirMap(es') == (DirMap(es) - {e.name})[e'.name := e'.ino]
    ensures e.name in DirMap(es) && DirMap(es)[e.name] == e.ino && e'.name != e.name
  {
    DirMaps(es);
    assert e.name != e'.name;
    hide Swapped, Distinct, Absent, Maps, Relabelled;
    RelabelledMaps(es, es', e, e', DirMap(es));
    DirMaps(es');
    MapsOne(es', DirMap(es'), (DirMap(es) - {e.name})[e'.name := e'.ino]);
  }

  ghost function MapOf(s: Snap, d: nat): map<seq<byte>, nat>
    requires EachTiled(s.all) && d < |s.all|
  {
    DirMap(DirEntries(s.all[d]))
  }

  /** A name that leads to the inode it led to, which was not disturbed. */
  lemma MeansAgain(g: Geometry, s: Snap, s': Snap, dirs: seq<nat>, c: nat, n: seq<byte>, c': nat, n': seq<byte>,
                   a: nat, b: nat)
    requires FsInv(g, s.v, dirs, s.all) && EachTiled(s'.all) && |s'.all| == |s.all| && c < |s.all| && c' < |s.all|
    requires n in MapOf(s, c) <==> n' in MapOf(s', c')
    requires n in MapOf(s, c) ==> n' in MapOf(s', c') && MapOf(s', c')[n'] == MapOf(s, c)[n]
    requires Apart(g, s.v, s'.v, a, b)
    requires n in MapOf(s, c) ==>
      && (MapOf(s, c)[n] != a || StaysDir(s.v, s'.v, a)) && (MapOf(s, c)[n] != b || StaysDir(s.v, s'.v, b))
    ensures Means(g, s', c', n') == Means(g, s, c, n)
  {
    hide AllEntries, DirEntries, NamedOk, FsInv, Apart, NodeOf, StaysDir, DirMap;
    MeansNamed(g, s, dirs, c, n);
    if n in MapOf(s, c) { NodeKept(g, s.v, s'.v, AllEntries(s.all), MapOf(s, c)[n], a, b); }
  }

  lemma NeverLed(g: Geometry, s: Snap, dirs: seq<nat>, c: nat, n: seq<byte>, ino: nat)
    requires FsInv(g, s.v, dirs, s.all) && c < |s.all| && InumIs(s.v, ino, false)
    ensures n in MapOf(s, c) ==> MapOf(s, c)[n] != ino
    ensures !LeadsTo(Means(g, s, c, n), ino)
  {
    hide AllEntries, DirEntries, FsInv, NodeOf, DirMap, Names, Whole;
    MeansNamed(g, s, dirs, c, n);
    if n in MapOf(s, c) { NodeLeads(g, s.v, MapOf(s, c)[n]); }
  }

  // ----- the operations

  /** Directories rewritten with their entries the same. */
  lemma KeptMeaning(g: Geometry, s: Snap, s': Snap, dirs: seq<nat>, a: nat, b: nat)
    requires FsInv(g, s.v, dirs, s.all) && s'.all == s.all && Apart(g, s.v, s'.v, a, b)
    requires StaysDir(s.v, s'.v, a) && StaysDir(s.v, s'.v, b)
    ensures SameMeaning(g, s, s')
  {
    hide AllEntries, DirEntries, NamedOk, FsInv, Apart, NodeOf, StaysDir, DirMap;
    forall c: nat, n | c < |s.all|
      ensures Means(g, s', c, n) == Means(g, s, c, n)
    {
      MeansNamed(g, s, dirs, c, n);
      var m := DirMap(DirEntries(s.all[c]));
      if n in m { NodeKept(g, s.v, s'.v, AllEntries(s.all), m[n], a, b); }
    }
  }

  /** create: one name that led nowhere leads to an empty file, by an inode no name led to. */
  lemma MadeMeaning(g: Geometry, s: Snap, s': Snap, dirs: seq<nat>, d: nat, name: seq<byte>, ino: nat)
    requires FsInv(g, s.v, dirs, s.all) && EachTiled(s'.all) && d < |dirs| && |s'.all| == |s.all|
    requires s'.all == s.all[d := s'.all[d]] && Apart(g, s.v, s'.v, dirs[d], ino) && StaysDir(s.v, s'.v, dirs[d])
    requires Gained(DirEntries(s.all[d]), DirEntries(s'.all[d]), Entry(name, ino, REGULAR))
    requires Absent(DirEntries(s.all[d]), name) && Distinct(DirEntries(s.all[d]))
    requires InumIs(s.v, ino, false) && NodeOf(g, s'.v, ino) == File(ino, [])
    ensures OneMeaning(g, s, s', d, name, File(ino, [])) && Unnamed(g, s, ino)
  {
    MapInserted(DirEntries(s.all[d]), DirEntries(s'.all[d]), Entry(name, ino, REGULAR));
    hide AllEntries, DirEntries, FsInv, Apart, NodeOf, StaysDir, DirMap, InumIs, Gained, Absent, Distinct, Means,
      LeadsTo;
    MeansAt(g, s', d, name);
    forall c: nat, n | c < |s.all|
      ensures Means(g, s', c, n) == if c == d && n == name then File(ino, []) else Means(g, s, c, n)
      ensures !LeadsTo(Means(g, s, c, n), ino)
    {
      NeverLed(g, s, dirs, c, n, ino);
      if c != d || n != name { MeansAgain(g, s, s', dirs, c, n, c, n, dirs[d], ino); }
    }
  }

  lemma MeansAt(g: Geometry, s: Snap, d: nat, n: seq<byte>)
    requires EachTiled(s.all) && d < |s.all|
    ensures Means(g, s, d, n) == if n in MapOf(s, d) then NodeOf(g, s.v, MapOf(s, d)[n]) else Nothing
  {
  }

  lemma NodeLeads(g: Geometry, v: Vol, ino: nat)
    ensures LeadsTo(NodeOf(g, v, ino), ino) <==> NodeOf(g, v, ino) != Nothing
    ensures NodeOf(g, v, ino) != Nothing ==> NodeOf(g, v, ino).ino == ino
  {
  }

  /** unlink: the name leads nowhere, and every other name of the file leads where it led. */
  lemma RemovedMeaning(g: Geometry, s: Snap, s': Snap, dirs: seq<nat>, d: nat, e: Entry)
    requires FsInv(g, s.v, dirs, s.all) && FsInv(g, s'.v, dirs, s'.all) && d < |dirs|
    requires s'.all == s.all[d := s'.all[d]] && Apart(g, s.v, s'.v, dirs[d], e.ino) && StaysDir(s.v, s'.v, dirs[d])
    requires Lost(DirEntries(s.all[d]), DirEntries(s'.all[d]), e) && Distinct(DirEntries(s.all[d]))
    requires NodeOf(g, s'.v, e.ino) == NodeOf(g, s.v, e.ino) || InumIs(s'.v, e.ino, false)
    ensures OneMeaning(g, s, s', d, e.name, Nothing) && Means(g, s, d, e.name) == NodeOf(g, s.v, e.ino)
  {
    MapRemoved(DirEntries(s.all[d]), DirEntries(s'.all[d]), e);
    RemovedMaps(g, s, s', dirs, d, e);
  }

  /** The same, by what the directories map. */
  lemma RemovedMaps(g: Geometry, s: Snap, s': Snap, dirs: seq<nat>, d: nat, e: Entry)
    requires FsInv(g, s.v, dirs, s.all) && FsInv(g, s'.v, dirs, s'.all) && d < |dirs|
    requires s'.all == s.all[d := s'.all[d]] && Apart(g, s.v, s'.v, dirs[d], e.ino) && StaysDir(s.v, s'.v, dirs[d])
    requires MapOf(s', d) == MapOf(s, d) - {e.name} && e.name in MapOf(s, d) && MapOf(s, d)[e.name] == e.ino
    requires NodeOf(g, s'.v, e.ino) == NodeOf(g, s.v, e.ino) || InumIs(s'.v, e.ino, false)
    ensures OneMeaning(g, s, s', d, e.name, Nothing) && Means(g, s, d, e.name) == NodeOf(g, s.v, e.ino)
  {
    hide AllEntries, DirEntries, FsInv, Apart, NodeOf, StaysDir, DirMap, InumIs, Means;
    MeansAt(g, s, d, e.name);
    MeansAt(g, s', d, e.name);
    forall c: nat, n | c < |s.all|
      ensures Means(g, s', c, n) == if c == d && n == e.name then Nothing else Means(g, s, c, n)
    {
      if c != d || n != e.name {
        if n in MapOf(s, c) && MapOf(s, c)[n] == e.ino {
          OtherName(g, s, s', dirs, c, n, e.ino);
        } else {
          MeansAgain(g, s, s', dirs, c, n, c, n, dirs[d], e.ino);
        }
      }
    }
  }

  /** Another name of the file that lost one. */
  lemma OtherName(g: Geometry, s: Snap, s': Snap, dirs: seq<nat>, c: nat, n: seq<byte>, ino: nat)
    requires EachTiled(s.all) && FsInv(g, s'.v, dirs, s'.all) && c < |s.all| == |s'.all|
    requires n in MapOf(s, c) && n in MapOf(s', c) && MapOf(s', c)[n] == MapOf(s, c)[n] == ino
    requires NodeOf(g, s'.v, ino) == NodeOf(g, s.v, ino) || InumIs(s'.v, ino, false)
    ensures Means(g, s', c, n) == Means(g, s, c, n)
  {
    hide AllEntries, DirEntries, FsInv, NodeOf, DirMap, Names, Whole;
    MeansNamed(g, s', dirs, c, n);
  }

  /** rename: the new name leads where the old one led, and the old one nowhere. */
  lemma MovedMeaning(g: Geometry, s: Snap, s': Snap, dirs: seq<nat>, d: nat, d2: nat, e: Entry, e': Entry)
    requires FsInv(g, s.v, dirs, s.all) && EachTiled(s'.all) && d < |dirs| && d2 < |dirs| && |s'.all| == |s.all|
    requires forall c :: 0 <= c < |s.all| && c != d && c != d2 ==> s'.all[c] == s.all[c]
    requires Apart(g, s.v, s'.v, dirs[d2], dirs[d]) && StaysDir(s.v, s'.v, dirs[d]) && StaysDir(s.v, s'.v, dirs[d2])
    requires Distinct(DirEntries(s.all[d])) && Distinct(DirEntries(s.all[d2])) && Absent(DirEntries(s.all[d2]), e'.name)
    requires e in DirEntries(s.all[d]) && e'.ino == e.ino
    requires d == d2 ==> Relabelled(DirEntries(s.all[d]), DirEntries(s'.all[d]), e, e')
    requires d != d2 ==>
      Lost(DirEntries(s.all[d]), DirEntries(s'.all[d]), e) && Gained(DirEntries(s.all[d2]), DirEntries(s'.all[d2]), e')
    ensures Carried(g, s, s', d, e.name, d2, e'.name)
  {
    if d == d2 {
      MapRelabelled(DirEntries(s.all[d]), DirEntries(s'.all[d]), e, e');
    } else {
      MapRemoved(DirEntries(s.all[d]), DirEntries(s'.all[d]), e);
      MapInserted(DirEntries(s.all[d2]), DirEntries(s'.all[d2]), e');
    }
    DirMaps(DirEntries(s.all[d2]));
    hide AllEntries, DirEntries, FsInv, Apart, StaysDir, DirMap, Means, Lost, Gained, Relabelled, Distinct;
    MovedMaps(g, s, s', dirs, d, d2, e, e');
  }

  lemma MovedMaps(g: Geometry, s: Snap, s': Snap, dirs: seq<nat>, d: nat, d2: nat, e: Entry, e': Entry)
    requires FsInv(g, s.v, dirs, s.all) && EachTiled(s'.all) && d < |dirs| && d2 < |dirs| && |s'.all| == |s.all|
    requires forall c :: 0 <= c < |s.all| && c != d && c != d2 ==> s'.all[c] == s.all[c]
    requires Apart(g, s.v, s'.v, dirs[d2], dirs[d]) && StaysDir(s.v, s'.v, dirs[d]) && StaysDir(s.v, s'.v, dirs[d2])
    requires e'.ino == e.ino && e.name in MapOf(s, d) && MapOf(s, d)[e.name] == e.ino && e'.name !in MapOf(s, d2)
    requires d == d2 ==> MapOf(s', d) == (MapOf(s, d) - {e.name})[e'.name := e'.ino]
    requires d != d2 ==>
      MapOf(s', d) == MapOf(s, d) - {e.name} && MapOf(s', d2) == MapOf(s, d2)[e'.name := e'.ino]
    ensures Carried(g, s, s', d, e.name, d2, e'.name)
  {
    hide AllEntries, DirEntries, FsInv, Apart, NodeOf, StaysDir, DirMap, Means;
    assert StaysDir(s.v, s'.v, dirs[d]) && StaysDir(s.v, s'.v, dirs[d2]);
    MeansAgain(g, s, s', dirs, d, e.name, d2, e'.name, dirs[d2], dirs[d]);
    MeansAt(g, s', d, e.name);
    forall c: nat, n | c < |s.all|
      ensures Means(g, s', c, n) ==
        if c == d2 && n == e'.name then Means(g, s, d, e.name)
        else if c == d && n == e.name then Nothing else Means(g, s, c, n)
    {
      if !(c == d2 && n == e'.name) && !(c == d && n == e.name) {
        MeansAgain(g, s, s', dirs, c, n, c, n, dirs[d2], dirs[d]);
      }
    }
  }

  /** write: every name of the file leads to the new bytes. */
  lemma PutMeaning(g: Geometry, s: Snap, s': Snap, dirs: seq<nat>, ino: nat, off: nat, data: seq<byte>)
    requires FsInv(g, s.v, dirs, s.all) && s'.all == s.all && Wrote(g, s.v, s'.v, ino, off, data)
    requires !IsDir(s.v.inodes[ino])
    ensures NodeOf(g, s.v, ino).File? && off <= |NodeOf(g, s.v, ino).bytes|
    ensures Rewritten(g, s, s', ino, Written(NodeOf(g, s.v, ino).bytes, off, data))
  {
    hide AllEntries, DirEntries, FsInv, Apart, StaysDir, DirMap, NamedOk, Whole, Content, Written;
    forall c: nat, n | c < |s.all|
      ensures Means(g, s', c, n) ==
        if LeadsTo(Means(g, s, c, n), ino) then File(ino, Written(NodeOf(g, s.v, ino).bytes, off, data))
        else Means(g, s, c, n)
    {
      MeansNamed(g, s, dirs, c, n);
      var m := DirMap(DirEntries(s.all[c]));
      if n in m {
        NodeLeads(g, s.v, m[n]);
        if m[n] != ino { NodeKept(g, s.v, s'.v, AllEntries(s.all), m[n], ino, ino); }
      }
    }
  }

  /** Defragmentation changes what no name means. */
  lemma ResolvedMeaning(g: Geometry, s: Snap, s': Snap, dirs: seq<nat>)
    requires FsInv(g, s.v, dirs, s.all) && s'.all == s.all && Resolved(g, s.v, s'.v)
    ensures SameMeaning(g, s, s')
  {
    hide AllEntries, DirEntries, NamedOk, FsInv, Resolved, NodeOf, DirMap;
    forall c: nat, n | c < |s.all|
      ensures Means(g, s', c, n) == Means(g, s, c, n)
    {
      MeansNamed(g, s, dirs, c, n);
      var m := DirMap(DirEntries(s.all[c]));
      if n in m { NodeResolved(g, s.v, s'.v, AllEntries(s.all), m[n]); }
    }
  }

  // ----- the steps of a run

  datatype Op =
    | MakeFile(d: nat, name: seq<byte>)
    | PutFile(d: nat, name: seq<byte>, off: nat, data: seq<byte>)
    | MoveFile(d: nat, name: seq<byte>, d2: nat, name2: seq<byte>, sameNode: bool)
    | RemoveFile(d: nat, name: seq<byte>)
    | DefragFile(d: nat, name: seq<byte>)

  /** Known directories, and names within the kernel's 256-byte path limit. */
  predicate Sane(op: Op, n: nat) {
    && op.d < n && |op.name| < 256
    && (op.MoveFile? ==> op.d2 < n && |op.name2| < 256 && (op.sameNode ==> op.d == op.d2))
  }

  /** What an operation does to the map from directory and name to what it leads to. */
  ghost predicate Step(g: Geometry, s: Snap, s': Snap, dirs: seq<nat>, op: Op)
    requires EachTiled(s.all) && EachTiled(s'.all) && |dirs| == |s.all| && Sane(op, |dirs|)
  {
    var node := Means(g, s, op.d, op.name);
    match op
    case MakeFile(d, name) =>
      if node != Nothing || NoInum(g, s.v) || NoPlace(g, s.v, dirs[d], name, s.all[d]) then SameMeaning(g, s, s')
      else exists ino: nat :: Unnamed(g, s, ino) && OneMeaning(g, s, s', d, name, File(ino, []))
    case PutFile(d, name, off, data) =>
      if !node.File? || off > |node.bytes| then SameMeaning(g, s, s')
      else exists k: nat :: PutPrefix(g, s, s', node, off, data, k)
    case MoveFile(d, name, d2, name2, _) =>
      if !node.File? || Means(g, s, d2, name2) != Nothing || name == [] || name2 == [] then SameMeaning(g, s, s')
      else Carried(g, s, s', d, name, d2, name2)
           || (SameMeaning(g, s, s') && NoPlace(g, s.v, dirs[d2], name2, s.all[d2]))
    case RemoveFile(d, name) =>
      if node.File? && name != [] then OneMeaning(g, s, s', d, name, Nothing) else SameMeaning(g, s, s')
    case DefragFile(_, _) => SameMeaning(g, s, s')
  }

  /** The first `k` bytes are written: all of them unless the volume is full or the file at its largest. */
  ghost predicate PutPrefix(g: Geometry, s: Snap, s': Snap, node: Node, off: nat, data: seq<byte>, k: nat)
    requires EachTiled(s.all) && EachTiled(s'.all) && node.File? && off <= |node.bytes|
  {
    && k <= |data| && Rewritten(g, s, s', node.ino, Written(node.bytes, off, data[..k]))
    && (k < |data| ==> NoFree(s'.v) || off + |data| > PosOf(g, g.MaxBlocks(), 0))
  }

  lemma SameSelf(g: Geometry, s: Snap)
    requires EachTiled(s.all)
    ensures SameMeaning(g, s, s)
  {
  }

  /** What a live record says, in these terms. */
  lemma Found(g: Geometry, s: Snap, dirs: seq<nat>, d: nat, lb: nat, off: nat)
    requires FsInv(g, s.v, dirs, s.all) && d < |dirs| && lb < |s.all[d]| && LiveAt(s.all[d][lb], off)
    ensures var e := EntryAt(s.all[d][lb], off);
      && e in DirEntries(s.all[d]) && Means(g, s, d, e.name) == NodeOf(g, s.v, e.ino)
         && NodeOf(g, s.v, e.ino) != Nothing
      && e.ino != 0 && e.ino in s.v.inodes
      && (IsDir(s.v.inodes[e.ino]) <==> NodeOf(g, s.v, e.ino).Folder?) && NodeOf(g, s.v, e.ino).ino == e.ino
  {
    hide AllEntries, DirEntries, DirIs, Path, Names, Content, Sound, Owned;
    var e := EntryAt(s.all[d][lb], off);
    LiveIn(s.all[d], lb, off);
    assert DirOk(g, s.v, dirs[d], s.all[d]);
    MeansEntry(g, s, d, e);
    InAll(s.all, d);
    assert NamedOk(g, s.v, AllEntries(s.all), e.ino);
  }

  lemma NotFound(g: Geometry, s: Snap, dirs: seq<nat>, d: nat, name: seq<byte>)
    requires FsInv(g, s.v, dirs, s.all) && d < |dirs| && Absent(DirEntries(s.all[d]), name)
    ensures Means(g, s, d, name) == Nothing
  {
    hide AllEntries, DirEntries, DirIs, Sound, Owned, EntriesOk, Absent;
    assert DirOk(g, s.v, dirs[d], s.all[d]);
    MeansNothing(g, s, d, name);
  }
}
