/** Any run of create, write, rename, unlink and defragment, by directory and name. */
module Fat32Session {
  import opened Words
  import opened BlockStore
  import opened Fat32Table
  import opened Fat32Driver
  import opened Fat32Volume
  import opened Fat32Chains
  import opened Fat32Files
  import opened Fat32Alloc
  import opened Fat32Dirents
  import opened Fat32Write
  import opened Fat32Overlay
  import opened Fat32Names
  import opened Fat32Crash
  import opened Fat32Dirs
  import opened Fat32Moves
  import opened Fat32Tree
  import opened Fat32Refine
  import opened Fat32Defrag

  /** An operation names its directory by index into the mounted directories and its file by name. */
  datatype Op =
    | MakeFile(dir: nat, name: seq<byte>)
    | WriteFile(dir: nat, name: seq<byte>, offset: nat, data: seq<byte>)
    | MoveFile(dir: nat, name: seq<byte>, dir2: nat, newName: seq<byte>, sameNode: bool)
    | RemoveFile(dir: nat, name: seq<byte>)
    | Defragment(dir: nat, name: seq<byte>)

  /** What callers guarantee: C-string names, known directories, files below 4 GiB. One directory may be given to a
      rename as one node or as two. */
  predicate Sane(op: Op, n: nat) {
    && op.dir < n
    && match op
       case MakeFile(_, name) => 0 !in name
       case WriteFile(_, _, offset, data) => offset + |data| < FOUR_GIB
       case MoveFile(dir, _, dir2, newName, sameNode) => dir2 < n && 0 !in newName && (sameNode ==> dir == dir2)
       case _ => true
  }

  /** Directory number i starts at cluster dirs[i]. */
  ghost predicate Mounted(own: Owners, dirs: seq<nat>) {
    forall i :: 0 <= i < |dirs| ==> Dir(i) in own && own[Dir(i)] != [] && own[Dir(i)][0] == dirs[i]
  }

  lemma StillMounted(own: Owners, own': Owners, dirs: seq<nat>)
    requires Mounted(own, dirs)
    requires forall d :: Dir(d) in own ==> Dir(d) in own' && own[Dir(d)] <= own'[Dir(d)]
    ensures Mounted(own', dirs)
  {
  }

  /** What the invariant means for the table: every chain stays in range, never repeats a cluster, ends at an
      end-of-chain mark, shares no cluster with another owner's, and none of its entries reads as free. */
  lemma OwnershipSound(g: Geometry, v: View, own: Owners)
    requires Inv(g, v, own)
    ensures forall o :: o in own ==> Distinct(own[o]) && InRange(g, own[o])
    ensures forall o :: o in own && own[o] != [] ==> v.fat[own[o][|own[o]| - 1]] >= EOC
    ensures forall o, o' :: o in own && o' in own && o != o' ==> Apart(own[o], own[o'])
    ensures forall o, i :: o in own && 0 <= i < |own[o]| ==> v.fat[own[o][i]] != 0
  {
    forall o | o in own
      ensures Distinct(own[o]) && InRange(g, own[o]) && (own[o] != [] ==> v.fat[own[o][|own[o]| - 1]] >= EOC)
      ensures forall i :: 0 <= i < |own[o]| ==> v.fat[own[o][i]] != 0
    {
      assert ChainOk(v, o, own[o]);
      if own[o] != [] {
        ChainAcyclic(v.fat, own[o]);
        forall i | 0 <= i < |own[o]| ensures v.fat[own[o][i]] != 0 {
          ChainEnd(v.fat, own[o], i);
        }
      }
    }
  }

  // ----- what the operations do to the names

  lemma RootedMounted(g: Geometry, v: View, own: Owners, dirs: seq<nat>)
    requires Inv(g, v, own) && Complete(g, v, own) && Mounted(own, dirs)
    ensures Rooted(g, v, own, |dirs|)
  {
    hide Inv, Complete;
    forall d | 0 <= d < |dirs| ensures IsChain(v.fat, own[Dir(d)]) && InRange(g, own[Dir(d)]) {
      DirIsChain(g, v, own, d);
    }
  }

  /** The name a file is stored under, as a lookup spells it. */
  function StoredName(name: seq<byte>): seq<byte>
    requires Parsed(name).Some?
  {
    Formatted(Parsed(name).value)
  }

  /** A name to be given to a file is free and does not read as deleted. */
  ghost predicate TargetFree(g: Geometry, v: View, own: Owners, n: nat, op: Op)
    requires Rooted(g, v, own, n) && Sane(op, n)
  {
    match op
    case MakeFile(dir, name) => Parsed(name).Some? ==>
      Usable(Parsed(name).value) && NamedAt(g, v, own, n, dir, StoredName(name)) == Absent
    case MoveFile(dir, name, dir2, newName, _) => Parsed(newName).Some? ==>
      Usable(Parsed(newName).value) && NameFree(g, v, own, n, dir, name, dir2, StoredName(newName))
    case _ => true
  }

  /** No reusable slot and no cluster for another. */
  ghost predicate DirFull(g: Geometry, v: View, own: Owners, n: nat, d: nat)
    requires Rooted(g, v, own, n) && d < n
  {
    Full(v) && SlotsTaken(g, v, own[Dir(d)])
  }

  /** The file system as a map from directory and name to contents: what one operation does to it. */
  ghost predicate Step(g: Geometry, v0: View, own: Owners, v: View, own': Owners, n: nat, op: Op)
    requires Rooted(g, v0, own, n) && Rooted(g, v, own', n) && Sane(op, n)
  {
    var was := NamedAt(g, v0, own, n, op.dir, op.name);
    match op
    case MakeFile(dir, name) =>
      if Parsed(name).None? || DirFull(g, v0, own, n, dir) then Unmoved(g, v0, own, v, own', n)
      else Became(g, v0, own, v, own', n, dir, StoredName(name), Data([]))
    case WriteFile(dir, name, offset, data) =>
      if was.Data? then exists k :: Wrote(g, v0, own, v, own', n, dir, name, was.bytes, offset, data, k)
      else Unmoved(g, v0, own, v, own', n)
    case RemoveFile(dir, name) =>
      if was.Data? then Became(g, v0, own, v, own', n, dir, name, Absent) else Unmoved(g, v0, own, v, own', n)
    case MoveFile(dir, name, dir2, newName, sameNode) =>
      if Parsed(newName).None? || !was.Data? || (!sameNode && DirFull(g, v0, own, n, dir2))
        then Unmoved(g, v0, own, v, own', n)
      else Relocated(g, v0, own, v, own', n, dir, name, dir2, StoredName(newName))
    case Defragment(_, _) => Unmoved(g, v0, own, v, own', n)
  }

  /** The first `k` bytes went into the file: all that can be reached, unless the write starts past the end or the
      volume fills up. */
  ghost predicate Wrote(g: Geometry, v0: View, own: Owners, v: View, own': Owners, n: nat, dir: nat, name: seq<byte>,
                        b: seq<byte>, offset: nat, data: seq<byte>, k: nat)
    requires Rooted(g, v0, own, n) && Rooted(g, v, own', n)
  {
    && k <= |data| && (k > 0 ==> offset <= |b|)
    && Became(g, v0, own, v, own', n, dir, name, Data(if k == 0 then b else Written(b, offset, data[..k])))
    && (offset <= |b| && !Full(v) ==> k == Reached(offset, |data|))
  }

  /** The refinement: from a well-formed volume, an operation whose target is free leads to a well-formed volume by that
      step. */
  ghost predicate Refines(g: Geometry, v0: View, own: Owners, v: View, own': Owners, n: nat, op: Op)
    requires Rooted(g, v0, own, n) && Rooted(g, v, own', n) && Sane(op, n)
  {
    Neat(g, v0, own, n) && TargetFree(g, v0, own, n, op) ==> Neat(g, v, own', n) && Step(g, v0, own, v, own', n, op)
  }

  /** fat32_finddir's node for a regular file, or null. */
  method Open(vol: Volume, start: nat, name: seq<byte>, ghost id: nat, ghost own: Owners)
    returns (node: Node?, ghost p: nat)
    requires vol.Valid() && Inv(vol.g, vol.v, own) && Complete(vol.g, vol.v, own)
    requires Dir(id) in own && own[Dir(id)] != [] && start == own[Dir(id)][0]
    modifies vol.d
    ensures vol.Valid() && vol.d.disk == old(vol.d.disk) && InRange(vol.g, own[Dir(id)])
    ensures node != null ==>
      && fresh(node) && node.hasDirent && node.Synced(vol.g, vol.v, own)
      && Finds(vol.g, vol.v, own[Dir(id)], name, p) && node.loc == LocAt(vol.g, own[Dir(id)], p)
         && InBounds(vol.g, node.loc)
      && !NamesDir(Slot(vol.g, vol.v, node.loc))
    ensures node == null ==>
      || Missing(vol.g, vol.v, own[Dir(id)], name)
      || (Finds(vol.g, vol.v, own[Dir(id)], name, p) && NamesDir(DirSlot(vol.g, vol.v, own[Dir(id)], p)))
  {
    hide Volume.Valid, Inv, Complete, Passed, DirSlot, Hit, Missing, LocAt, Sectors;
    DirIsChain(vol.g, vol.v, own, id);
    var found, at;
    found, at, p := FindDir(vol, start, name, own[Dir(id)]);
    if !found {
      return null, p;
    }
    var buf := vol.ReadSector(at.cluster, at.sector);
    var e := Entry(buf, at.slot);
    assert e == Slot(vol.g, vol.v, at);
    if e[11] / 16 % 2 == 1 {
      return null, p;
    }
    HitNamesFile(e, name);
    FoundIsOwned(vol.g, vol.v, own, id, at);
    node := new Node(true, at, FirstCluster(e), FileSize(e));
  }

  /** A name that opens no file means no file. */
  lemma OpensNoFile(g: Geometry, v: View, own: Owners, n: nat, id: nat, name: seq<byte>, p: nat)
    requires Rooted(g, v, own, n) && id < n
    requires Missing(g, v, own[Dir(id)], name) ||
             (Finds(g, v, own[Dir(id)], name, p) && NamesDir(DirSlot(g, v, own[Dir(id)], p)))
    ensures !NamedAt(g, v, own, n, id, name).Data?
  {
    hide Inv, Complete, NamedAt, Missing, DirSlot, NamesDir, Sectors;
    NamedNot(g, v, own, n, id, name);
    if Finds(g, v, own[Dir(id)], name, p) && NamesDir(DirSlot(g, v, own[Dir(id)], p)) {
      NamedIs(g, v, own, n, id, name, p);
    }
  }

  lemma UnmovedRefl(g: Geometry, v: View, own: Owners, n: nat)
    requires Rooted(g, v, own, n)
    ensures Unmoved(g, v, own, v, own, n)
  {
  }

  /** One operation keeps the volume sound and does to the names what it should. */
  method Perform(vol: Volume, dirs: seq<nat>, op: Op, ghost own: Owners) returns (ghost own': Owners)
    requires vol.Valid() && Inv(vol.g, vol.v, own) && Complete(vol.g, vol.v, own)
    requires Mounted(own, dirs) && Sane(op, |dirs|) && Rooted(vol.g, vol.v, own, |dirs|)
    modifies vol, vol.d
    ensures vol.Valid() && SameOutside(old(vol.d.disk), vol.d.disk, vol.g)
    ensures Inv(vol.g, vol.v, own') && Complete(vol.g, vol.v, own') && Mounted(own', dirs)
    ensures Rooted(vol.g, vol.v, own', |dirs|) && Refines(vol.g, old(vol.v), own, vol.v, own', |dirs|, op)
  {
    hide Refines, Inv, Complete, SameOutside, Volume.Valid, Mounted, Rooted;
    match op
    case MakeFile(dir, name) =>
      own' := PerformCreate(vol, dirs, dir, name, own);
    case MoveFile(dir, name, dir2, newName, sameNode) =>
      own' := PerformMove(vol, dirs, dir, name, dir2, newName, sameNode, own);
    case RemoveFile(dir, name) =>
      own' := PerformRemove(vol, dirs, dir, name, own);
    case WriteFile(dir, name, offset, data) =>
      own' := PerformWrite(vol, dirs, dir, name, offset, data, own);
    case Defragment(dir, name) =>
      own' := PerformDefrag(vol, dirs, dir, name, own);
  }

  method PerformCreate(vol: Volume, dirs: seq<nat>, dir: nat, name: seq<byte>, ghost own: Owners)
    returns (ghost own': Owners)
    requires vol.Valid() && Inv(vol.g, vol.v, own) && Complete(vol.g, vol.v, own)
    requires Mounted(own, dirs) && dir < |dirs| && 0 !in name && Rooted(vol.g, vol.v, own, |dirs|)
    modifies vol, vol.d
    ensures vol.Valid() && SameOutside(old(vol.d.disk), vol.d.disk, vol.g)
    ensures Inv(vol.g, vol.v, own') && Complete(vol.g, vol.v, own') && Mounted(own', dirs)
    ensures Rooted(vol.g, vol.v, own', |dirs|)
    ensures Refines(vol.g, old(vol.v), own, vol.v, own', |dirs|, MakeFile(dir, name))
  {
    hide Volume.Valid, Inv, Complete, SameOutside, Parsed, Full, SlotsTaken, SameFiles, CrashSafe, SlotsOutside,
      FirstReusable, LocAt, NewEntry, NamedAt, Content, Neat, Unmoved, Became;
    ghost var v0, n := vol.v, |dirs|;
    var node;
    ghost var p;
    node, own', p := Create(vol, dirs[dir], name, dir, own);
    StillMounted(own, own', dirs);
    RootedMounted(vol.g, vol.v, own', dirs);
    UnmovedRefl(vol.g, v0, own, n);
    if node != null && Neat(vol.g, v0, own, n) && TargetFree(vol.g, v0, own, n, MakeFile(dir, name)) {
      ParsedHead(name);
      CreatedNamed(vol.g, v0, own, vol.v, own', n, dir, Parsed(name).value, p);
    }
  }

  method PerformMove(vol: Volume, dirs: seq<nat>, dir: nat, name: seq<byte>, dir2: nat, newName: seq<byte>,
                     sameNode: bool,
                     ghost own: Owners) returns (ghost own': Owners)
    requires vol.Valid() && Inv(vol.g, vol.v, own) && Complete(vol.g, vol.v, own) && Rooted(vol.g, vol.v, own, |dirs|)
    requires Mounted(own, dirs) && dir < |dirs| && dir2 < |dirs| && 0 !in newName && (sameNode ==> dir == dir2)
    modifies vol, vol.d
    ensures vol.Valid() && SameOutside(old(vol.d.disk), vol.d.disk, vol.g)
    ensures Inv(vol.g, vol.v, own') && Complete(vol.g, vol.v, own') && Mounted(own', dirs)
    ensures Rooted(vol.g, vol.v, own', |dirs|)
    ensures Refines(vol.g, old(vol.v), own, vol.v, own', |dirs|, MoveFile(dir, name, dir2, newName, sameNode))
  {
    hide Volume.Valid, Inv, Complete, SameOutside, Parsed, Full, SlotsTaken, MovedTo, RestSame, RenameSteps, NamedAt,
      Content, Neat, Unmoved, Relocated, Missing, Finds, LocAt, NamesDir, EntryMoved;
    ghost var v0, n := vol.v, |dirs|;
    ghost var l, m, p, q;
    var rc;
    rc, l, m, own', p, q := Rename(vol, dirs[dir], name, dirs[dir2], sameNode, newName, dir, dir2, own);
    ghost var op := MoveFile(dir, name, dir2, newName, sameNode);
    if rc == 0 {
      MoveMounted(vol.g, v0, own, vol.v, own', dirs, l, m, sameNode, dir2, q, Parsed(newName).value);
    }
    RootedMounted(vol.g, vol.v, own', dirs);
    UnmovedRefl(vol.g, v0, own, n);
    MoveWas(vol.g, v0, own, n, dir, name, p, rc);
    if rc == 0 && Neat(vol.g, v0, own, n) && TargetFree(vol.g, v0, own, n, op) {
      if sameNode {
        MovedHere(vol.g, v0, own, vol.v, own', l, m, dir2, q, Parsed(newName).value);
        RenamedNamed(vol.g, v0, own, vol.v, own', n, dir, name, p, Parsed(newName).value);
      } else {
        MovedNamed(vol.g, v0, own, vol.v, own', n, dir, name, p, dir2, m, q, Parsed(newName).value);
      }
    }
  }

  lemma MovedHere(g: Geometry, v0: View, own: Owners, v: View, own': Owners, l: Loc, m: Loc, id2: nat, q: nat,
                  raw: seq<byte>)
    requires Inv(g, v0, own) && Dir(id2) in own && InRange(g, own[Dir(id2)]) && InBounds(g, l) && |raw| == 11
    requires EntryMoved(g, v0, own, v, own', l, m, true, id2, q, raw)
    ensures m == l && EntryMoved(g, v0, own, v, own', l, l, true, id2, 0, raw)
  {
  }

  lemma MoveMounted(g: Geometry, v0: View, own: Owners, v: View, own': Owners, dirs: seq<nat>, l: Loc, m: Loc,
                    here: bool,
                    id2: nat, q: nat, raw: seq<byte>)
    requires Inv(g, v0, own) && Dir(id2) in own && InRange(g, own[Dir(id2)]) && InBounds(g, l) && |raw| == 11
    requires EntryMoved(g, v0, own, v, own', l, m, here, id2, q, raw) && Mounted(own, dirs)
    ensures Mounted(own', dirs)
  {
    hide Inv, SlotsOutside, FirstReusable;
    StillMounted(own, own', dirs);
  }

  /** A lookup's outcome, read off the result code. */
  lemma MoveWas(g: Geometry, v: View, own: Owners, n: nat, id: nat, name: seq<byte>, p: nat, rc: int)
    requires Rooted(g, v, own, n) && id < n && (rc == -2 ==> Missing(g, v, own[Dir(id)], name))
    requires rc in {0, -3, -5} ==>
      && Finds(g, v, own[Dir(id)], name, p) && InBounds(g, LocAt(g, own[Dir(id)], p))
      && (rc == -3 <==> NamesDir(Slot(g, v, LocAt(g, own[Dir(id)], p))))
    ensures rc in {-2, -3} ==> !NamedAt(g, v, own, n, id, name).Data?
    ensures rc in {0, -5} ==> NamedAt(g, v, own, n, id, name).Data?
  {
    hide Inv, Complete, NamedAt, Missing, DirSlot, NamesDir, LocAt, Sectors, Content;
    if rc in {0, -3, -5} {
      LocSlot(g, v, own[Dir(id)], p);
      NamedIs(g, v, own, n, id, name, p);
    } else if rc == -2 {
      OpensNoFile(g, v, own, n, id, name, p);
    }
  }

  method PerformRemove(vol: Volume, dirs: seq<nat>, dir: nat, name: seq<byte>, ghost own: Owners)
    returns (ghost own': Owners)
    requires vol.Valid() && Inv(vol.g, vol.v, own) && Complete(vol.g, vol.v, own)
    requires Mounted(own, dirs) && dir < |dirs| && Rooted(vol.g, vol.v, own, |dirs|)
    modifies vol, vol.d
    ensures vol.Valid() && SameOutside(old(vol.d.disk), vol.d.disk, vol.g)
    ensures Inv(vol.g, vol.v, own') && Complete(vol.g, vol.v, own') && Mounted(own', dirs)
    ensures Rooted(vol.g, vol.v, own', |dirs|)
    ensures Refines(vol.g, old(vol.v), own, vol.v, own', |dirs|, RemoveFile(dir, name))
  {
    hide Volume.Valid, Inv, Complete, SameOutside, Removed, UnlinkSteps, NamedAt, Content, Neat, Unmoved, Became,
      Missing, Finds, LocAt, NamesDir, Deleted;
    ghost var v0, n := vol.v, |dirs|;
    ghost var l, p;
    var rc;
    rc, l, own', p := Unlink(vol, dirs[dir], name, dir, own);
    if rc == 0 {
      RemovedMounted(vol.g, v0, own, vol.v, own', l, dirs);
    }
    RootedMounted(vol.g, vol.v, own', dirs);
    UnmovedRefl(vol.g, v0, own, n);
    MoveWas(vol.g, v0, own, n, dir, name, p, rc);
    if rc == 0 && Neat(vol.g, v0, own, n) {
      UnlinkedNamed(vol.g, v0, own, vol.v, own', n, dir, name, p);
    }
  }

  lemma RemovedMounted(g: Geometry, v0: View, own: Owners, v: View, own': Owners, l: Loc, dirs: seq<nat>)
    requires Inv(g, v0, own) && Complete(g, v0, own) && Removed(g, v0, own, v, own', l) && Mounted(own, dirs)
    ensures Inv(g, v, own') && Complete(g, v, own') && Mounted(own', dirs)
  {
  }

  method PerformWrite(vol: Volume, dirs: seq<nat>, dir: nat, name: seq<byte>, offset: nat, data: seq<byte>,
                      ghost own: Owners)
    returns (ghost own': Owners)
    requires vol.Valid() && Inv(vol.g, vol.v, own) && Complete(vol.g, vol.v, own) && Rooted(vol.g, vol.v, own, |dirs|)
    requires Mounted(own, dirs) && dir < |dirs| && offset + |data| < FOUR_GIB
    modifies vol, vol.d
    ensures vol.Valid() && SameOutside(old(vol.d.disk), vol.d.disk, vol.g)
    ensures Inv(vol.g, vol.v, own') && Complete(vol.g, vol.v, own') && Mounted(own', dirs)
    ensures Rooted(vol.g, vol.v, own', |dirs|)
    ensures Refines(vol.g, old(vol.v), own, vol.v, own', |dirs|, WriteFile(dir, name, offset, data))
  {
    hide Volume.Valid, Inv, Complete, SameOutside, SlotsKept, Full, Written, Content, NamedAt, Neat, Unmoved, Became,
      Missing, Finds, LocAt, NamesDir, Reached, DirSlot;
    own' := own;
    OutsideRefl(vol.d.disk, vol.g);
    ghost var v0, g, n := vol.v, vol.g, |dirs|;
    UnmovedRefl(g, v0, own, n);
    ghost var p;
    var node;
    node, p := Open(vol, dirs[dir], name, dir, own);
    if node == null {
      OpensNoFile(g, v0, own, n, dir, name, p);
      return;
    }
    var rc;
    ghost var k;
    rc, k, own' := Write(vol, node, offset, data, own);
    CompleteKept(g, v0, vol.v, own, own', node.loc);
    RootedMounted(g, vol.v, own', dirs);
    FileIs(g, v0, own, n, dir, name, p);
    if Neat(g, v0, own, n) {
      WrittenNamed(g, v0, own, vol.v, own', n, dir, name, p);
      assert Wrote(g, v0, own, vol.v, own', n, dir, name, Bytes(g, v0, own, node.loc), offset, data, k);
    }
  }

  lemma FileIs(g: Geometry, v: View, own: Owners, n: nat, id: nat, name: seq<byte>, p: nat)
    requires Rooted(g, v, own, n) && id < n && Finds(g, v, own[Dir(id)], name, p)
    requires InBounds(g, LocAt(g, own[Dir(id)], p)) && !NamesDir(Slot(g, v, LocAt(g, own[Dir(id)], p)))
    ensures File(LocAt(g, own[Dir(id)], p)) in own
    ensures NamedAt(g, v, own, n, id, name) == Data(Bytes(g, v, own, LocAt(g, own[Dir(id)], p)))
    ensures |Bytes(g, v, own, LocAt(g, own[Dir(id)], p))| == FileSize(Slot(g, v, LocAt(g, own[Dir(id)], p)))
  {
    hide Inv, Complete, NamedAt, DirSlot, NamesDir, LocAt, Sectors;
    LocSlot(g, v, own[Dir(id)], p);
    NamedIs(g, v, own, n, id, name, p);
    FileStored(g, v, own, LocAt(g, own[Dir(id)], p));
  }

  method PerformDefrag(vol: Volume, dirs: seq<nat>, dir: nat, name: seq<byte>, ghost own: Owners)
    returns (ghost own': Owners)
    requires vol.Valid() && Inv(vol.g, vol.v, own) && Complete(vol.g, vol.v, own)
    requires Mounted(own, dirs) && dir < |dirs| && Rooted(vol.g, vol.v, own, |dirs|)
    modifies vol, vol.d
    ensures vol.Valid() && SameOutside(old(vol.d.disk), vol.d.disk, vol.g)
    ensures Inv(vol.g, vol.v, own') && Complete(vol.g, vol.v, own') && Mounted(own', dirs)
    ensures Rooted(vol.g, vol.v, own', |dirs|)
    ensures Refines(vol.g, old(vol.v), own, vol.v, own', |dirs|, Defragment(dir, name))
  {
    hide Volume.Valid, Inv, Complete, SameOutside, SlotsKept, Content, CrashSafe, SameFiles, RunExists, NamedAt, Neat,
      Unmoved, Missing, Finds, LocAt, NamesDir, DirSlot;
    own' := own;
    OutsideRefl(vol.d.disk, vol.g);
    ghost var v0, n := vol.v, |dirs|;
    UnmovedRefl(vol.g, v0, own, n);
    ghost var p;
    var node;
    node, p := Open(vol, dirs[dir], name, dir, own);
    if node == null {
      return;
    }
    var rc;
    rc, own' := DefragOne(vol, node, own);
    CompleteKept(vol.g, v0, vol.v, own, own', node.loc);
    RootedMounted(vol.g, vol.v, own', dirs);
    if Neat(vol.g, v0, own, n) {
      UnmovedNamed(vol.g, v0, own, vol.v, own', n, node.loc);
    }
  }

  // ----- runs

  /** The volume between two operations. */
  datatype Snap = Snap(v: View, own: Owners)

  /** The states of a run, each reached from the one before by its operation. */
  ghost predicate Trace(g: Geometry, states: seq<Snap>, ops: seq<Op>, n: nat) {
    && |states| == |ops| + 1
    && (forall k :: 0 <= k < |states| ==> Rooted(g, states[k].v, states[k].own, n))
    && (forall k :: 0 <= k < |ops| ==> Sane(ops[k], n))
    && (forall k :: 0 <= k < |ops| ==>
         Refines(g, states[k].v, states[k].own, states[k + 1].v, states[k + 1].own, n, ops[k]))
  }

  /** Every run keeps the volume sound, whatever the operations and however they fail, and passes through states each of
      which its operation leads to. */
  method Run(vol: Volume, dirs: seq<nat>, ops: seq<Op>, ghost own: Owners)
    returns (ghost own': Owners, ghost states: seq<Snap>)
    requires vol.Valid() && Inv(vol.g, vol.v, own) && Complete(vol.g, vol.v, own)
    requires Mounted(own, dirs) && forall k :: 0 <= k < |ops| ==> Sane(ops[k], |dirs|)
    modifies vol, vol.d
    ensures vol.Valid() && SameOutside(old(vol.d.disk), vol.d.disk, vol.g)
    ensures Inv(vol.g, vol.v, own') && Complete(vol.g, vol.v, own') && Mounted(own', dirs)
    ensures Trace(vol.g, states, ops, |dirs|) && states[0] == Snap(old(vol.v), own)
    ensures states[|ops|] == Snap(vol.v, own')
  {
    hide Volume.Valid, Inv, Complete, SameOutside, Refines, Rooted, Mounted;
    own' := own;
    states := [Snap(vol.v, own)];
    RootedMounted(vol.g, vol.v, own, dirs);
    OutsideRefl(vol.d.disk, vol.g);
    assert ops[..0] == [];
    for k := 0 to |ops|
      invariant vol.Valid() && SameOutside(old(vol.d.disk), vol.d.disk, vol.g)
      invariant Inv(vol.g, vol.v, own') && Complete(vol.g, vol.v, own') && Mounted(own', dirs)
      invariant Trace(vol.g, states, ops[..k], |dirs|) && states[0] == Snap(old(vol.v), own)
      invariant states[k] == Snap(vol.v, own')
    {
      ghost var disk1 := vol.d.disk;
      own' := Perform(vol, dirs, ops[k], own');
      OutsideTrans(old(vol.d.disk), disk1, vol.d.disk, vol.g);
      states := states + [Snap(vol.v, own')];
      assert ops[..k + 1] == ops[..k] + [ops[k]];
    }
    assert ops[..|ops|] == ops;
  }

  /** From a well-formed volume, a run that only ever takes free names is, step by step, the run of the map. */
  lemma {:induction false} RunRefines(g: Geometry, states: seq<Snap>, ops: seq<Op>, n: nat, k: nat)
    requires Trace(g, states, ops, n) && k <= |ops| && Neat(g, states[0].v, states[0].own, n)
    requires forall j :: 0 <= j < |ops| ==> TargetFree(g, states[j].v, states[j].own, n, ops[j])
    ensures Neat(g, states[k].v, states[k].own, n)
    ensures k < |ops| ==> Step(g, states[k].v, states[k].own, states[k + 1].v, states[k + 1].own, n, ops[k])
  {
    hide Neat, Step, TargetFree, Rooted;
    if k > 0 {
      RunRefines(g, states, ops, n, k - 1);
      assert Refines(g, states[k - 1].v, states[k - 1].own, states[k].v, states[k].own, n, ops[k - 1]);
    }
    assert k < |ops| ==> Refines(g, states[k].v, states[k].own, states[k + 1].v, states[k + 1].own, n, ops[k]);
  }
}
