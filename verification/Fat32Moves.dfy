/** The operations that take an entry away or give it another place: unlink and rename. */
module Fat32Moves {
  import opened Words
  import opened BlockStore
  import opened Fat32Table
  import opened Fat32Driver
  import opened Fat32Volume
  import opened Fat32Chains
  import opened Fat32Files
  import opened Fat32Alloc
  import opened Fat32Dirents
  import opened Fat32Write
  import opened Fat32Names
  import opened Fat32Crash
  import opened Fat32Dirs

  // ----- unlink

  /** The entry marked deleted. */
  function Deleted(e: seq<byte>): (r: seq<byte>)
    requires |e| == DIRENT_SIZE
    ensures |r| == DIRENT_SIZE && !Live(r)
  {
    e[0 := 0xE5]
  }

  /** After each write past the first `from`, only entries of `ch` changed and its first cluster is free. */
  ghost predicate HeadFreed(steps: seq<View>, from: nat, v0: View, ch: seq<nat>) {
    from <= |steps| && forall k :: from <= k < |steps| ==>
      Loses(v0, steps[k], ch) && ch != [] && ch[0] < |steps[k].fat| && steps[k].fat[ch[0]] == 0
  }

  /** The chain loop of fat32_unlink. */
  method FreeChain(vol: Volume, start: nat, ghost ch: seq<nat>)
    requires vol.Valid() && if ch == [] then start == 0 else IsChain(vol.v.fat, ch) && start == ch[0]
    modifies vol.d, vol`v, vol`steps
    ensures vol.Valid() && SameOutside(old(vol.d.disk), vol.d.disk, vol.g)
    ensures vol.v == old(vol.v).(fat := Cleared(old(vol.v).fat, ch))
    ensures old(vol.steps) <= vol.steps && HeadFreed(vol.steps, |old(vol.steps)|, old(vol.v), ch)
  {
    hide Volume.Valid;
    ghost var v0 := vol.v;
    if ch != [] {
      ChainAcyclic(v0.fat, ch);
    }
    assert Cleared(v0.fat, ch[..0]) == v0.fat;
    var cluster := start;
    ghost var i := 0;
    while cluster != 0 && cluster < EOC
      invariant vol.Valid() && SameOutside(old(vol.d.disk), vol.d.disk, vol.g)
      invariant i <= |ch| && vol.v == v0.(fat := Cleared(v0.fat, ch[..i]))
      invariant if i < |ch| then cluster == ch[i] else cluster == 0 || cluster >= EOC
      invariant old(vol.steps) <= vol.steps && HeadFreed(vol.steps, |old(vol.steps)|, v0, ch)
      decreases |ch| - i
    {
      assert ch[i] !in ch[..i];
      ChainEnd(v0.fat, ch, i);
      var next := vol.NextCluster(cluster);
      vol.SetEntry(cluster, 0);
      ClearNext(v0.fat, ch, i);
      assert ch[..i + 1][0] == ch[0];
      cluster := next;
      i := i + 1;
    }
    assert ch[..i] == ch;
  }

  /** Only file `l` is gone, and only its slot changed. */
  ghost predicate Removed(g: Geometry, v0: View, own: Owners, v: View, own': Owners, l: Loc)
    requires Inv(g, v0, own)
  {
    && Inv(g, v, own') && own' == own - {File(l)} && SlotsOutside(g, v0, v, own, {l})
    && (forall k :: File(k) in own' ==> Bytes(g, v, own', k) == Bytes(g, v0, own, k))
    && (Complete(g, v0, own) ==> Complete(g, v, own'))
  }

  /** Freeing at most the file's own chain and killing its slot removes that file and no other. */
  lemma RemovedFile(g: Geometry, v0: View, v1: View, v: View, own: Owners, l: Loc)
    requires Inv(g, v0, own) && File(l) in own && Shaped(g, v1) && Loses(v0, v1, own[File(l)])
    requires SlotWrite(g, v1, v, l) && InBounds(g, l) && !Live(Slot(g, v, l))
    ensures Removed(g, v0, own, v, own - {File(l)}, l)
  {
    hide Inv, Kept, SlotWrite, Content, Unowned, Complete;
    var rest := own - {File(l)};
    InvSplit(g, v0, own, l);
    assert Confined(v0, v1, own[File(l)]);
    ConfinedKeeps(g, v0, v1, rest, own[File(l)]);
    KeptInv(g, v0, v1, rest);
    SlotWriteKept(g, v1, v, rest, l);
    KeptInv(g, v1, v, rest);
    SlotWriteOutside(g, v0, v1, v, own, l);
    if Complete(g, v0, own) {
      RemovedComplete(g, v0, v1, v, own, l);
    }
  }

  lemma SlotWriteOutside(g: Geometry, v0: View, v1: View, v: View, own: Owners, l: Loc)
    requires Shaped(g, v0) && v1.data == v0.data && SlotWrite(g, v1, v, l)
    ensures SlotsOutside(g, v0, v, own, {l})
  {
    forall k | InBounds(g, k) && k != l ensures Slot(g, v, k) == Slot(g, v0, k) {
      SlotWriteOther(g, v1, v, l, k);
    }
  }

  /** A crash during unlink loses exactly the file being removed, and that from the first write on: until the last write
      its entry is live and leads to a free cluster. */
  ghost predicate UnlinkSteps(g: Geometry, v0: View, own: Owners, l: Loc, steps: seq<View>, from: nat)
    requires Inv(g, v0, own)
  {
    from < |steps| && forall k :: from <= k < |steps| ==>
      && OthersReadable(g, v0, own, l, steps[k]) && Unreadable(g, steps[k], l)
      && (k < |steps| - 1 ==> Dangling(g, steps[k], l))
  }

  ghost predicate Unreadable(g: Geometry, v: View, l: Loc) { forall b :: !ReadsAs(g, v, l, b) }

  lemma RestReadable(g: Geometry, v0: View, own: Owners, l: Loc, v: View)
    requires Inv(g, v0, own) && File(l) in own && Inv(g, v, own - {File(l)})
    requires forall k :: File(k) in own && k != l ==> Bytes(g, v, own - {File(l)}, k) == Bytes(g, v0, own, k)
    ensures OthersReadable(g, v0, own, l, v)
  {
    hide Inv, Content;
    forall k | File(k) in own && k != l ensures ReadsAs(g, v, k, Bytes(g, v0, own, k)) {
      BytesReadBack(g, v, own - {File(l)}, k);
    }
  }

  lemma HeadFreedStep(g: Geometry, v0: View, own: Owners, l: Loc, v: View)
    requires Inv(g, v0, own) && File(l) in own && own[File(l)] != [] && Shaped(g, v) && Loses(v0, v, own[File(l)])
    requires own[File(l)][0] < |v.fat| && v.fat[own[File(l)][0]] == 0
    ensures OthersReadable(g, v0, own, l, v) && Dangling(g, v, l) && Unreadable(g, v, l)
  {
    hide Inv, Kept, Unowned, Content, StoredIn;
    var rest := own - {File(l)};
    InvSplit(g, v0, own, l);
    assert Confined(v0, v, own[File(l)]);
    ConfinedKeeps(g, v0, v, rest, own[File(l)]);
    KeptInv(g, v0, v, rest);
    RestReadable(g, v0, own, l, v);
    FileStored(g, v0, own, l);
    FileStart(g, v0, own, l);
    assert Slot(g, v, l) == Slot(g, v0, l);
    forall b ensures !ReadsAs(g, v, l, b) {
      DanglingUnreadable(g, v, l, b);
    }
  }

  lemma UnlinkCrash(g: Geometry, v0: View, own: Owners, l: Loc, v: View, steps: seq<View>, from: nat)
    requires Inv(g, v0, own) && File(l) in own && Removed(g, v0, own, v, own - {File(l)}, l)
    requires InBounds(g, l) && !Live(Slot(g, v, l)) && steps != [] && steps[|steps| - 1] == v
    requires HeadFreed(steps[..|steps| - 1], from, v0, own[File(l)])
    requires forall k :: 0 <= k < |steps| ==> Shaped(g, steps[k])
    ensures UnlinkSteps(g, v0, own, l, steps, from)
  {
    hide Inv, Content, OthersReadable, Dangling, Unreadable, Loses, Complete, SlotsOutside;
    RestReadable(g, v0, own, l, v);
    DeadUnreadable(g, v, l);
    forall k | from <= k < |steps| - 1
      ensures OthersReadable(g, v0, own, l, steps[k]) && Unreadable(g, steps[k], l) && Dangling(g, steps[k], l)
    {
      assert steps[..|steps| - 1][k] == steps[k];
      HeadFreedStep(g, v0, own, l, steps[k]);
    }
  }

  lemma DeadUnreadable(g: Geometry, v: View, l: Loc)
    requires Shaped(g, v) && InBounds(g, l) && !Live(Slot(g, v, l))
    ensures Unreadable(g, v, l)
  {
  }

  lemma RemovedComplete(g: Geometry, v0: View, v1: View, v: View, own: Owners, l: Loc)
    requires Shaped(g, v0) && Complete(g, v0, own) && v1.data == v0.data
    requires SlotWrite(g, v1, v, l) && InBounds(g, l) && !Live(Slot(g, v, l))
    ensures Complete(g, v, own - {File(l)})
  {
    var rest := own - {File(l)};
    forall k | InBounds(g, k) && InDir(rest, k.cluster) && NamesFile(Slot(g, v, k)) ensures File(k) in rest {
      var d :| Dir(d) in rest && k.cluster in rest[Dir(d)];
      assert InDir(own, k.cluster);
      assert k != l && Slot(g, v1, k) == Slot(g, v0, k);
    }
  }

  lemma FoundIsOwned(g: Geometry, v: View, own: Owners, id: nat, l: Loc)
    requires Shaped(g, v) && Complete(g, v, own) && Dir(id) in own && l.cluster in own[Dir(id)]
    requires InBounds(g, l) && NamesFile(Slot(g, v, l))
    ensures File(l) in own
  {
    assert InDir(own, l.cluster);
  }

  predicate NamesDir(e: seq<byte>) requires |e| == DIRENT_SIZE { e[11] / 16 % 2 == 1 }

  /** fat32_unlink: 0 and the file gone with all its clusters free, -2 if no entry matches, -3 for a directory. */
  method Unlink(vol: Volume, start: nat, name: seq<byte>, ghost id: nat, ghost own: Owners)
    returns (rc: int, ghost l: Loc, ghost own': Owners, ghost p: nat)
    requires vol.Valid() && Inv(vol.g, vol.v, own) && Complete(vol.g, vol.v, own)
    requires Dir(id) in own && own[Dir(id)] != [] && start == own[Dir(id)][0]
    modifies vol, vol.d
    ensures vol.Valid() && SameOutside(old(vol.d.disk), vol.d.disk, vol.g)
    ensures InRange(vol.g, own[Dir(id)]) && rc in {0, -2, -3}
    ensures rc == -2 <==> Missing(vol.g, old(vol.v), own[Dir(id)], name)
    ensures rc != -2 ==>
      && Finds(vol.g, old(vol.v), own[Dir(id)], name, p) && l == LocAt(vol.g, own[Dir(id)], p) && InBounds(vol.g, l)
      && (rc == -3 <==> NamesDir(Slot(vol.g, old(vol.v), l)))
    ensures rc != 0 ==> vol.v == old(vol.v) && vol.steps == old(vol.steps) && own' == own
    ensures rc == 0 ==>
      && File(l) in own && Removed(vol.g, old(vol.v), own, vol.v, own', l)
      && Slot(vol.g, vol.v, l) == Deleted(Slot(vol.g, old(vol.v), l))
      && (forall c :: c in own[File(l)] ==> c < |vol.v.fat| && vol.v.fat[c] == 0)
      && old(vol.steps) <= vol.steps && UnlinkSteps(vol.g, old(vol.v), own, l, vol.steps, |old(vol.steps)|)
  {
    hide Volume.Valid, Inv, SameOutside, Complete, SlotWrite, Passed, DirSlot, Hit, Deleted, Removed, UnlinkSteps,
      Sectors, HeadFreed;
    ghost var v0, disk0, ch, steps0 := vol.v, vol.d.disk, own[Dir(id)], vol.steps;
    own' := own;
    OutsideRefl(disk0, vol.g);
    DirIsChain(vol.g, v0, own, id);
    var found, at;
    found, at, p := FindDir(vol, start, name, ch);
    l := at;
    if !found {
      return -2, l, own, p;
    }
    var buf := vol.ReadSector(at.cluster, at.sector);
    var e := Entry(buf, at.slot);
    assert e == Slot(vol.g, v0, l);
    if e[11] / 16 % 2 == 1 {
      return -3, l, own, p;
    }
    HitNamesFile(e, name);
    FoundIsOwned(vol.g, v0, own, id, l);
    FileStart(vol.g, v0, own, l);
    FreeChain(vol, FirstCluster(e), own[File(l)]);
    ghost var v1, disk1, steps1 := vol.v, vol.d.disk, vol.steps;
    StoreSlot(vol, at, Deleted(e));
    OutsideTrans(disk0, disk1, vol.d.disk, vol.g);
    RemovedFile(vol.g, v0, v1, vol.v, own, l);
    own' := own - {File(l)};
    SlotWriteFat(vol.g, v1, vol.v, l);
    vol.StepsShaped();
    assert vol.steps[..|vol.steps| - 1] == steps1;
    UnlinkCrash(vol.g, v0, own, l, vol.v, vol.steps, |steps0|);
    rc := 0;
  }

  lemma HitNamesFile(e: seq<byte>, name: seq<byte>)
    requires |e| == DIRENT_SIZE && Hit(e, name) && e[11] / 16 % 2 != 1
    ensures NamesFile(e)
  {
  }

  // ----- rename

  /** Every file but `l` reads as before. */
  ghost predicate RestSame(g: Geometry, v0: View, own: Owners, v: View, own': Owners, l: Loc)
    requires Inv(g, v0, own) && Inv(g, v, own')
  {
    forall k :: File(k) in own && k != l ==> File(k) in own' && Bytes(g, v, own', k) == Bytes(g, v0, own, k)
  }

  /** The file of slot `l` is now the file of slot `m`, under record `raw`, with the same clusters and bytes. */
  ghost predicate MovedTo(g: Geometry, v0: View, own: Owners, v: View, own': Owners, l: Loc, m: Loc, raw: seq<byte>)
    requires Inv(g, v0, own) && Inv(g, v, own') && File(l) in own
  {
    && File(m) in own' && own'[File(m)] == own[File(l)] && InBounds(g, m) && Slot(g, v, m)[..11] == raw
    && Bytes(g, v, own', m) == Bytes(g, v0, own, l) && (m != l ==> File(l) !in own')
  }

  /** The entry with its name bytes replaced. */
  function Renamed(e: seq<byte>, raw: seq<byte>): (r: seq<byte>)
    requires |e| == DIRENT_SIZE && |raw| == 11
    ensures |r| == DIRENT_SIZE && r[..11] == raw && r[0] == raw[0] && r[11] == e[11]
    ensures FirstCluster(r) == FirstCluster(e) && FileSize(r) == FileSize(e)
  {
    raw + e[11..]
  }

  /** Renaming in place: same slot, same chain. */
  lemma RenamedHere(g: Geometry, v0: View, v: View, own: Owners, l: Loc, raw: seq<byte>)
    requires Inv(g, v0, own) && File(l) in own && |raw| == 11 && raw[0] != 0 && raw[0] != 0xE5 && InBounds(g, l)
    requires SlotWrite(g, v0, v, l) && Slot(g, v, l) == Renamed(Slot(g, v0, l), raw)
    ensures Inv(g, v, own) && RestSame(g, v0, own, v, own, l) && MovedTo(g, v0, own, v, own, l, l, raw)
    ensures Complete(g, v0, own) ==> Complete(g, v, own)
  {
    hide Inv, Kept, SlotWrite, Content, Sectors;
    var rest := own - {File(l)};
    var ch := own[File(l)];
    InvSplit(g, v0, own, l);
    SlotWriteKept(g, v0, v, rest, l);
    KeptInv(g, v0, v, rest);
    FileIsOk(g, v0, own, l);
    SlotWriteFat(g, v0, v, l);
    InvJoin(g, v, rest, l, ch);
    assert rest[File(l) := ch] == own;
    JoinedBytes(g, v, rest, l, ch);
    SlotClusterApart(g, v0, own, l);
    SlotWriteData(g, v0, v, l, ch);
    SameContent(g, v0, ch, v, ch, FileSize(Slot(g, v, l)));
    if Complete(g, v0, own) {
      SlotWriteComplete(g, v0, v, own, l);
      CompleteJoin(g, v, own, own, l);
    }
  }

  /** A file's slot does not lie in any file's data. */
  lemma SlotClusterApart(g: Geometry, v: View, own: Owners, l: Loc)
    requires Inv(g, v, own) && File(l) in own
    ensures forall k :: File(k) in own ==> l.cluster !in own[File(k)]
  {
    var id :| Dir(id) in own && l.cluster in own[Dir(id)];
    forall k | File(k) in own ensures l.cluster !in own[File(k)] {
      assert Apart(own[Dir(id)], own[File(k)]);
    }
  }

  lemma SlotWriteData(g: Geometry, v0: View, v: View, l: Loc, ch: seq<nat>)
    requires SlotWrite(g, v0, v, l) && InRange(g, ch) && l.cluster !in ch
    ensures forall i :: 0 <= i < |ch| ==> v.data[ch[i]] == v0.data[ch[i]]
  {
  }

  /** The second half of a move: the old slot killed, the new slot `m` (already written) taking over the chain. */
  lemma MovedAcross(g: Geometry, v0: View, own: Owners, v1: View, own1: Owners, v: View, id: nat, l: Loc, m: Loc,
                    raw: seq<byte>)
    requires Inv(g, v0, own) && File(l) in own && Dir(id) in own && |raw| == 11 && raw[0] != 0 && InBounds(g, l)
    requires FirstCluster(Slot(g, v0, l)) < 0x1_0000_0000 && FileSize(Slot(g, v0, l)) < 0x1_0000_0000
    requires Inserted(g, v0, own, v1, own1, id, m,
      NewEntry(raw, FirstCluster(Slot(g, v0, l)), FileSize(Slot(g, v0, l))))
    requires Slot(g, v1, l) == Slot(g, v0, l)
    requires SlotWrite(g, v1, v, l) && !Live(Slot(g, v, l))
    ensures var own' := MoveOwners(own1, l, m, own[File(l)], raw);
            && Inv(g, v, own') && RestSame(g, v0, own, v, own', l)
            && (raw[0] != 0xE5 ==> MovedTo(g, v0, own, v, own', l, m, raw))
            && (Complete(g, v0, own) ==> Complete(g, v, own'))
  {
    hide Inv, Kept, SlotWrite, Content, Sectors, NewEntry, Complete, CompleteBut, Unowned, StoredIn;
    var rest := own1 - {File(l)};
    var ch := own[File(l)];
    assert File(l) in own1 && own1[File(l)] == ch && m != l;
    InvSplit(g, v1, own1, l);
    SlotWriteKept(g, v1, v, rest, l);
    KeptInv(g, v1, v, rest);
    var e := NewEntry(raw, FirstCluster(Slot(g, v0, l)), FileSize(Slot(g, v0, l)));
    assert raw == e[..11];
    assert e[0] == raw[0];
    assert Slot(g, v, m) == e by { SlotWriteOther(g, v1, v, l, m); }
    if raw[0] != 0xE5 {
      MovedEntry(g, v0, own, v1, own1, v, l, m, e);
      RestInDir(own1, l, m.cluster);
      InvJoin(g, v, rest, m, ch);
      JoinedBytes(g, v, rest, m, ch);
    }
    if Complete(g, v0, own) {
      MovedComplete(g, v1, own1, v, l, m, MoveOwners(own1, l, m, ch, raw));
    }
  }

  ghost function MoveOwners(own: Owners, l: Loc, m: Loc, ch: seq<nat>, raw: seq<byte>): Owners
    requires |raw| == 11
  {
    if raw[0] == 0xE5 then own - {File(l)} else (own - {File(l)})[File(m) := ch]
  }

  lemma RestInDir(own: Owners, l: Loc, c: nat)
    requires InDir(own, c)
    ensures InDir(own - {File(l)}, c)
  {
    var d :| Dir(d) in own && c in own[Dir(d)];
    assert Dir(d) in own - {File(l)};
  }

  /** An entry with the old first cluster and size stands for the old chain and bytes. */
  lemma MovedEntry(g: Geometry, v0: View, own: Owners, v1: View, own1: Owners, v: View, l: Loc, m: Loc, e: seq<byte>)
    requires Inv(g, v0, own) && File(l) in own && Inv(g, v1, own1) && File(l) in own1 && own1[File(l)] == own[File(l)]
    requires Bytes(g, v1, own1, l) == Bytes(g, v0, own, l) && InBounds(g, l) && Slot(g, v1, l) == Slot(g, v0, l)
    requires |e| == DIRENT_SIZE && FirstCluster(e) == FirstCluster(Slot(g, v0, l))
    requires FileSize(e) == FileSize(Slot(g, v0, l))
    requires SlotWrite(g, v1, v, l) && InBounds(g, m) && Slot(g, v, m) == e && Live(e)
    ensures FileOk(g, v, m, own[File(l)])
    ensures Content(g, v, own[File(l)], FileSize(e)) == Bytes(g, v0, own, l)
  {
    hide Inv, SlotWrite, Content, Sectors;
    var ch := own[File(l)];
    FileIsOk(g, v1, own1, l);
    SlotWriteFat(g, v1, v, l);
    SlotClusterApart(g, v1, own1, l);
    SlotWriteData(g, v1, v, l, ch);
    SameContent(g, v1, ch, v, ch, FileSize(e));
  }

  lemma MovedComplete(g: Geometry, v1: View, own1: Owners, v: View, l: Loc, m: Loc, own': Owners)
    requires Shaped(g, v1) && CompleteBut(g, v1, own1, m) && SlotWrite(g, v1, v, l) && InBounds(g, l) && InBounds(g, m)
    requires !Live(Slot(g, v, l)) && (File(m) in own' || !Live(Slot(g, v, m)))
    requires forall k :: File(k) in own1 && k != l ==> File(k) in own'
    requires forall d :: Dir(d) in own' ==> Dir(d) in own1 && own'[Dir(d)] == own1[Dir(d)]
    ensures Complete(g, v, own')
  {
    forall k | InBounds(g, k) && InDir(own', k.cluster) && NamesFile(Slot(g, v, k)) ensures File(k) in own' {
      var d :| Dir(d) in own' && k.cluster in own'[Dir(d)];
      assert InDir(own1, k.cluster);
      if k != m {
        assert k != l && Slot(g, v, k) == Slot(g, v1, k);
      }
    }
  }

  /** A crash during rename loses nothing: until the last write the file reads under its old entry, after it under the
      new one (unless the new record reads as deleted), and every other file reads throughout. */
  ghost predicate RenameSteps(g: Geometry, v0: View, own: Owners, l: Loc, m: Loc, raw: seq<byte>, steps: seq<View>,
                              from: nat)
    requires Inv(g, v0, own) && File(l) in own && |raw| == 11
  {
    from < |steps| && forall k :: from <= k < |steps| ==>
      && OthersReadable(g, v0, own, l, steps[k])
      && (k < |steps| - 1 ==> ReadsAs(g, steps[k], l, Bytes(g, v0, own, l)))
      && (k == |steps| - 1 && raw[0] != 0xE5 ==> ReadsAs(g, steps[k], m, Bytes(g, v0, own, l)))
  }

  lemma RenameCrash(g: Geometry, v0: View, own: Owners, l: Loc, m: Loc, raw: seq<byte>, own': Owners, steps: seq<View>,
                    from: nat)
    requires Inv(g, v0, own) && File(l) in own && |raw| == 11 && from < |steps|
    requires CrashSafe(g, v0, own, steps[..|steps| - 1], from)
    requires Inv(g, steps[|steps| - 1], own') && RestSame(g, v0, own, steps[|steps| - 1], own', l)
    requires raw[0] != 0xE5 ==> MovedTo(g, v0, own, steps[|steps| - 1], own', l, m, raw)
    ensures RenameSteps(g, v0, own, l, m, raw, steps, from)
  {
    hide Inv, Content, ReadsAs;
    var last := steps[|steps| - 1];
    forall k | from <= k < |steps| - 1
      ensures OthersReadable(g, v0, own, l, steps[k]) && ReadsAs(g, steps[k], l, Bytes(g, v0, own, l))
    {
      assert steps[..|steps| - 1][k] == steps[k];
      assert AllReadable(g, v0, own, steps[k]);
    }
    forall k | File(k) in own && k != l ensures ReadsAs(g, last, k, Bytes(g, v0, own, k)) {
      BytesReadBack(g, last, own', k);
    }
    if raw[0] != 0xE5 {
      BytesReadBack(g, last, own', m);
    }
  }

  /** Killing a slot of an older cluster leaves the newly added one as it is. */
  lemma ReusableStays(g: Geometry, v0: View, ch: seq<nat>, v1: View, own1: Owners, id: nat, p: nat, v: View, l: Loc)
    requires Inv(g, v1, own1) && Dir(id) in own1 && ch <= own1[Dir(id)] && SlotWrite(g, v1, v, l)
    requires Shaped(g, v0) && InRange(g, ch) && InRange(g, own1[Dir(id)])
    requires FirstReusable(g, v0, ch, v1, own1[Dir(id)], p)
    requires exists d :: Dir(d) in own1 && (if d == id then l.cluster in ch else l.cluster in own1[Dir(d)])
    ensures FirstReusable(g, v0, ch, v, own1[Dir(id)], p)
  {
    hide Inv, Sectors, DirSlot, LocAt, SlotWrite, LiveUpTo;
    var ch' := own1[Dir(id)];
    forall q: nat | 16 * Sectors(g, |ch|) <= q < 16 * Sectors(g, |ch'|) && q != p
      ensures EndMark(DirSlot(g, v, ch', q)) {
      LocSlot(g, v, ch', q);
      LocSlot(g, v1, ch', q);
      AddedElsewhere(g, v1, own1, ch, id, q, l);
      SlotWriteOther(g, v1, v, l, LocAt(g, ch', q));
    }
  }

  lemma AddedElsewhere(g: Geometry, v1: View, own1: Owners, ch: seq<nat>, id: nat, q: nat, l: Loc)
    requires Inv(g, v1, own1) && Dir(id) in own1 && ch <= own1[Dir(id)]
    requires 16 * Sectors(g, |ch|) <= q < 16 * Sectors(g, |own1[Dir(id)]|)
    requires exists d :: Dir(d) in own1 && (if d == id then l.cluster in ch else l.cluster in own1[Dir(d)])
    ensures LocAt(g, own1[Dir(id)], q).cluster != l.cluster
  {
    hide Inv;
    var ch' := own1[Dir(id)];
    var d :| Dir(d) in own1 && (if d == id then l.cluster in ch else l.cluster in own1[Dir(d)]);
    DirIsChain(g, v1, own1, id);
    ChainAcyclic(v1.fat, ch');
    SectorAt(g, q / 16, |ch'|);
    var i := q / 16 / g.spc;
    assert i >= |ch| by {
      if i < |ch| {
        SectorsMono(g, i, |ch|);
      }
    }
    if d == id {
      var j :| 0 <= j < |ch| && ch[j] == l.cluster;
      assert ch'[j] == l.cluster;
    } else {
      DirsApart(g, v1, own1, id, d);
    }
  }

  lemma DirsApart(g: Geometry, v: View, own: Owners, a: nat, b: nat)
    requires Inv(g, v, own) && Dir(a) in own && Dir(b) in own && a != b
    ensures Apart(own[Dir(a)], own[Dir(b)])
  {
  }

  /** fat32_rename: 0, -1 if the new name does not fit 8.3, -2 if no entry matches, -3 for a directory, -5 if the target
      directory has no room. `sameNode` says that both directories were given as one node; two nodes of one directory
      take the other path. A new record starting with 0xE5 reads as deleted: that rename loses the file. */
  method Rename(vol: Volume, start: nat, name: seq<byte>, start2: nat, sameNode: bool, newName: seq<byte>,
                ghost id: nat, ghost id2: nat, ghost own: Owners)
    returns (rc: int, ghost l: Loc, ghost m: Loc, ghost own': Owners, ghost p: nat, ghost q: nat)
    requires vol.Valid() && Inv(vol.g, vol.v, own) && Complete(vol.g, vol.v, own) && 0 !in newName
    requires Dir(id) in own && own[Dir(id)] != [] && start == own[Dir(id)][0]
    requires Dir(id2) in own && own[Dir(id2)] != [] && start2 == own[Dir(id2)][0]
    modifies vol, vol.d
    ensures vol.Valid() && SameOutside(old(vol.d.disk), vol.d.disk, vol.g)
    ensures Inv(vol.g, vol.v, own') && Complete(vol.g, vol.v, own')
    ensures InRange(vol.g, own[Dir(id)]) && InRange(vol.g, own[Dir(id2)])
    ensures rc in {0, -1, -2, -3, -5} && (rc == -1 <==> Parsed(newName).None?)
    ensures rc != -1 ==> (rc == -2 <==> Missing(vol.g, old(vol.v), own[Dir(id)], name))
    ensures rc !in {-1, -2} ==>
      && Finds(vol.g, old(vol.v), own[Dir(id)], name, p) && l == LocAt(vol.g, own[Dir(id)], p) && InBounds(vol.g, l)
      && (rc == -3 <==> NamesDir(Slot(vol.g, old(vol.v), l)))
    ensures rc !in {-1, -2, -3} ==>
      (rc == -5 <==> !sameNode && Full(old(vol.v)) && SlotsTaken(vol.g, old(vol.v), own[Dir(id2)]))
    ensures rc != 0 ==> vol.v == old(vol.v) && vol.steps == old(vol.steps) && own' == own
    ensures rc == 0 ==>
      && File(l) in own && RestSame(vol.g, old(vol.v), own, vol.v, own', l)
      && (if Parsed(newName).value[0] != 0xE5
         then MovedTo(vol.g, old(vol.v), own, vol.v, own', l, m, Parsed(newName).value)
          else File(l) !in own')
      && EntryMoved(vol.g, old(vol.v), own, vol.v, own', l, m, sameNode, id2, q, Parsed(newName).value)
      && old(vol.steps) <= vol.steps
      && RenameSteps(vol.g, old(vol.v), own, l, m, Parsed(newName).value, vol.steps, |old(vol.steps)|)
  {
    hide Volume.Valid, Inv, SameOutside, Complete, SlotWrite, Passed, DirSlot, Hit, Deleted, Parsed, Full, SlotsTaken,
      MovedTo, RestSame, EntryMoved, RenameSteps, Sectors, LocAt;
    ghost var v0, disk0, ch := vol.v, vol.d.disk, own[Dir(id)];
    own', l, m, p, q := own, Loc(0, 0, 0), Loc(0, 0, 0), 0, 0;
    OutsideRefl(disk0, vol.g);
    DirIsChain(vol.g, v0, own, id);
    DirIsChain(vol.g, v0, own, id2);
    var parsed := Parse83(newName);
    if parsed.None? {
      return -1, l, m, own, p, q;
    }
    var raw := parsed.value;
    ParsedHead(newName);
    var found, at;
    found, at, p := FindDir(vol, start, name, ch);
    l, m := at, at;
    if !found {
      return -2, l, m, own, p, q;
    }
    var buf := vol.ReadSector(at.cluster, at.sector);
    var e := Entry(buf, at.slot);
    assert e == Slot(vol.g, v0, l);
    if e[11] / 16 % 2 == 1 {
      return -3, l, m, own, p, q;
    }
    HitNamesFile(e, name);
    FoundIsOwned(vol.g, v0, own, id, l);
    if sameNode {
      own' := RenameHere(vol, at, e, raw, id2, own);
      return 0, l, m, own', p, q;
    }
    rc, m, own', q := RenameAcross(vol, at, e, start2, raw, id, id2, own);
  }

  /** What a rename did to the directories: one slot renamed in place, or the first reusable slot of directory `id2`
      filled and the old slot killed; every other slot as it was. */
  ghost predicate EntryMoved(g: Geometry, v0: View, own: Owners, v: View, own': Owners, l: Loc, m: Loc, here: bool,
                             id2: nat,
                             q: nat, raw: seq<byte>)
    requires Inv(g, v0, own) && Dir(id2) in own && InRange(g, own[Dir(id2)]) && InBounds(g, l) && |raw| == 11
  {
    && SlotsOutside(g, v0, v, own, {l, m}) && InBounds(g, m)
    && (forall d :: Dir(d) in own ==>
       Dir(d) in own' && if d == id2 then own[Dir(d)] <= own'[Dir(d)] else own'[Dir(d)] == own[Dir(d)])
    && if here then
         m == l && own'[Dir(id2)] == own[Dir(id2)] && Slot(g, v, l) == Renamed(Slot(g, v0, l), raw)
       else
         var e := Slot(g, v0, l);
         && m != l && InRange(g, own'[Dir(id2)]) && FirstReusable(g, v0, own[Dir(id2)], v, own'[Dir(id2)], q)
         && m == LocAt(g, own'[Dir(id2)], q) && Slot(g, v, l) == Deleted(e)
         && FirstCluster(e) < FOUR_GIB && FileSize(e) < FOUR_GIB
            && Slot(g, v, m) == NewEntry(raw, FirstCluster(e), FileSize(e))
  }

  /** The branch for one node: one sector write. */
  method RenameHere(vol: Volume, at: Loc, e: seq<byte>, raw: seq<byte>, ghost id2: nat, ghost own: Owners)
    returns (ghost own': Owners)
    requires vol.Valid() && Inv(vol.g, vol.v, own) && Complete(vol.g, vol.v, own)
    requires InBounds(vol.g, at) && File(at) in own && e == Slot(vol.g, vol.v, at) && |raw| == 11 && raw[0] != 0
    requires Dir(id2) in own && InRange(vol.g, own[Dir(id2)])
    modifies vol.d, vol`v, vol`steps
    ensures vol.Valid() && SameOutside(old(vol.d.disk), vol.d.disk, vol.g)
    ensures Inv(vol.g, vol.v, own') && Complete(vol.g, vol.v, own') && RestSame(vol.g, old(vol.v), own, vol.v, own', at)
    ensures EntryMoved(vol.g, old(vol.v), own, vol.v, own', at, at, true, id2, 0, raw)
    ensures if raw[0] != 0xE5 then MovedTo(vol.g, old(vol.v), own, vol.v, own', at, at, raw) else File(at) !in own'
    ensures old(vol.steps) <= vol.steps && RenameSteps(vol.g, old(vol.v), own, at, at, raw, vol.steps, |old(vol.steps)|)
  {
    hide Volume.Valid, Inv, SameOutside, Complete, SlotWrite, MovedTo, Renamed, Content, SlotsOutside, RenameSteps;
    ghost var v0, steps0 := vol.v, vol.steps;
    StoreSlot(vol, at, Renamed(e, raw));
    if raw[0] != 0xE5 {
      own' := own;
      RenamedHere(vol.g, v0, vol.v, own, at, raw);
    } else {
      own' := own - {File(at)};
      RemovedFile(vol.g, v0, v0, vol.v, own, at);
    }
    SlotWriteOutside(vol.g, v0, v0, vol.v, own, at);
    OutsideTwice(vol.g, v0, vol.v, own, at);
    SafeRefl(vol.g, v0, own, steps0);
    assert vol.steps[..|vol.steps| - 1] == steps0;
    RenameCrash(vol.g, v0, own, at, at, raw, own', vol.steps, |steps0|);
  }

  lemma OutsideTwice(g: Geometry, v0: View, v: View, own: Owners, l: Loc)
    requires SlotsOutside(g, v0, v, own, {l})
    ensures SlotsOutside(g, v0, v, own, {l, l})
  {
    assert {l} == {l, l};
  }

  /** The other branch: insert, then kill the old entry. The chain itself is never touched. */
  method RenameAcross(vol: Volume, at: Loc, e: seq<byte>, start2: nat, raw: seq<byte>,
                      ghost id: nat, ghost id2: nat, ghost own: Owners)
    returns (rc: int, ghost m: Loc, ghost own': Owners, ghost q: nat)
    requires vol.Valid() && Inv(vol.g, vol.v, own) && Complete(vol.g, vol.v, own)
    requires InBounds(vol.g, at) && File(at) in own && e == Slot(vol.g, vol.v, at) && |raw| == 11 && raw[0] != 0
    requires Dir(id2) in own && own[Dir(id2)] != [] && start2 == own[Dir(id2)][0] && InRange(vol.g, own[Dir(id2)])
    requires Dir(id) in own && at.cluster in own[Dir(id)]
    modifies vol, vol.d
    ensures vol.Valid() && SameOutside(old(vol.d.disk), vol.d.disk, vol.g)
    ensures rc in {0, -5} && (rc == -5 <==> Full(old(vol.v)) && SlotsTaken(vol.g, old(vol.v), own[Dir(id2)]))
    ensures rc == -5 ==> vol.v == old(vol.v) && vol.steps == old(vol.steps) && own' == own
    ensures Inv(vol.g, vol.v, own') && Complete(vol.g, vol.v, own')
    ensures rc == 0 ==>
      && RestSame(vol.g, old(vol.v), own, vol.v, own', at)
      && (if raw[0] != 0xE5 then MovedTo(vol.g, old(vol.v), own, vol.v, own', at, m, raw) else File(at) !in own')
      && EntryMoved(vol.g, old(vol.v), own, vol.v, own', at, m, false, id2, q, raw)
      && old(vol.steps) <= vol.steps && RenameSteps(vol.g, old(vol.v), own, at, m, raw, vol.steps, |old(vol.steps)|)
  {
    hide Volume.Valid, Inv, SameOutside, Complete, SlotWrite, MovedTo, RestSame, Inserted, NewEntry, Deleted, Full,
      SlotsTaken, FirstReusable, LocAt, CrashSafe, RenameSteps, EntryMoved;
    ghost var v0, disk0, steps0 := vol.v, vol.d.disk, vol.steps;
    FileStart(vol.g, v0, own, at);
    EntryWidth(e);
    ghost var own1;
    var ok, l2;
    ok, l2, own1, q := InsertDirent(vol, start2, raw, FirstCluster(e), FileSize(e), id2, own);
    if !ok {
      return -5, at, own, q;
    }
    ghost var v1, disk1, steps1 := vol.v, vol.d.disk, vol.steps;
    m := l2;
    InsertedFacts(vol.g, v0, own, v1, own1, id2, m, NewEntry(raw, FirstCluster(e), FileSize(e)), at);
    StoreSlot(vol, at, Deleted(e));
    OutsideTrans(disk0, disk1, vol.d.disk, vol.g);
    own' := MoveOwners(own1, at, m, own[File(at)], raw);
    MovedAcross(vol.g, v0, own, v1, own1, vol.v, id2, at, m, raw);
    AcrossMoved(vol.g, v0, own, v1, own1, vol.v, id, id2, at, m, q, raw);
    assert vol.steps[..|vol.steps| - 1] == steps1;
    RenameCrash(vol.g, v0, own, at, m, raw, own', vol.steps, |steps0|);
    rc := 0;
  }

  lemma AcrossMoved(g: Geometry, v0: View, own: Owners, v1: View, own1: Owners, v: View, id: nat, id2: nat, l: Loc,
                    m: Loc,
                    q: nat, raw: seq<byte>)
    requires Inv(g, v0, own) && File(l) in own && Dir(id) in own && l.cluster in own[Dir(id)] && |raw| == 11
    requires InBounds(g, l)
    requires Dir(id2) in own && InRange(g, own[Dir(id2)]) && Dir(id2) in own1 && InRange(g, own1[Dir(id2)])
    requires FirstCluster(Slot(g, v0, l)) < FOUR_GIB && FileSize(Slot(g, v0, l)) < FOUR_GIB
    requires Inserted(g, v0, own, v1, own1, id2, m,
      NewEntry(raw, FirstCluster(Slot(g, v0, l)), FileSize(Slot(g, v0, l))))
    requires FirstReusable(g, v0, own[Dir(id2)], v1, own1[Dir(id2)], q) && m == LocAt(g, own1[Dir(id2)], q)
    requires SlotWrite(g, v1, v, l) && Slot(g, v, l) == Deleted(Slot(g, v0, l)) && m != l
    ensures EntryMoved(g, v0, own, v, MoveOwners(own1, l, m, own[File(l)], raw), l, m, false, id2, q, raw)
  {
    hide Inv, SlotWrite, NewEntry, Complete, CompleteBut, SameFiles, FirstReusable, LocAt, Sectors, Deleted;
    forall k | InBounds(g, k) && InDir(own, k.cluster) && k !in {l, m} ensures Slot(g, v, k) == Slot(g, v0, k) {
      SlotWriteOther(g, v1, v, l, k);
    }
    SlotWriteOther(g, v1, v, l, m);
    assert Dir(id) in own1 && (if id == id2 then l.cluster in own[Dir(id2)] else l.cluster in own1[Dir(id)]);
    ReusableStays(g, v0, own[Dir(id2)], v1, own1, id2, q, v, l);
  }

  lemma EntryWidth(e: seq<byte>)
    requires |e| == DIRENT_SIZE
    ensures FirstCluster(e) < 0x1_0000_0000 && FileSize(e) < 0x1_0000_0000
  {
  }

  lemma InsertedFacts(g: Geometry, v0: View, own: Owners, v1: View, own1: Owners, id: nat, m: Loc, e: seq<byte>, l: Loc)
    requires Inv(g, v0, own) && Dir(id) in own && Inserted(g, v0, own, v1, own1, id, m, e) && File(l) in own
    ensures InBounds(g, l) && Slot(g, v1, l) == Slot(g, v0, l) && m != l
    ensures forall d :: Dir(d) in own ==> Dir(d) in own1 && own[Dir(d)] <= own1[Dir(d)]
  {
    assert InDir(own, l.cluster) && FileOk(g, v0, l, own[File(l)]);
  }
}
