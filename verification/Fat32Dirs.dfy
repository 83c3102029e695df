/** Directory scans, and the operations that change what a directory names: create, rename, unlink. */
module Fat32Dirs {
  import opened Words
  import opened BlockStore
  import opened Fat32Table
  import opened Fat32Driver
  import opened Fat32Volume
  import opened Fat32Chains
  import opened Fat32Files
  import opened Fat32Alloc
  import opened Fat32Dirents
  import opened Fat32Write
  import opened Fat32Names
  import opened Fat32Crash

  /** Entry `e` of a directory sector. */
  function Entry(buf: Sector, e: nat): (r: seq<byte>)
    requires e < 16
    ensures |r| == DIRENT_SIZE
  {
    buf[32 * e..32 * e + 32]
  }

  predicate EndMark(e: seq<byte>) requires |e| == DIRENT_SIZE { e[0] == 0x00 }

  /** A live entry that is neither a long-name part nor a volume label, and whose name matches. */
  predicate Hit(e: seq<byte>, name: seq<byte>) requires |e| == DIRENT_SIZE {
    Live(e) && e[11] != 0x0F && e[11] / 8 % 2 == 0 && SameName(Formatted(e[..11]), name)
  }

  /** Slot number `p` of the directory stored in `ch`. */
  ghost function DirSlot(g: Geometry, v: View, ch: seq<nat>, p: nat): (e: seq<byte>)
    requires Shaped(g, v) && InRange(g, ch) && p < 16 * Sectors(g, |ch|)
    ensures |e| == DIRENT_SIZE
  {
    Entry(FileSector(g, v, ch, p / 16), p % 16)
  }

  /** Where slot number `p` of the directory stored in `ch` lies. */
  ghost function LocAt(g: Geometry, ch: seq<nat>, p: nat): (l: Loc)
    requires g.spc > 0 && p < 16 * Sectors(g, |ch|)
    ensures l.cluster in ch
  {
    SectorAt(g, p / 16, |ch|);
    Loc(ch[p / 16 / g.spc], p / 16 % g.spc, p % 16)
  }

  lemma LocSlot(g: Geometry, v: View, ch: seq<nat>, p: nat)
    requires Shaped(g, v) && InRange(g, ch) && p < 16 * Sectors(g, |ch|)
    ensures InBounds(g, LocAt(g, ch, p)) && Slot(g, v, LocAt(g, ch, p)) == DirSlot(g, v, ch, p)
  {
    SectorAt(g, p / 16, |ch|);
  }

  lemma SlotNumber(g: Geometry, v: View, ch: seq<nat>, i: nat, s: nat, e: nat)
    requires Shaped(g, v) && InRange(g, ch) && i < |ch| && s < g.spc && e < 16
    ensures var p := 16 * (Sectors(g, i) + s) + e;
            && p < 16 * Sectors(g, |ch|) && InBounds(g, Loc(ch[i], s, e)) && LocAt(g, ch, p) == Loc(ch[i], s, e)
            && DirSlot(g, v, ch, p) == Slot(g, v, Loc(ch[i], s, e)) == Entry(v.data[ch[i]][s], e)
  {
    IndexSector(i, s, g.spc, |ch|);
    var p := 16 * (Sectors(g, i) + s) + e;
    assert p / 16 == Sectors(g, i) + s && p % 16 == e;
  }

  // ----- looking a name up

  /** The entry loop of fat32_finddir over one sector. */
  method ScanSector(buf: Sector, name: seq<byte>) returns (hit: bool, e: nat)
    ensures e <= 16 && forall q :: 0 <= q < e ==> !EndMark(Entry(buf, q)) && !Hit(Entry(buf, q), name)
    ensures hit ==> e < 16 && Hit(Entry(buf, e), name)
    ensures !hit && e < 16 ==> EndMark(Entry(buf, e))
  {
    e := 0;
    while e < 16
      invariant 0 <= e <= 16 && forall q :: 0 <= q < e ==> !EndMark(Entry(buf, q)) && !Hit(Entry(buf, q), name)
    {
      var de := Entry(buf, e);
      if de[0] == 0x00 {
        return false, e;
      }
      if de[0] != 0xE5 && de[11] != 0x0F && de[11] / 8 % 2 == 0 && SameName(Formatted(de[..11]), name) {
        return true, e;
      }
      e := e + 1;
    }
    hit := false;
  }

  /** No slot before `p` ends the directory or matches. */
  ghost predicate Passed(g: Geometry, v: View, ch: seq<nat>, p: nat, name: seq<byte>)
    requires Shaped(g, v) && InRange(g, ch) && p <= 16 * Sectors(g, |ch|)
  {
    forall q: nat :: q < p ==> !EndMark(DirSlot(g, v, ch, q)) && !Hit(DirSlot(g, v, ch, q), name)
  }

  /** A lookup of `name` stops at slot number `p`: the first match, with no end mark before it. */
  ghost predicate Finds(g: Geometry, v: View, ch: seq<nat>, name: seq<byte>, p: nat)
    requires Shaped(g, v) && InRange(g, ch)
  {
    p < 16 * Sectors(g, |ch|) && Passed(g, v, ch, p, name) && Hit(DirSlot(g, v, ch, p), name)
  }

  ghost predicate Missing(g: Geometry, v: View, ch: seq<nat>, name: seq<byte>)
    requires Shaped(g, v) && InRange(g, ch)
  {
    forall p: nat :: !Finds(g, v, ch, name, p)
  }

  lemma NoneFound(g: Geometry, v: View, ch: seq<nat>, name: seq<byte>, p: nat)
    requires Shaped(g, v) && InRange(g, ch) && p <= 16 * Sectors(g, |ch|) && Passed(g, v, ch, p, name)
    requires p == 16 * Sectors(g, |ch|) || EndMark(DirSlot(g, v, ch, p))
    ensures Missing(g, v, ch, name)
  {
    hide Sectors, DirSlot;
    forall q: nat ensures !Finds(g, v, ch, name, q) {
    }
  }

  /** fat32_finddir: the first matching entry before the end-of-directory mark. */
  method FindDir(vol: Volume, start: nat, name: seq<byte>, ghost ch: seq<nat>)
    returns (found: bool, l: Loc, ghost p: nat)
    requires vol.Valid() && IsChain(vol.v.fat, ch) && start == ch[0]
    modifies vol.d
    ensures vol.Valid() && vol.d.disk == old(vol.d.disk) && InRange(vol.g, ch)
    ensures found ==>
      && Finds(vol.g, vol.v, ch, name, p) && l == LocAt(vol.g, ch, p) && InBounds(vol.g, l)
      && Slot(vol.g, vol.v, l) == DirSlot(vol.g, vol.v, ch, p)
    ensures !found ==> Missing(vol.g, vol.v, ch, name)
  {
    hide Volume.Valid, Sectors, DirSlot, Hit;
    var cluster := start;
    ghost var i := 0;
    SectorsZero(vol.g);
    found, l, p := false, Loc(0, 0, 0), 0;
    while cluster < EOC
      invariant vol.Valid() && vol.d.disk == old(vol.d.disk) && !found
      invariant i <= |ch| && if i < |ch| then cluster == ch[i] else cluster >= EOC
      invariant p == 16 * Sectors(vol.g, i) <= 16 * Sectors(vol.g, |ch|) && Passed(vol.g, vol.v, ch, p, name)
      decreases |ch| - i
    {
      var stop;
      found, stop, l, p := ScanCluster(vol, cluster, name, ch, i);
      if found || stop {
        if !found {
          NoneFound(vol.g, vol.v, ch, name, p);
        }
        return;
      }
      cluster := vol.NextCluster(cluster);
      ChainEnd(vol.v.fat, ch, i);
      SectorsStep(vol.g, i, |ch|);
      i := i + 1;
    }
    NoneFound(vol.g, vol.v, ch, name, p);
  }

  method ScanCluster(vol: Volume, cluster: nat, name: seq<byte>, ghost ch: seq<nat>, ghost i: nat)
    returns (found: bool, stop: bool, l: Loc, ghost p: nat)
    requires vol.Valid() && InRange(vol.g, ch) && i < |ch| && cluster == ch[i]
    requires 16 * Sectors(vol.g, i) <= 16 * Sectors(vol.g, |ch|)
    requires Passed(vol.g, vol.v, ch, 16 * Sectors(vol.g, i), name)
    ensures p <= 16 * Sectors(vol.g, |ch|) && Passed(vol.g, vol.v, ch, p, name)
    ensures found ==>
      && Finds(vol.g, vol.v, ch, name, p) && l == LocAt(vol.g, ch, p) && InBounds(vol.g, l)
      && Slot(vol.g, vol.v, l) == DirSlot(vol.g, vol.v, ch, p)
    ensures stop && !found ==> p < 16 * Sectors(vol.g, |ch|) && EndMark(DirSlot(vol.g, vol.v, ch, p))
    ensures !found && !stop ==> p == 16 * (Sectors(vol.g, i) + vol.g.spc)
  {
    hide Volume.Valid, Sectors, DirSlot, Hit, Entry, LocAt;
    ghost var base := Sectors(vol.g, i);
    SectorsStep(vol.g, i, |ch|);
    p := 16 * base;
    for s := 0 to vol.g.spc
      invariant p == 16 * (base + s) && Passed(vol.g, vol.v, ch, p, name)
    {
      var buf := vol.ReadSector(cluster, s);
      var hit, e := ScanSector(buf, name);
      PassSector(vol.g, vol.v, ch, i, s, e, name);
      p := 16 * (base + s) + e;
      if e < 16 {
        SlotNumber(vol.g, vol.v, ch, i, s, e);
        return hit, true, Loc(cluster, s, e), p;
      }
    }
    found, stop, l := false, false, Loc(0, 0, 0);
  }

  lemma PassSector(g: Geometry, v: View, ch: seq<nat>, i: nat, s: nat, e: nat, name: seq<byte>)
    requires Shaped(g, v) && InRange(g, ch) && i < |ch| && s < g.spc && e <= 16
    requires 16 * (Sectors(g, i) + s) <= 16 * Sectors(g, |ch|) && Passed(g, v, ch, 16 * (Sectors(g, i) + s), name)
    requires forall q :: 0 <= q < e ==> !EndMark(Entry(v.data[ch[i]][s], q)) && !Hit(Entry(v.data[ch[i]][s], q), name)
    ensures 16 * (Sectors(g, i) + s) + e <= 16 * Sectors(g, |ch|)
    ensures Passed(g, v, ch, 16 * (Sectors(g, i) + s) + e, name)
  {
    hide Sectors, DirSlot, Hit, Entry;
    var p := 16 * (Sectors(g, i) + s);
    SectorsStep(g, i, |ch|);
    forall q: nat | q < p + e ensures !EndMark(DirSlot(g, v, ch, q)) && !Hit(DirSlot(g, v, ch, q), name) {
      if p <= q {
        SlotNumber(g, v, ch, i, s, q - p);
        assert Entry(v.data[ch[i]][s], q - p) == DirSlot(g, v, ch, q);
      }
    }
  }

  // ----- finding room for an entry

  /** The entry loop of fat32_insert_dirent over one sector: the first slot that is not live. */
  method ScanFree(buf: Sector) returns (e: nat)
    ensures e <= 16 && forall q :: 0 <= q < e ==> Live(Entry(buf, q))
    ensures e < 16 ==> !Live(Entry(buf, e))
  {
    e := 0;
    while e < 16 && buf[32 * e] != 0x00 && buf[32 * e] != 0xE5
      invariant 0 <= e <= 16 && forall q :: 0 <= q < e ==> Live(Entry(buf, q))
    {
      e := e + 1;
    }
  }

  /** The slots before number `p` are all live. */
  ghost predicate LiveUpTo(g: Geometry, v: View, ch: seq<nat>, p: nat)
    requires Shaped(g, v) && InRange(g, ch) && p <= 16 * Sectors(g, |ch|)
  {
    forall q: nat :: q < p ==> Live(DirSlot(g, v, ch, q))
  }

  /** No slot of the directory stored in `ch` can be reused. */
  ghost predicate SlotsTaken(g: Geometry, v: View, ch: seq<nat>)
    requires Shaped(g, v) && InRange(g, ch)
  {
    LiveUpTo(g, v, ch, 16 * Sectors(g, |ch|))
  }

  lemma LiveSector(g: Geometry, v: View, ch: seq<nat>, i: nat, s: nat, e: nat)
    requires Shaped(g, v) && InRange(g, ch) && i < |ch| && s < g.spc && e <= 16
    requires 16 * (Sectors(g, i) + s) <= 16 * Sectors(g, |ch|) && LiveUpTo(g, v, ch, 16 * (Sectors(g, i) + s))
    requires forall q :: 0 <= q < e ==> Live(Entry(v.data[ch[i]][s], q))
    ensures 16 * (Sectors(g, i) + s) + e <= 16 * Sectors(g, |ch|)
    ensures LiveUpTo(g, v, ch, 16 * (Sectors(g, i) + s) + e)
  {
    hide Sectors, DirSlot, Live, Entry;
    var p := 16 * (Sectors(g, i) + s);
    SectorsStep(g, i, |ch|);
    forall q: nat | q < p + e ensures Live(DirSlot(g, v, ch, q)) {
      if p <= q {
        SlotNumber(g, v, ch, i, s, q - p);
        assert Entry(v.data[ch[i]][s], q - p) == DirSlot(g, v, ch, q);
      }
    }
  }

  method FreeSlotIn(vol: Volume, cluster: nat, ghost ch: seq<nat>, ghost i: nat)
    returns (found: bool, l: Loc, ghost p: nat)
    requires vol.Valid() && InRange(vol.g, ch) && i < |ch| && cluster == ch[i]
    requires 16 * Sectors(vol.g, i) <= 16 * Sectors(vol.g, |ch|) && LiveUpTo(vol.g, vol.v, ch, 16 * Sectors(vol.g, i))
    ensures p <= 16 * Sectors(vol.g, |ch|) && LiveUpTo(vol.g, vol.v, ch, p)
    ensures found ==>
      p < 16 * Sectors(vol.g, |ch|) && l == LocAt(vol.g, ch, p) && InBounds(vol.g, l) && !Live(Slot(vol.g, vol.v, l))
    ensures !found ==> p == 16 * (Sectors(vol.g, i) + vol.g.spc)
  {
    hide Volume.Valid, Sectors, DirSlot, Live, Entry, LocAt;
    ghost var base := Sectors(vol.g, i);
    SectorsStep(vol.g, i, |ch|);
    p := 16 * base;
    for s := 0 to vol.g.spc
      invariant p == 16 * (base + s) && LiveUpTo(vol.g, vol.v, ch, p)
    {
      var buf := vol.ReadSector(cluster, s);
      var e := ScanFree(buf);
      LiveSector(vol.g, vol.v, ch, i, s, e);
      p := 16 * (base + s) + e;
      if e < 16 {
        SlotNumber(vol.g, vol.v, ch, i, s, e);
        return true, Loc(cluster, s, e), p;
      }
    }
    found, l := false, Loc(0, 0, 0);
  }

  lemma FreeSlotShows(g: Geometry, v: View, ch: seq<nat>, p: nat)
    requires Shaped(g, v) && InRange(g, ch) && p < 16 * Sectors(g, |ch|) && !Live(Slot(g, v, LocAt(g, ch, p)))
    ensures !SlotsTaken(g, v, ch)
  {
    LocSlot(g, v, ch, p);
  }

  /** The search of fat32_insert_dirent: the first reusable slot, number `p`, or the directory's last cluster if every
      slot is live. */
  method FreeSlot(vol: Volume, start: nat, ghost ch: seq<nat>) returns (found: bool, l: Loc, last: nat, ghost p: nat)
    requires vol.Valid() && IsChain(vol.v.fat, ch) && start == ch[0]
    modifies vol.d
    ensures vol.Valid() && vol.d.disk == old(vol.d.disk) && InRange(vol.g, ch)
    ensures p <= 16 * Sectors(vol.g, |ch|) && LiveUpTo(vol.g, vol.v, ch, p)
    ensures found ==>
      p < 16 * Sectors(vol.g, |ch|) && l == LocAt(vol.g, ch, p) && InBounds(vol.g, l) && !Live(Slot(vol.g, vol.v, l))
    ensures !found ==> last == ch[|ch| - 1] && p == 16 * Sectors(vol.g, |ch|)
    ensures !found <==> SlotsTaken(vol.g, vol.v, ch)
  {
    hide Volume.Valid, Sectors, DirSlot, Live, LocAt;
    var cluster := start;
    last := start;
    ghost var i := 0;
    p := 0;
    SectorsZero(vol.g);
    while cluster < EOC
      invariant vol.Valid() && vol.d.disk == old(vol.d.disk)
      invariant i <= |ch| && (if i < |ch| then cluster == ch[i] else cluster >= EOC) && (i > 0 ==> last == ch[i - 1])
      invariant p == 16 * Sectors(vol.g, i) <= 16 * Sectors(vol.g, |ch|) && LiveUpTo(vol.g, vol.v, ch, p)
      decreases |ch| - i
    {
      found, l, p := FreeSlotIn(vol, cluster, ch, i);
      if found {
        FreeSlotShows(vol.g, vol.v, ch, p);
        return;
      }
      last := cluster;
      cluster := vol.NextCluster(cluster);
      ChainEnd(vol.v.fat, ch, i);
      SectorsStep(vol.g, i, |ch|);
      i := i + 1;
    }
    found, l := false, Loc(0, 0, 0);
  }

  // ----- inserting

  /** A fresh archive entry: 11-byte name, first cluster, size, everything else zero. */
  function NewEntry(raw: seq<byte>, cluster: nat, size: nat): (e: seq<byte>)
    requires |raw| == 11 && cluster < 0x1_0000_0000 && size < 0x1_0000_0000
    ensures |e| == DIRENT_SIZE && e[..11] == raw && e[11] == 0x20
    ensures FirstCluster(e) == cluster && FileSize(e) == size
  {
    var blank := raw + [0x20] + seq(20, _ => 0);
    PutWord(PutHalf(PutHalf(blank, 20, cluster / 0x1_0000), 26, cluster % 0x1_0000), 28, size)
  }

  /** One directory slot rewritten in place by a sector read-modify-write. */
  method StoreSlot(vol: Volume, l: Loc, e: seq<byte>)
    requires vol.Valid() && InBounds(vol.g, l) && |e| == DIRENT_SIZE
    modifies vol.d, vol`v, vol`steps
    ensures vol.Valid() && SameOutside(old(vol.d.disk), vol.d.disk, vol.g)
    ensures SlotWrite(vol.g, old(vol.v), vol.v, l) && Slot(vol.g, vol.v, l) == e
    ensures vol.steps == old(vol.steps) + [vol.v]
  {
    hide Volume.Valid, SlotWrite;
    var buf := vol.ReadSector(l.cluster, l.sector);
    var sector: Sector := Splice(buf, 32 * l.slot, e);
    StoredSlot(vol.g, vol.v, l, sector);
    vol.WriteSector(l.cluster, l.sector, sector);
    assert sector[32 * l.slot..32 * l.slot + 32] == e;
  }

  /** Directory `id` may have grown by one cluster; no other owner changed. */
  ghost predicate DirGrew(own: Owners, own': Owners, id: nat)
    requires Dir(id) in own
  {
    && own'.Keys == own.Keys && own[Dir(id)] <= own'[Dir(id)]
    && forall o :: o in own && o != Dir(id) ==> own'[o] == own[o]
  }

  /** Growing a directory by zeroed clusters disturbs no file and brings in no live entry. */
  lemma DirExtended(g: Geometry, v0: View, v: View, own: Owners, id: nat, ch': seq<nat>)
    requires Inv(g, v0, own) && Dir(id) in own && Shaped(g, v) && Extended(v0, v, own[Dir(id)], ch')
    ensures Inv(g, v, own[Dir(id) := ch']) && SameFiles(g, v0, own, v, own[Dir(id) := ch'])
    ensures SlotsOutside(g, v0, v, own, {})
    ensures Complete(g, v0, own) ==> Complete(g, v, own[Dir(id) := ch'])
  {
    hide Inv, Complete, SameFiles;
    DirExtendedKept(g, v0, v, own, id, ch');
    DirExtendedInv(g, v0, v, own, id, ch');
    DirExtendedBytes(g, v0, v, own, id, ch');
    if Complete(g, v0, own) {
      DirExtendedComplete(g, v0, v, own, id, ch');
    }
  }

  lemma DirExtendedKept(g: Geometry, v0: View, v: View, own: Owners, id: nat, ch': seq<nat>)
    requires Inv(g, v0, own) && Dir(id) in own && Shaped(g, v) && Extended(v0, v, own[Dir(id)], ch')
    ensures forall o, i :: o in own && o != Dir(id) && 0 <= i < |own[o]| ==>
      && 2 <= own[o][i] < |v0.data| == |v.data|
      && v.fat[own[o][i]] == v0.fat[own[o][i]] && v.data[own[o][i]] == v0.data[own[o][i]]
    ensures forall c: nat :: InDir(own, c) ==> 2 <= c < |v0.data| && v.data[c] == v0.data[c]
    ensures forall l :: File(l) in own ==> InBounds(g, l) && Slot(g, v, l) == Slot(g, v0, l)
  {
    forall o, i | o in own && o != Dir(id) && 0 <= i < |own[o]|
      ensures && 2 <= own[o][i] < |v0.data| == |v.data|
              && v.fat[own[o][i]] == v0.fat[own[o][i]] && v.data[own[o][i]] == v0.data[own[o][i]]
    {
      assert ChainOk(v0, o, own[o]) && Apart(own[Dir(id)], own[o]);
      ChainEnd(v0.fat, own[o], i);
    }
    forall c: nat | InDir(own, c) ensures 2 <= c < |v0.data| && v.data[c] == v0.data[c] {
      var d :| Dir(d) in own && c in own[Dir(d)];
      var i :| 0 <= i < |own[Dir(d)]| && own[Dir(d)][i] == c;
      assert ChainOk(v0, Dir(d), own[Dir(d)]);
    }
  }

  lemma DirExtendedInv(g: Geometry, v0: View, v: View, own: Owners, id: nat, ch': seq<nat>)
    requires Inv(g, v0, own) && Dir(id) in own && Shaped(g, v) && Extended(v0, v, own[Dir(id)], ch')
    requires forall o, i :: o in own && o != Dir(id) && 0 <= i < |own[o]| ==>
      v.fat[own[o][i]] == v0.fat[own[o][i]] && v.data[own[o][i]] == v0.data[own[o][i]]
    requires forall l :: File(l) in own ==> InBounds(g, l) && Slot(g, v, l) == Slot(g, v0, l)
    ensures Inv(g, v, own[Dir(id) := ch'])
  {
    var own' := own[Dir(id) := ch'];
    forall o | o in own' ensures ChainOk(v, o, own'[o]) {
      if o != Dir(id) && own[o] != [] {
        assert ChainOk(v0, o, own[o]);
        SameChain(v0.fat, v.fat, own[o]);
      }
    }
    forall o, o' | o in own' && o' in own' && o != o' ensures Apart(own'[o], own'[o']) {
      if o == Dir(id) {
        NewApart(g, v0, v, own, id, ch', o');
      } else if o' == Dir(id) {
        NewApart(g, v0, v, own, id, ch', o);
      }
    }
    forall l | File(l) in own' ensures InDir(own', l.cluster) && FileOk(g, v, l, own'[File(l)]) {
      DirExtendedFile(g, v0, v, own, id, ch', l);
    }
  }

  lemma DirExtendedFile(g: Geometry, v0: View, v: View, own: Owners, id: nat, ch': seq<nat>, l: Loc)
    requires Inv(g, v0, own) && Dir(id) in own && Shaped(g, v) && own[Dir(id)] <= ch' && File(l) in own
    requires InBounds(g, l) && Slot(g, v, l) == Slot(g, v0, l) && ChainOk(v, File(l), own[File(l)])
    ensures InDir(own[Dir(id) := ch'], l.cluster) && FileOk(g, v, l, own[File(l)])
  {
    var own' := own[Dir(id) := ch'];
    var d :| Dir(d) in own && l.cluster in own[Dir(d)];
    assert Dir(d) in own' && own[Dir(d)] <= own'[Dir(d)];
    assert FileOk(g, v0, l, own[File(l)]);
  }

  lemma NewApart(g: Geometry, v0: View, v: View, own: Owners, id: nat, ch': seq<nat>, o: Owner)
    requires Inv(g, v0, own) && Dir(id) in own && Extended(v0, v, own[Dir(id)], ch') && o in own && o != Dir(id)
    ensures Apart(ch', own[o])
  {
    forall i, j | 0 <= i < |ch'| && 0 <= j < |own[o]| ensures ch'[i] != own[o][j] {
      assert ChainOk(v0, o, own[o]) && Apart(own[Dir(id)], own[o]);
      ChainEnd(v0.fat, own[o], j);
      assert i < |own[Dir(id)]| ==> ch'[i] == own[Dir(id)][i];
    }
  }

  lemma DirExtendedBytes(g: Geometry, v0: View, v: View, own: Owners, id: nat, ch': seq<nat>)
    requires Inv(g, v0, own) && Dir(id) in own && Inv(g, v, own[Dir(id) := ch'])
    requires forall o, i :: o in own && o != Dir(id) && 0 <= i < |own[o]| ==>
      2 <= own[o][i] < |v0.data| == |v.data| && v.data[own[o][i]] == v0.data[own[o][i]]
    requires forall l :: File(l) in own ==> InBounds(g, l) && Slot(g, v, l) == Slot(g, v0, l)
    ensures SameFiles(g, v0, own, v, own[Dir(id) := ch'])
  {
    hide Inv, Content, Sectors;
    forall l | File(l) in own ensures Bytes(g, v, own[Dir(id) := ch'], l) == Bytes(g, v0, own, l) {
      FileStored(g, v0, own, l);
      SameContent(g, v0, own[File(l)], v, own[File(l)], FileSize(Slot(g, v, l)));
    }
  }

  lemma ZeroNamesNothing(g: Geometry, v: View, l: Loc)
    requires Shaped(g, v) && InBounds(g, l) && AllZero(v.data[l.cluster])
    ensures !Live(Slot(g, v, l))
  {
    assert v.data[l.cluster][l.sector] == ZeroSector();
  }

  lemma DirExtendedComplete(g: Geometry, v0: View, v: View, own: Owners, id: nat, ch': seq<nat>)
    requires Inv(g, v0, own) && Dir(id) in own && Shaped(g, v) && Extended(v0, v, own[Dir(id)], ch')
    requires Complete(g, v0, own)
    requires forall c: nat :: InDir(own, c) ==> 2 <= c < |v0.data| && v.data[c] == v0.data[c]
    ensures Complete(g, v, own[Dir(id) := ch'])
  {
    var own' := own[Dir(id) := ch'];
    forall l | InBounds(g, l) && InDir(own', l.cluster) && NamesFile(Slot(g, v, l)) ensures File(l) in own' {
      var d :| Dir(d) in own' && l.cluster in own'[Dir(d)];
      var i :| 0 <= i < |own'[Dir(d)]| && own'[Dir(d)][i] == l.cluster;
      if d == id && i >= |own[Dir(id)]| {
        ZeroNamesNothing(g, v, l);
      } else {
        assert own[Dir(d)][i] == l.cluster;
        assert InDir(own, l.cluster);
      }
    }
  }

  /** What a successful insertion leaves: the directory perhaps one cluster longer, every file and every other slot as
      before, and the new entry in a slot that belonged to no file. */
  ghost predicate Inserted(g: Geometry, v0: View, own: Owners, v: View, own': Owners, id: nat, l: Loc, e: seq<byte>)
    requires Inv(g, v0, own) && Dir(id) in own
  {
    && Inv(g, v, own') && DirGrew(own, own', id) && SameFiles(g, v0, own, v, own') && SlotsOutside(g, v0, v, own, {l})
    && InBounds(g, l) && InDir(own', l.cluster) && File(l) !in own' && Slot(g, v, l) == e
    && (Complete(g, v0, own) ==> CompleteBut(g, v, own', l))
  }

  /** Slot number `p` is the first of the directory that could be reused, or the first of a cluster added for it because
      none could; the rest of such a cluster holds end marks. */
  ghost predicate FirstReusable(g: Geometry, v0: View, ch: seq<nat>, v: View, ch': seq<nat>, p: nat)
    requires Shaped(g, v0) && InRange(g, ch) && Shaped(g, v) && InRange(g, ch')
  {
    && p <= 16 * Sectors(g, |ch|) && p < 16 * Sectors(g, |ch'|) && LiveUpTo(g, v0, ch, p)
    && (p < 16 * Sectors(g, |ch|) ==> ch' == ch && !Live(DirSlot(g, v0, ch, p)))
    && (forall q: nat :: 16 * Sectors(g, |ch|) <= q < 16 * Sectors(g, |ch'|) && q != p ==>
       EndMark(DirSlot(g, v, ch', q)))
  }

  /** Complete, except perhaps for slot `l`. */
  ghost predicate CompleteBut(g: Geometry, v: View, own: Owners, l: Loc)
    requires Shaped(g, v)
  {
    forall k :: InBounds(g, k) && k != l && InDir(own, k.cluster) && NamesFile(Slot(g, v, k)) ==> File(k) in own
  }

  /** Filling a slot that is not live. */
  lemma FilledSlot(g: Geometry, v0: View, v1: View, own: Owners, own1: Owners, v: View, id: nat, l: Loc, e: seq<byte>)
    requires Inv(g, v0, own) && Dir(id) in own && Inv(g, v1, own1) && DirGrew(own, own1, id)
    requires SameFiles(g, v0, own, v1, own1)
    requires SlotsOutside(g, v0, v1, own, {}) && (Complete(g, v0, own) ==> Complete(g, v1, own1))
    requires InBounds(g, l) && InDir(own1, l.cluster) && !Live(Slot(g, v1, l))
    requires SlotWrite(g, v1, v, l) && Slot(g, v, l) == e
    ensures Inserted(g, v0, own, v, own1, id, l, e)
  {
    hide Inv, SlotWrite, Kept, Content;
    NotAFile(g, v1, own1, l);
    SlotWriteKept(g, v1, v, own1, l);
    KeptInv(g, v1, v, own1);
    forall k | InBounds(g, k) && InDir(own, k.cluster) && k != l ensures Slot(g, v, k) == Slot(g, v0, k) {
      SlotWriteOther(g, v1, v, l, k);
    }
    if Complete(g, v0, own) {
      SlotWriteComplete(g, v1, v, own1, l);
    }
  }

  lemma NotAFile(g: Geometry, v: View, own: Owners, l: Loc)
    requires Inv(g, v, own) && InBounds(g, l) && !Live(Slot(g, v, l))
    ensures File(l) !in own
  {
  }

  lemma SlotWriteComplete(g: Geometry, v0: View, v: View, own: Owners, l: Loc)
    requires SlotWrite(g, v0, v, l) && Complete(g, v0, own)
    ensures CompleteBut(g, v, own, l)
  {
  }

  /** fat32_insert_dirent: the first reusable slot gets the entry, and at no point is a file unreadable. */
  method InsertDirent(vol: Volume, start: nat, raw: seq<byte>, cluster: nat, size: nat, ghost id: nat,
                      ghost own: Owners)
    returns (ok: bool, l: Loc, ghost own': Owners, ghost p: nat)
    requires vol.Valid() && Inv(vol.g, vol.v, own) && Dir(id) in own && own[Dir(id)] != [] && start == own[Dir(id)][0]
    requires |raw| == 11 && cluster < 0x1_0000_0000 && size < 0x1_0000_0000
    modifies vol, vol.d
    ensures vol.Valid() && SameOutside(old(vol.d.disk), vol.d.disk, vol.g)
    ensures InRange(vol.g, own[Dir(id)]) && (!ok <==> Full(old(vol.v)) && SlotsTaken(vol.g, old(vol.v), own[Dir(id)]))
    ensures !ok ==> vol.v == old(vol.v) && vol.steps == old(vol.steps) && own' == own
    ensures ok ==>
      && Inserted(vol.g, old(vol.v), own, vol.v, own', id, l, NewEntry(raw, cluster, size))
      && InRange(vol.g, own'[Dir(id)]) && FirstReusable(vol.g, old(vol.v), own[Dir(id)], vol.v, own'[Dir(id)], p)
      && l == LocAt(vol.g, own'[Dir(id)], p)
    ensures old(vol.steps) <= vol.steps && CrashSafe(vol.g, old(vol.v), own, vol.steps, |old(vol.steps)|)
  {
    hide Volume.Valid, Inv, SameOutside, SameFiles, Complete, SlotWrite, Extended, NewEntry, SlotsTaken, Full,
      SlotsOutside, FirstReusable, AllReadable, Sectors, LocAt, LiveUpTo;
    ghost var v0, ch, disk0 := vol.v, own[Dir(id)], vol.d.disk;
    own' := own;
    OutsideRefl(disk0, vol.g);
    DirIsChain(vol.g, v0, own, id);
    SameFilesRefl(vol.g, v0, own);
    OutsideNone(vol.g, v0, own);
    var last;
    ok, l, last, p := FreeSlot(vol, start, ch);
    ghost var had := ok;
    if !ok {
      var c;
      ghost var ch';
      c, ch' := AppendCluster(vol, last, ch);
      if c == 0 {
        return;
      }
      ok, l := true, Loc(c, 0, 0);
      own' := own[Dir(id) := ch'];
      DirExtended(vol.g, v0, vol.v, own, id, ch');
      ExtendedPrefix(v0, vol.v, ch, ch');
      ZeroNamesNothing(vol.g, vol.v, l);
      AppendSafe(vol.g, v0, own, vol.v, own', vol.steps, |old(vol.steps)|);
    }
    assert Dir(id) in own' && l.cluster in own'[Dir(id)];
    ghost var v1, disk1, steps1 := vol.v, vol.d.disk, vol.steps;
    StoreSlot(vol, l, NewEntry(raw, cluster, size));
    OutsideTrans(disk0, disk1, vol.d.disk, vol.g);
    FilledSlot(vol.g, v0, v1, own, own', vol.v, id, l, NewEntry(raw, cluster, size));
    SameFilesReadable(vol.g, v0, own, vol.v, own');
    DirIsChain(vol.g, vol.v, own', id);
    if had {
      OldSlotReused(vol.g, v0, vol.v, ch, p);
    } else {
      NewSlotTaken(vol.g, v0, v1, vol.v, ch, l.cluster, l);
    }
  }

  lemma OutsideNone(g: Geometry, v: View, own: Owners)
    requires Shaped(g, v)
    ensures SlotsOutside(g, v, v, own, {})
  {
  }

  lemma OldSlotReused(g: Geometry, v0: View, v: View, ch: seq<nat>, p: nat)
    requires Shaped(g, v0) && Shaped(g, v) && InRange(g, ch) && p < 16 * Sectors(g, |ch|) && LiveUpTo(g, v0, ch, p)
    requires !Live(Slot(g, v0, LocAt(g, ch, p)))
    ensures FirstReusable(g, v0, ch, v, ch, p)
  {
    LocSlot(g, v0, ch, p);
  }

  /** The added cluster's first slot is the one taken; the others stay zero. */
  lemma NewSlotTaken(g: Geometry, v0: View, v1: View, v: View, ch: seq<nat>, c: nat, l: Loc)
    requires Shaped(g, v0) && Shaped(g, v1) && Shaped(g, v) && InRange(g, ch) && g.IsCluster(c) && l == Loc(c, 0, 0)
    requires SlotsTaken(g, v0, ch) && AllZero(v1.data[c]) && SlotWrite(g, v1, v, l)
    ensures InRange(g, ch + [c]) && FirstReusable(g, v0, ch, v, ch + [c], 16 * Sectors(g, |ch|))
    ensures l == LocAt(g, ch + [c], 16 * Sectors(g, |ch|))
  {
    hide Sectors, LocAt, DirSlot, SlotWrite, Entry;
    var ch', p := ch + [c], 16 * Sectors(g, |ch|);
    SectorsStep(g, |ch|, |ch'|);
    SlotNumber(g, v, ch', |ch|, 0, 0);
    forall q: nat | p <= q < 16 * Sectors(g, |ch'|) && q != p ensures EndMark(DirSlot(g, v, ch', q)) {
      var s, e := (q - p) / 16, (q - p) % 16;
      assert s < g.spc && q == 16 * (Sectors(g, |ch|) + s) + e;
      SlotNumber(g, v, ch', |ch|, s, e);
      SlotWriteOther(g, v1, v, l, Loc(c, s, e));
      ZeroEndMark(g, v1, Loc(c, s, e));
    }
  }

  lemma ZeroEndMark(g: Geometry, v: View, l: Loc)
    requires Shaped(g, v) && InBounds(g, l) && AllZero(v.data[l.cluster])
    ensures EndMark(Slot(g, v, l))
  {
    assert v.data[l.cluster][l.sector] == ZeroSector();
  }

  /** While a directory grows, the disk either has only free clusters changed or is already in its final state. */
  lemma AppendSafe(g: Geometry, v0: View, own: Owners, v: View, own': Owners, steps: seq<View>, from: nat)
    requires Inv(g, v0, own) && Inv(g, v, own') && SameFiles(g, v0, own, v, own') && from <= |steps|
    requires forall k :: from <= k < |steps| ==> Shaped(g, steps[k]) && (Grows(v0, steps[k]) || steps[k] == v)
    ensures CrashSafe(g, v0, own, steps, from)
  {
    hide Inv, AllReadable, SameFiles, Grows;
    SameFilesReadable(g, v0, own, v, own');
    forall k | from <= k < |steps| ensures AllReadable(g, v0, own, steps[k]) {
      if Grows(v0, steps[k]) {
        GrowsReadable(g, v0, steps[k], own);
      }
    }
  }

  lemma DirIsChain(g: Geometry, v: View, own: Owners, id: nat)
    requires Inv(g, v, own) && Dir(id) in own
    ensures IsChain(v.fat, own[Dir(id)]) && InRange(g, own[Dir(id)])
  {
    assert ChainOk(v, Dir(id), own[Dir(id)]);
  }

  lemma ExtendedPrefix(v0: View, v: View, ch: seq<nat>, ch': seq<nat>)
    requires Extended(v0, v, ch, ch')
    ensures ch <= ch'
  {
  }

  /** Directory growth: one zeroed cluster linked behind the last. */
  method AppendCluster(vol: Volume, last: nat, ghost ch: seq<nat>) returns (c: nat, ghost ch': seq<nat>)
    requires vol.Valid() && IsChain(vol.v.fat, ch) && last == ch[|ch| - 1]
    modifies vol, vol.d
    ensures vol.Valid() && SameOutside(old(vol.d.disk), vol.d.disk, vol.g)
    ensures c == 0 <==> Full(old(vol.v))
    ensures c == 0 ==> vol.v == old(vol.v) && vol.steps == old(vol.steps)
    ensures c != 0 ==>
      ch' == ch + [c] && Extended(old(vol.v), vol.v, ch, ch') && vol.g.IsCluster(c) && AllZero(vol.v.data[c])
    ensures old(vol.steps) <= vol.steps && forall k :: |old(vol.steps)| <= k < |vol.steps| ==>
      Shaped(vol.g, vol.steps[k]) && (Grows(old(vol.v), vol.steps[k]) || vol.steps[k] == vol.v)
  {
    hide Volume.Valid, SameOutside, Extended, Grows, AllZero, Geometry.PowerOfTwo;
    ghost var v0, disk0 := vol.v, vol.d.disk;
    c := AllocCluster(vol);
    if c == 0 {
      return 0, ch;
    }
    ghost var v1, disk1, n1 := vol.v, vol.d.disk, |vol.steps|;
    ZeroRun(vol, c, 1);
    ghost var v2, disk2 := vol.v, vol.d.disk;
    StepsZeroed(v0, v1, c, vol.steps, |old(vol.steps)|, n1);
    vol.SetEntry(last, c);
    vol.StepsShaped();
    OutsideTrans(disk0, disk1, disk2, vol.g);
    OutsideTrans(disk0, disk2, vol.d.disk, vol.g);
    ch' := ch + [c];
    assert Linked(v0.fat, c, 1, 1) == v0.fat[c := EOC];
    assert Span(c, 1) == [c];
    Appended(v0, v1, v2, vol.v, ch, c, 1);
  }

  lemma StepsZeroed(v0: View, v1: View, c: nat, steps: seq<View>, from: nat, mid: nat)
    requires 2 <= c < |v0.fat| == |v0.data| && v0.fat[c] == 0 && v1 == v0.(fat := v0.fat[c := EOC])
    requires from <= mid <= |steps|
    requires StepsGrow(steps[..mid], from, v0) && StepsDataOnly(steps, mid, v1, [c])
    ensures StepsGrow(steps, from, v0)
  {
    forall k | from <= k < |steps| ensures Grows(v0, steps[k]) {
      if k < mid {
        assert steps[..mid][k] == steps[k];
      } else {
        assert DataOnly(v1, steps[k], [c]);
      }
    }
  }

  // ----- create

  /** fat32_create: an empty file under a new entry. A record whose first byte is 0xE5 reads as deleted, so the name
      that produces it creates nothing that can be found again. */
  method Create(vol: Volume, start: nat, name: seq<byte>, ghost id: nat, ghost own: Owners)
    returns (node: Node?, ghost own': Owners, ghost p: nat)
    requires vol.Valid() && Inv(vol.g, vol.v, own) && Dir(id) in own && own[Dir(id)] != [] && start == own[Dir(id)][0]
    requires 0 !in name
    modifies vol, vol.d
    ensures vol.Valid() && SameOutside(old(vol.d.disk), vol.d.disk, vol.g)
    ensures Inv(vol.g, vol.v, own') && SameFiles(vol.g, old(vol.v), own, vol.v, own')
    ensures Complete(vol.g, old(vol.v), own) ==> Complete(vol.g, vol.v, own')
    ensures forall d :: Dir(d) in own ==> Dir(d) in own' && own[Dir(d)] <= own'[Dir(d)]
    ensures InRange(vol.g, own[Dir(id)])
    ensures node == null <==> Parsed(name).None? || (Full(old(vol.v)) && SlotsTaken(vol.g, old(vol.v), own[Dir(id)]))
    ensures node == null ==> own' == own && vol.v == old(vol.v)
    ensures old(vol.steps) <= vol.steps && CrashSafe(vol.g, old(vol.v), own, vol.steps, |old(vol.steps)|)
    ensures node != null ==>
      && fresh(node) && node.hasDirent && File(node.loc) !in own && own'.Keys - own.Keys <= {File(node.loc)}
      && InRange(vol.g, own'[Dir(id)]) && FirstReusable(vol.g, old(vol.v), own[Dir(id)], vol.v, own'[Dir(id)], p)
      && node.loc == LocAt(vol.g, own'[Dir(id)], p)
         && (forall d :: Dir(d) in own && d != id ==> own'[Dir(d)] == own[Dir(d)])
      && SlotsOutside(vol.g, old(vol.v), vol.v, own, {node.loc})
      && InBounds(vol.g, node.loc) && Slot(vol.g, vol.v, node.loc) == NewEntry(Parsed(name).value, 0, 0)
    ensures node != null && UpperAll(name)[0] != 0xE5 ==>
      node.Synced(vol.g, vol.v, own') && Bytes(vol.g, vol.v, own', node.loc) == []
    ensures node != null && UpperAll(name)[0] == 0xE5 ==> own'.Keys == own.Keys
  {
    hide Volume.Valid, Inv, SameOutside, SameFiles, Complete, Inserted, NewEntry, Parsed, Full, SlotsTaken,
      FirstReusable, LocAt, SlotsOutside, CrashSafe, Content;
    own', p := own, 0;
    OutsideRefl(vol.d.disk, vol.g);
    SameFilesRefl(vol.g, vol.v, own);
    var parsed := Parse83(name);
    DirIsChain(vol.g, vol.v, own, id);
    SafeRefl(vol.g, vol.v, own, vol.steps);
    if parsed.None? {
      return null, own, p;
    }
    var raw := parsed.value;
    ParsedHead(name);
    ghost var v0 := vol.v;
    ghost var own1;
    var ok, l;
    ok, l, own1, p := InsertDirent(vol, start, raw, 0, 0, id, own);
    if !ok {
      return null, own, p;
    }
    node := new Node(true, l, 0, 0);
    own' := CreateOwners(own1, l, raw);
    Created(vol.g, v0, own, vol.v, own1, id, l, raw);
  }

  ghost function CreateOwners(own: Owners, l: Loc, raw: seq<byte>): Owners
    requires |raw| == 11
  {
    if raw[0] == 0xE5 then own else own[File(l) := []]
  }

  lemma ParsedHead(name: seq<byte>)
    requires Parsed(name).Some? && 0 !in name
    ensures name != [] && Parsed(name).value[0] == UpperAll(name)[0] != 0
  {
  }

  lemma Created(g: Geometry, v0: View, own: Owners, v: View, own1: Owners, id: nat, l: Loc, raw: seq<byte>)
    requires Inv(g, v0, own) && Dir(id) in own && |raw| == 11 && raw[0] != 0
    requires Inserted(g, v0, own, v, own1, id, l, NewEntry(raw, 0, 0))
    ensures var own' := CreateOwners(own1, l, raw);
            && Inv(g, v, own') && SameFiles(g, v0, own, v, own') && File(l) !in own && own'.Keys - own.Keys <= {File(l)}
            && SlotsOutside(g, v0, v, own, {l}) && InBounds(g, l) && Slot(g, v, l) == NewEntry(raw, 0, 0)
            && own'[Dir(id)] == own1[Dir(id)] && (forall d :: Dir(d) in own && d != id ==> own'[Dir(d)] == own[Dir(d)])
            && (Complete(g, v0, own) ==> Complete(g, v, own'))
            && (forall d :: Dir(d) in own ==> Dir(d) in own' && own[Dir(d)] <= own'[Dir(d)])
            && (raw[0] == 0xE5 ==> own'.Keys == own.Keys)
            && (raw[0] != 0xE5 ==>
                 && File(l) in own' && FirstCluster(Slot(g, v, l)) == 0 == FileSize(Slot(g, v, l))
                 && Bytes(g, v, own', l) == [])
  {
    hide Inv, NewEntry, Content, Complete, CompleteBut, SlotsOutside;
    var own' := CreateOwners(own1, l, raw);
    assert raw == NewEntry(raw, 0, 0)[..11];
    assert NewEntry(raw, 0, 0)[0] == raw[0];
    if raw[0] != 0xE5 {
      InvJoin(g, v, own1, l, []);
      JoinedBytes(g, v, own1, l, []);
    }
    if Complete(g, v0, own) {
      CompleteJoin(g, v, own1, own', l);
    }
  }

  /** Adding a file leaves the bytes of the others. */
  lemma JoinedBytes(g: Geometry, v: View, own: Owners, l: Loc, ch: seq<nat>)
    requires Inv(g, v, own) && Inv(g, v, own[File(l) := ch])
    ensures forall k :: File(k) in own && k != l ==> Bytes(g, v, own[File(l) := ch], k) == Bytes(g, v, own, k)
  {
    hide Inv, Content;
  }

  lemma CompleteJoin(g: Geometry, v: View, own: Owners, own': Owners, l: Loc)
    requires Shaped(g, v) && CompleteBut(g, v, own, l) && own.Keys <= own'.Keys
    requires forall d :: Dir(d) in own' ==> Dir(d) in own && own'[Dir(d)] == own[Dir(d)]
    requires InBounds(g, l) && (File(l) in own' || !Live(Slot(g, v, l)))
    ensures Complete(g, v, own')
  {
    forall k | InBounds(g, k) && InDir(own', k.cluster) && NamesFile(Slot(g, v, k)) ensures File(k) in own' {
      var d :| Dir(d) in own' && k.cluster in own'[Dir(d)];
      assert InDir(own, k.cluster);
    }
  }
}
