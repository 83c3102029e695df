/** Each operation as a change of what names mean, for volumes whose directories are well formed. */
module Fat32Refine {
  import opened Words
  import opened BlockStore
  import opened Fat32Table
  import opened Fat32Volume
  import opened Fat32Chains
  import opened Fat32Files
  import opened Fat32Alloc
  import opened Fat32Dirents
  import opened Fat32Write
  import opened Fat32Names
  import opened Fat32Dirs
  import opened Fat32Moves
  import opened Fat32Tree

  /** Files outside the slots in `at` keep their bytes, directories keep their clusters and may grow. */
  ghost predicate Steady(g: Geometry, v0: View, own: Owners, v: View, own': Owners, n: nat, at: set<Loc>)
    requires Rooted(g, v0, own, n) && Rooted(g, v, own', n)
  {
    && SlotsOutside(g, v0, v, own, at)
    && (forall d :: 0 <= d < n ==> own[Dir(d)] <= own'[Dir(d)])
    && (forall k :: File(k) in own && k !in at ==> File(k) in own' && Bytes(g, v, own', k) == Bytes(g, v0, own, k))
  }

  lemma CountGrows(g: Geometry, ch: seq<nat>, ch': seq<nat>)
    requires ch <= ch'
    ensures SlotCount(g, ch) <= SlotCount(g, ch')
  {
    SectorsMono(g, |ch|, |ch'|);
  }

  lemma LocGrows(g: Geometry, ch: seq<nat>, ch': seq<nat>, p: nat)
    requires g.spc > 0 && ch <= ch' && p < SlotCount(g, ch)
    ensures p < SlotCount(g, ch') && LocAt(g, ch', p) == LocAt(g, ch, p)
  {
    CountGrows(g, ch, ch');
    SectorAt(g, p / 16, |ch|);
  }

  /** Two slot numbers never name the same slot. */
  lemma LocDistinct(g: Geometry, v: View, own: Owners, n: nat, d: nat, p: nat, d2: nat, q: nat)
    requires Rooted(g, v, own, n) && d < n && d2 < n
    requires p < SlotCount(g, own[Dir(d)]) && q < SlotCount(g, own[Dir(d2)])
    requires LocAt(g, own[Dir(d)], p) == LocAt(g, own[Dir(d2)], q)
    ensures d == d2 && p == q
  {
    hide Inv, Complete;
    if d != d2 {
      DirsApart(g, v, own, d, d2);
    }
    ChainAcyclic(v.fat, own[Dir(d)]);
    SectorAt(g, p / 16, |own[Dir(d)]|);
    SectorAt(g, q / 16, |own[Dir(d2)]|);
  }

  lemma SteadySlot(g: Geometry, v0: View, own: Owners, v: View, own': Owners, n: nat, at: set<Loc>, d: nat, q: nat)
    requires Rooted(g, v0, own, n) && Rooted(g, v, own', n) && Steady(g, v0, own, v, own', n, at)
    requires d < n && q < SlotCount(g, own[Dir(d)]) && LocAt(g, own[Dir(d)], q) !in at
    ensures KeptSlot(g, v0, own, v, own', d, q)
  {
    hide Inv, Complete, Sectors, DirSlot, LocAt, Content;
    var ch, ch' := own[Dir(d)], own'[Dir(d)];
    LocGrows(g, ch, ch', q);
    LocSlot(g, v0, ch, q);
    LocSlot(g, v, ch', q);
    assert InDir(own, LocAt(g, ch, q).cluster);
  }

  /** An edit that touched only `dead` and `filled` slots is one in the sense of the directory. */
  lemma EditedFrom(g: Geometry, v0: View, own: Owners, v: View, own': Owners, n: nat, at: set<Loc>, d: nat,
                   dead: set<nat>, filled: set<nat>, key: seq<byte>)
    requires Rooted(g, v0, own, n) && Rooted(g, v, own', n) && Steady(g, v0, own, v, own', n, at) && d < n
    requires forall q: nat :: q < SlotCount(g, own[Dir(d)]) && LocAt(g, own[Dir(d)], q) in at ==>
      q in dead || q in filled
    requires forall r :: r in dead ==>
      && r < SlotCount(g, own[Dir(d)]) && r < SlotCount(g, own'[Dir(d)])
      && DeadNow(DirSlot(g, v0, own[Dir(d)], r), DirSlot(g, v, own'[Dir(d)], r))
    requires forall r :: r in filled ==> Filled(g, v0, own[Dir(d)], v, own'[Dir(d)], r, key)
    requires forall q: nat :: SlotCount(g, own[Dir(d)]) <= q < SlotCount(g, own'[Dir(d)]) && q !in filled ==>
      EndMark(DirSlot(g, v, own'[Dir(d)], q))
    ensures Edited(g, v0, own, v, own', n, d, dead, filled, key)
  {
    hide Inv, Complete, Sectors, DirSlot, LocAt, Steady, Filled, KeptSlot;
    var ch := own[Dir(d)];
    assert ch <= own'[Dir(d)] by { SteadyPrefix(g, v0, own, v, own', n, at, d); }
    CountGrows(g, ch, own'[Dir(d)]);
    forall q: nat | q < SlotCount(g, ch) && q !in dead && q !in filled ensures KeptSlot(g, v0, own, v, own', d, q) {
      SteadySlot(g, v0, own, v, own', n, at, d, q);
    }
  }

  lemma SteadyPrefix(g: Geometry, v0: View, own: Owners, v: View, own': Owners, n: nat, at: set<Loc>, d: nat)
    requires Rooted(g, v0, own, n) && Rooted(g, v, own', n) && Steady(g, v0, own, v, own', n, at) && d < n
    ensures own[Dir(d)] <= own'[Dir(d)]
  {
  }

  // ----- what the names mean afterwards

  /** `name` in directory `id` now means `now`; every other name in every directory means what it meant. */
  ghost predicate Became(g: Geometry, v0: View, own: Owners, v: View, own': Owners, n: nat, id: nat, name: seq<byte>,
                         now: Named)
    requires Rooted(g, v0, own, n) && Rooted(g, v, own', n)
  {
    forall d, x :: 0 <= d < n ==>
      NamedAt(g, v, own', n, d, x) == if d == id && SameName(x, name) then now else NamedAt(g, v0, own, n, d, x)
  }

  /** The file found under `name` in `id` is now found under `key` in `id2`, with the same bytes. */
  ghost predicate Relocated(g: Geometry, v0: View, own: Owners, v: View, own': Owners, n: nat,
                            id: nat, name: seq<byte>, id2: nat, key: seq<byte>)
    requires Rooted(g, v0, own, n) && Rooted(g, v, own', n) && id < n
  {
    forall d, x :: 0 <= d < n ==>
      NamedAt(g, v, own', n, d, x) ==
        if d == id2 && SameName(x, key) then NamedAt(g, v0, own, n, id, name)
        else if d == id && SameName(x, name) then Absent
        else NamedAt(g, v0, own, n, d, x)
  }

  ghost predicate Unmoved(g: Geometry, v0: View, own: Owners, v: View, own': Owners, n: nat)
    requires Rooted(g, v0, own, n) && Rooted(g, v, own', n)
  {
    forall d, x :: 0 <= d < n ==> NamedAt(g, v, own', n, d, x) == NamedAt(g, v0, own, n, d, x)
  }

  /** Edits of all directories that each leave at most one slot per name leave the volume well formed. */
  lemma StillNeat(g: Geometry, v0: View, own: Owners, v: View, own': Owners, n: nat,
                  dead: seq<set<nat>>, filled: seq<set<nat>>, key: seq<byte>)
    requires Neat(g, v0, own, n) && Rooted(g, v, own', n) && |dead| == |filled| == n
    requires forall d :: 0 <= d < n ==> Edited(g, v0, own, v, own', n, d, dead[d], filled[d], key)
    requires forall d :: 0 <= d < n ==> OnlyFilled(g, v0, own[Dir(d)], dead[d], filled[d], key)
    ensures Neat(g, v, own', n)
  {
    hide Edited, OnlyFilled, Tidy, Unambiguous;
    forall d | 0 <= d < n ensures Tidy(g, v, own'[Dir(d)]) && Unambiguous(g, v, own'[Dir(d)]) {
      EditTidy(g, v0, own, v, own', n, d, dead[d], filled[d], key);
      EditUnambiguous(g, v0, own, v, own', n, d, dead[d], filled[d], key);
    }
  }

  function Only(n: nat, d: nat, s: set<nat>): (r: seq<set<nat>>)
    ensures |r| == n && forall i :: 0 <= i < n ==> r[i] == if i == d then s else {}
  {
    seq(n, i => if i == d then s else {})
  }

  /** A slot that stays live under its name. */
  lemma FilledInPlace(g: Geometry, v0: View, v: View, ch: seq<nat>, name: seq<byte>, p: nat, key: seq<byte>)
    requires Shaped(g, v0) && Shaped(g, v) && InRange(g, ch) && Finds(g, v0, ch, name, p)
    requires Live(DirSlot(g, v, ch, p)) && !NamesDir(DirSlot(g, v, ch, p))
    requires forall x :: Match(g, v, ch, x, p) <==> SameName(x, key)
    ensures Filled(g, v0, ch, v, ch, p, key)
  {
    hide DirSlot, Sectors, Match;
  }

  lemma HitNames(e: seq<byte>, name: seq<byte>)
    requires |e| == DIRENT_SIZE && Hit(e, name)
    ensures forall x :: Hit(e, x) <==> SameName(x, name)
  {
  }

  // ----- writing and defragmenting

  /** The file at slot `p` was rewritten, its entry keeping name and attributes. */
  lemma WrittenNamed(g: Geometry, v0: View, own: Owners, v: View, own': Owners, n: nat, id: nat, name: seq<byte>,
                     p: nat)
    requires Neat(g, v0, own, n) && Rooted(g, v, own', n) && id < n && Finds(g, v0, own[Dir(id)], name, p)
    requires forall d :: 0 <= d < n ==> own'[Dir(d)] == own[Dir(d)]
    requires var l := LocAt(g, own[Dir(id)], p);
             && InBounds(g, l) && !NamesDir(Slot(g, v0, l)) && SlotsKept(g, v0, v, own, l)
             && OthersSame(g, v0, own, v, own', l) && File(l) in own'
    ensures Neat(g, v, own', n)
    ensures Became(g, v0, own, v, own', n, id, name, Data(Bytes(g, v, own', LocAt(g, own[Dir(id)], p))))
  {
    hide Inv, Complete, Sectors, DirSlot, LocAt, NamedAt, Tidy, Unambiguous, Edited, Content, Filled, OnlyFilled, Match,
      NamesDir, Slot, SlotsKept, OthersSame, Steady;
    var ch, l := own[Dir(id)], LocAt(g, own[Dir(id)], p);
    var dead, filled := Only(n, id, {}), Only(n, id, {p});
    TouchedSlot(g, v0, v, own, ch, name, p);
    OnlyInPlace(g, v0, ch, {}, name, p, name);
    SteadyWritten(g, v0, own, v, own', n, l);
    forall d | 0 <= d < n
      ensures Edited(g, v0, own, v, own', n, d, dead[d], filled[d], name)
      ensures OnlyFilled(g, v0, own[Dir(d)], dead[d], filled[d], name)
    {
      forall q: nat | q < SlotCount(g, own[Dir(d)]) && LocAt(g, own[Dir(d)], q) == l ensures d == id && q == p {
        LocDistinct(g, v0, own, n, d, q, id, p);
      }
      EditedFrom(g, v0, own, v, own', n, {l}, d, dead[d], filled[d], name);
      OnlyNothing(g, v0, own[Dir(d)], dead[d], name);
    }
    StillNeat(g, v0, own, v, own', n, dead, filled, name);
    forall d, x | 0 <= d < n ensures NamedAt(g, v, own', n, d, x) ==
      if d == id && SameName(x, name) then Data(Bytes(g, v, own', l)) else NamedAt(g, v0, own, n, d, x)
    {
      EditNamed(g, v0, own, v, own', n, d, dead[d], filled[d], name, x);
      assert d == id ==> p in filled[d];
    }
  }

  lemma SteadyWritten(g: Geometry, v0: View, own: Owners, v: View, own': Owners, n: nat, l: Loc)
    requires Rooted(g, v0, own, n) && Rooted(g, v, own', n) && forall d :: 0 <= d < n ==> own'[Dir(d)] == own[Dir(d)]
    requires SlotsKept(g, v0, v, own, l) && OthersSame(g, v0, own, v, own', l)
    ensures Steady(g, v0, own, v, own', n, {l})
  {
    hide Inv, Complete, Content;
  }

  lemma TouchedSlot(g: Geometry, v0: View, v: View, own: Owners, ch: seq<nat>, name: seq<byte>, p: nat)
    requires Shaped(g, v0) && Shaped(g, v) && InRange(g, ch) && Finds(g, v0, ch, name, p)
    requires var l := LocAt(g, ch, p); InBounds(g, l) && !NamesDir(Slot(g, v0, l)) && SlotsKept(g, v0, v, own, l)
    ensures Filled(g, v0, ch, v, ch, p, name) && forall x :: Match(g, v0, ch, x, p) <==> SameName(x, name)
  {
    hide Sectors, LocAt, DirSlot, Slot, SameName;
    LocSlot(g, v0, ch, p);
    LocSlot(g, v, ch, p);
    KeptHits(DirSlot(g, v0, ch, p), DirSlot(g, v, ch, p));
    HitNames(DirSlot(g, v0, ch, p), name);
    assert DirSlot(g, v, ch, p)[..12][11] == DirSlot(g, v0, ch, p)[..12][11];
    FilledInPlace(g, v0, v, ch, name, p, name);
  }

  /** Filling the slot that had the name, or one for a name that had none. */
  lemma OnlyInPlace(g: Geometry, v0: View, ch: seq<nat>, dead: set<nat>, name: seq<byte>, p: nat, key: seq<byte>)
    requires Shaped(g, v0) && InRange(g, ch) && Unambiguous(g, v0, ch)
    requires (Match(g, v0, ch, name, p) && SameName(name, key)) || forall q: nat :: !Match(g, v0, ch, key, q)
    ensures OnlyFilled(g, v0, ch, dead, {p}, key)
  {
    forall q: nat | Match(g, v0, ch, key, q) ensures q == p {
      MatchName(g, v0, ch, name, key, p);
    }
  }

  lemma OnlyNothing(g: Geometry, v0: View, ch: seq<nat>, dead: set<nat>, key: seq<byte>)
    requires Shaped(g, v0) && InRange(g, ch)
    ensures OnlyFilled(g, v0, ch, dead, {}, key)
  {
  }

  /** No file changed its bytes and no slot its name: nothing means anything else. */
  lemma UnmovedNamed(g: Geometry, v0: View, own: Owners, v: View, own': Owners, n: nat, l: Loc)
    requires Neat(g, v0, own, n) && Rooted(g, v, own', n) && SlotsKept(g, v0, v, own, l)
    requires SameFiles(g, v0, own, v, own')
    requires forall d :: 0 <= d < n ==> own'[Dir(d)] == own[Dir(d)]
    ensures Neat(g, v, own', n) && Unmoved(g, v0, own, v, own', n)
  {
    hide Inv, Complete, Sectors, DirSlot, LocAt, NamedAt, Tidy, Content;
    var none := Only(n, 0, {});
    forall d | 0 <= d < n ensures Edited(g, v0, own, v, own', n, d, {}, {}, []) {
      forall q: nat | q < SlotCount(g, own[Dir(d)]) ensures KeptSlot(g, v0, own, v, own', d, q) {
        LocSlot(g, v0, own[Dir(d)], q);
        LocSlot(g, v, own[Dir(d)], q);
        assert InDir(own, LocAt(g, own[Dir(d)], q).cluster);
        assert DirSlot(g, v, own[Dir(d)], q)[..12] == DirSlot(g, v0, own[Dir(d)], q)[..12];
        assert DirSlot(g, v, own[Dir(d)], q)[..12][11] == DirSlot(g, v0, own[Dir(d)], q)[..12][11];
      }
    }
    StillNeat(g, v0, own, v, own', n, none, none, []);
    forall d, x | 0 <= d < n ensures NamedAt(g, v, own', n, d, x) == NamedAt(g, v0, own, n, d, x) {
      EditNamed(g, v0, own, v, own', n, d, {}, {}, [], x);
    }
  }

  // ----- unlink

  lemma UnlinkedNamed(g: Geometry, v0: View, own: Owners, v: View, own': Owners, n: nat, id: nat, name: seq<byte>,
                      p: nat)
    requires Neat(g, v0, own, n) && Rooted(g, v, own', n) && id < n && Finds(g, v0, own[Dir(id)], name, p)
    requires var l := LocAt(g, own[Dir(id)], p);
             InBounds(g, l) && Removed(g, v0, own, v, own', l) && Slot(g, v, l) == Deleted(Slot(g, v0, l))
    ensures Neat(g, v, own', n) && Became(g, v0, own, v, own', n, id, name, Absent)
  {
    hide Inv, Complete, Sectors, DirSlot, LocAt, NamedAt, Tidy, Edited, Content, SlotsOutside;
    var ch, l := own[Dir(id)], LocAt(g, own[Dir(id)], p);
    var dead, filled := Only(n, id, {p}), Only(n, id, {});
    KilledSlot(g, v0, v, ch, name, p);
    SteadyRemoved(g, v0, own, v, own', n, l);
    forall d | 0 <= d < n
      ensures Edited(g, v0, own, v, own', n, d, dead[d], filled[d], [])
      ensures OnlyFilled(g, v0, own[Dir(d)], dead[d], filled[d], [])
    {
      forall q: nat | q < SlotCount(g, own[Dir(d)]) && LocAt(g, own[Dir(d)], q) == l ensures d == id && q == p {
        LocDistinct(g, v0, own, n, d, q, id, p);
      }
      EditedFrom(g, v0, own, v, own', n, {l}, d, dead[d], filled[d], []);
    }
    StillNeat(g, v0, own, v, own', n, dead, filled, []);
    forall d, x | 0 <= d < n
      ensures NamedAt(g, v, own', n, d, x) == if d == id && SameName(x, name) then Absent
        else NamedAt(g, v0, own, n, d, x)
    {
      EditNamed(g, v0, own, v, own', n, d, dead[d], filled[d], [], x);
      assert d == id ==> p in dead[d];
    }
  }

  lemma SteadyRemoved(g: Geometry, v0: View, own: Owners, v: View, own': Owners, n: nat, l: Loc)
    requires Rooted(g, v0, own, n) && Rooted(g, v, own', n) && Removed(g, v0, own, v, own', l)
    ensures Steady(g, v0, own, v, own', n, {l}) && forall d :: 0 <= d < n ==> own'[Dir(d)] == own[Dir(d)]
  {
    hide Inv, Complete, Content;
  }

  /** A found slot, deleted. */
  lemma KilledSlot(g: Geometry, v0: View, v: View, ch: seq<nat>, name: seq<byte>, p: nat)
    requires Shaped(g, v0) && Shaped(g, v) && InRange(g, ch) && Finds(g, v0, ch, name, p)
    requires Slot(g, v, LocAt(g, ch, p)) == Deleted(Slot(g, v0, LocAt(g, ch, p)))
    ensures p < SlotCount(g, ch) && DeadNow(DirSlot(g, v0, ch, p), DirSlot(g, v, ch, p))
    ensures forall x :: Match(g, v0, ch, x, p) <==> SameName(x, name)
  {
    hide Sectors, LocAt, DirSlot, SameName;
    LocSlot(g, v0, ch, p);
    LocSlot(g, v, ch, p);
    HitNames(DirSlot(g, v0, ch, p), name);
  }

  // ----- create

  lemma AbsentNoMatch(g: Geometry, v: View, own: Owners, n: nat, d: nat, name: seq<byte>)
    requires Rooted(g, v, own, n) && d < n && Tidy(g, v, own[Dir(d)]) && NamedAt(g, v, own, n, d, name) == Absent
    ensures forall q: nat :: !Match(g, v, own[Dir(d)], name, q)
  {
    hide Inv, Complete, Match, Tidy, NamedAt, Finds;
    if p: nat :| Match(g, v, own[Dir(d)], name, p) {
      var q := FirstMatch(g, v, own[Dir(d)], name, p);
      FindsFirst(g, v, own[Dir(d)], name, q);
      NamedIs(g, v, own, n, d, name, q);
    }
  }

  predicate Usable(raw: seq<byte>) { |raw| == 11 && raw[0] != 0 && raw[0] != 0xE5 }

  lemma NewEntryHits(raw: seq<byte>, cluster: nat, size: nat)
    requires Usable(raw) && cluster < FOUR_GIB && size < FOUR_GIB
    ensures var e := NewEntry(raw, cluster, size);
            Live(e) && !NamesDir(e) && !EndMark(e) && forall x :: Hit(e, x) <==> SameName(x, Formatted(raw))
  {
    hide NewEntry;
    var e := NewEntry(raw, cluster, size);
    assert e[0] == e[..11][0];
  }

  /** A new entry in the first reusable slot. */
  lemma FilledAnew(g: Geometry, v0: View, ch: seq<nat>, v: View, ch': seq<nat>, p: nat, raw: seq<byte>, cluster: nat,
                   size: nat)
    requires Shaped(g, v0) && Shaped(g, v) && InRange(g, ch) && InRange(g, ch') && FirstReusable(g, v0, ch, v, ch', p)
    requires Usable(raw) && cluster < FOUR_GIB && size < FOUR_GIB
    requires Slot(g, v, LocAt(g, ch', p)) == NewEntry(raw, cluster, size)
    ensures p < SlotCount(g, ch') && Filled(g, v0, ch, v, ch', p, Formatted(raw)) && forall x :: !Match(g, v0, ch, x, p)
    ensures forall q: nat :: SlotCount(g, ch) <= q < SlotCount(g, ch') && q != p ==> EndMark(DirSlot(g, v, ch', q))
  {
    hide Sectors, LocAt, DirSlot, NewEntry, NamesDir, SameName;
    LocSlot(g, v, ch', p);
    NewEntryHits(raw, cluster, size);
  }

  /** Where the slot of number `p` lies, no other number of any directory leads. */
  lemma NewLocDistinct(g: Geometry, v0: View, own: Owners, v: View, own': Owners, n: nat, id: nat, p: nat, d: nat,
                       q: nat)
    requires Rooted(g, v0, own, n) && Rooted(g, v, own', n) && id < n && d < n && own[Dir(d)] <= own'[Dir(d)]
    requires p < SlotCount(g, own'[Dir(id)]) && q < SlotCount(g, own[Dir(d)])
    requires LocAt(g, own[Dir(d)], q) == LocAt(g, own'[Dir(id)], p)
    ensures d == id && q == p
  {
    hide Inv, Complete, Sectors, LocAt;
    LocGrows(g, own[Dir(d)], own'[Dir(d)], q);
    LocDistinct(g, v, own', n, d, q, id, p);
  }

  lemma CreatedNamed(g: Geometry, v0: View, own: Owners, v: View, own': Owners, n: nat, id: nat, raw: seq<byte>, p: nat)
    requires Neat(g, v0, own, n) && Rooted(g, v, own', n) && id < n && Usable(raw)
    requires FirstReusable(g, v0, own[Dir(id)], v, own'[Dir(id)], p)
    requires var l := LocAt(g, own'[Dir(id)], p);
             && SlotsOutside(g, v0, v, own, {l}) && InBounds(g, l) && Slot(g, v, l) == NewEntry(raw, 0, 0)
                && File(l) in own'
    requires SameFiles(g, v0, own, v, own') && NamedAt(g, v0, own, n, id, Formatted(raw)) == Absent
    requires forall d :: 0 <= d < n ==> if d == id then own[Dir(d)] <= own'[Dir(d)] else own'[Dir(d)] == own[Dir(d)]
    ensures Neat(g, v, own', n)
    ensures Became(g, v0, own, v, own', n, id, Formatted(raw), Data(Bytes(g, v, own', LocAt(g, own'[Dir(id)], p))))
  {
    hide Inv, Complete, Sectors, DirSlot, LocAt, NamedAt, Tidy, Edited, Content, SlotsOutside, Filled, Match,
      OnlyFilled, NewEntry, Unambiguous, LiveUpTo;
    var ch, l, key := own[Dir(id)], LocAt(g, own'[Dir(id)], p), Formatted(raw);
    var dead, filled := Only(n, id, {}), Only(n, id, {p});
    AbsentNoMatch(g, v0, own, n, id, key);
    FilledAnew(g, v0, ch, v, own'[Dir(id)], p, raw, 0, 0);
    OnlyInPlace(g, v0, ch, {}, key, p, key);
    forall d | 0 <= d < n
      ensures Edited(g, v0, own, v, own', n, d, dead[d], filled[d], key)
      ensures OnlyFilled(g, v0, own[Dir(d)], dead[d], filled[d], key)
    {
      forall q: nat | q < SlotCount(g, own[Dir(d)]) && LocAt(g, own[Dir(d)], q) == l ensures d == id && q == p {
        NewLocDistinct(g, v0, own, v, own', n, id, p, d, q);
      }
      EditedFrom(g, v0, own, v, own', n, {l}, d, dead[d], filled[d], key);
      OnlyNothing(g, v0, own[Dir(d)], dead[d], key);
    }
    StillNeat(g, v0, own, v, own', n, dead, filled, key);
    forall d, x | 0 <= d < n ensures NamedAt(g, v, own', n, d, x) ==
      if d == id && SameName(x, key) then Data(Bytes(g, v, own', l)) else NamedAt(g, v0, own, n, d, x)
    {
      EditNamed(g, v0, own, v, own', n, d, dead[d], filled[d], key, x);
      assert d == id ==> p in filled[d];
    }
  }

  // ----- rename

  /** The new name is free in its directory, or is the very name the file has. */
  ghost predicate NameFree(g: Geometry, v: View, own: Owners, n: nat, id: nat, name: seq<byte>, id2: nat,
                           key: seq<byte>)
    requires Rooted(g, v, own, n) && id2 < n
  {
    NamedAt(g, v, own, n, id2, key) == Absent || (id == id2 && SameName(name, key))
  }

  lemma RenamedHits(e: seq<byte>, name: seq<byte>, raw: seq<byte>)
    requires |e| == DIRENT_SIZE && Hit(e, name) && !NamesDir(e) && Usable(raw)
    ensures var r := Renamed(e, raw);
            Live(r) && !NamesDir(r) && forall x :: Hit(r, x) <==> SameName(x, Formatted(raw))
  {
  }

  lemma RenamedInPlace(g: Geometry, v0: View, v: View, ch: seq<nat>, name: seq<byte>, p: nat, raw: seq<byte>)
    requires Shaped(g, v0) && Shaped(g, v) && InRange(g, ch) && Finds(g, v0, ch, name, p) && Usable(raw)
    requires var l := LocAt(g, ch, p); !NamesDir(Slot(g, v0, l)) && Slot(g, v, l) == Renamed(Slot(g, v0, l), raw)
    ensures Filled(g, v0, ch, v, ch, p, Formatted(raw)) && forall x :: Match(g, v0, ch, x, p) <==> SameName(x, name)
  {
    hide Sectors, LocAt, DirSlot, Slot, SameName, Renamed, NamesDir;
    LocSlot(g, v0, ch, p);
    LocSlot(g, v, ch, p);
    HitNames(DirSlot(g, v0, ch, p), name);
    RenamedHits(DirSlot(g, v0, ch, p), name, raw);
    FilledInPlace(g, v0, v, ch, name, p, Formatted(raw));
  }

  lemma SteadyMoved(g: Geometry, v0: View, own: Owners, v: View, own': Owners, n: nat, l: Loc, m: Loc)
    requires Rooted(g, v0, own, n) && Rooted(g, v, own', n) && forall d :: 0 <= d < n ==> own[Dir(d)] <= own'[Dir(d)]
    requires SlotsOutside(g, v0, v, own, {l, m}) && RestSame(g, v0, own, v, own', l)
    ensures Steady(g, v0, own, v, own', n, {l, m})
  {
    hide Inv, Complete, Content;
  }

  /** What the name of a found file means is the file. */
  lemma FileNamed(g: Geometry, v0: View, own: Owners, v: View, own': Owners, n: nat, id: nat, name: seq<byte>, p: nat,
                  m: Loc,
                  raw: seq<byte>)
    requires Rooted(g, v0, own, n) && Rooted(g, v, own', n) && id < n && Finds(g, v0, own[Dir(id)], name, p)
    requires var l := LocAt(g, own[Dir(id)], p);
             InBounds(g, l) && !NamesDir(Slot(g, v0, l)) && File(l) in own && MovedTo(g, v0, own, v, own', l, m, raw)
    ensures File(m) in own' && NamedAt(g, v0, own, n, id, name) == Data(Bytes(g, v, own', m))
  {
    hide Inv, Complete, Content, DirSlot, LocAt, Sectors, NamedAt, NamesDir;
    LocSlot(g, v0, own[Dir(id)], p);
    NamedIs(g, v0, own, n, id, name, p);
  }

  lemma RenamedNamed(g: Geometry, v0: View, own: Owners, v: View, own': Owners, n: nat, id: nat, name: seq<byte>,
                     p: nat,
                     raw: seq<byte>)
    requires Neat(g, v0, own, n) && Rooted(g, v, own', n) && id < n && Finds(g, v0, own[Dir(id)], name, p)
    requires Usable(raw)
    requires var l := LocAt(g, own[Dir(id)], p);
             && InBounds(g, l) && !NamesDir(Slot(g, v0, l)) && File(l) in own
             && EntryMoved(g, v0, own, v, own', l, l, true, id, 0, raw) && RestSame(g, v0, own, v, own', l)
             && MovedTo(g, v0, own, v, own', l, l, raw)
    requires NameFree(g, v0, own, n, id, name, id, Formatted(raw))
    ensures Neat(g, v, own', n) && Relocated(g, v0, own, v, own', n, id, name, id, Formatted(raw))
  {
    hide Inv, Complete, Sectors, DirSlot, LocAt, NamedAt, Tidy, Edited, Content, SlotsOutside, Filled, Match,
      OnlyFilled, Renamed, Unambiguous, Slot, NamesDir, MovedTo, RestSame, Steady;
    var ch, l, key := own[Dir(id)], LocAt(g, own[Dir(id)], p), Formatted(raw);
    var dead, filled := Only(n, id, {}), Only(n, id, {p});
    RenamedInPlace(g, v0, v, ch, name, p, raw);
    if NamedAt(g, v0, own, n, id, key) == Absent {
      AbsentNoMatch(g, v0, own, n, id, key);
    }
    OnlyInPlace(g, v0, ch, {}, name, p, key);
    SteadyMoved(g, v0, own, v, own', n, l, l);
    FileNamed(g, v0, own, v, own', n, id, name, p, l, raw);
    forall d | 0 <= d < n
      ensures Edited(g, v0, own, v, own', n, d, dead[d], filled[d], key)
      ensures OnlyFilled(g, v0, own[Dir(d)], dead[d], filled[d], key)
    {
      forall q: nat | q < SlotCount(g, own[Dir(d)]) && LocAt(g, own[Dir(d)], q) == l ensures d == id && q == p {
        LocDistinct(g, v0, own, n, d, q, id, p);
      }
      EditedFrom(g, v0, own, v, own', n, {l, l}, d, dead[d], filled[d], key);
      OnlyNothing(g, v0, own[Dir(d)], dead[d], key);
    }
    StillNeat(g, v0, own, v, own', n, dead, filled, key);
    forall d, x | 0 <= d < n ensures NamedAt(g, v, own', n, d, x) ==
      if d == id && SameName(x, key) then NamedAt(g, v0, own, n, id, name)
      else if d == id && SameName(x, name) then Absent else NamedAt(g, v0, own, n, d, x)
    {
      EditNamed(g, v0, own, v, own', n, d, dead[d], filled[d], key, x);
      assert d == id ==> p in filled[d];
    }
  }

  lemma MovedNamed(g: Geometry, v0: View, own: Owners, v: View, own': Owners, n: nat, id: nat, name: seq<byte>, p: nat,
                   id2: nat, m: Loc, q: nat, raw: seq<byte>)
    requires Neat(g, v0, own, n) && Rooted(g, v, own', n) && id < n && id2 < n && Finds(g, v0, own[Dir(id)], name, p)
    requires var l := LocAt(g, own[Dir(id)], p);
             && InBounds(g, l) && !NamesDir(Slot(g, v0, l)) && File(l) in own && Usable(raw)
             && EntryMoved(g, v0, own, v, own', l, m, false, id2, q, raw) && RestSame(g, v0, own, v, own', l)
             && MovedTo(g, v0, own, v, own', l, m, raw)
    requires NameFree(g, v0, own, n, id, name, id2, Formatted(raw))
    ensures Neat(g, v, own', n) && Relocated(g, v0, own, v, own', n, id, name, id2, Formatted(raw))
  {
    hide Inv, Complete, Sectors, DirSlot, LocAt, NamedAt, Tidy, Edited, Content, SlotsOutside, Filled, Match,
      OnlyFilled, NewEntry, FirstReusable, Unambiguous, NamesDir, MovedTo, RestSame, Steady, Deleted, DeadNow;
    var ch, l, key := own[Dir(id)], LocAt(g, own[Dir(id)], p), Formatted(raw);
    var dead, filled := Only(n, id, {p}), Only(n, id2, {q});
    FileNamed(g, v0, own, v, own', n, id, name, p, m, raw);
    KilledWhereItWas(g, v0, v, ch, own'[Dir(id)], name, p);
    MovedOnly(g, v0, own, n, id, name, p, id2, key, q);
    forall d | 0 <= d < n
      ensures Edited(g, v0, own, v, own', n, d, dead[d], filled[d], key)
      ensures OnlyFilled(g, v0, own[Dir(d)], dead[d], filled[d], key)
    {
      MovedEdit(g, v0, own, v, own', n, id, name, p, id2, m, q, raw, d);
      OnlyNothing(g, v0, own[Dir(d)], dead[d], key);
    }
    NewSlotUnmatched(g, v0, own, v, own', n, id2, l, m, q, raw);
    StillNeat(g, v0, own, v, own', n, dead, filled, key);
    forall d, x | 0 <= d < n ensures NamedAt(g, v, own', n, d, x) ==
      if d == id2 && SameName(x, key) then NamedAt(g, v0, own, n, id, name)
      else if d == id && SameName(x, name) then Absent else NamedAt(g, v0, own, n, d, x)
    {
      EditNamed(g, v0, own, v, own', n, d, dead[d], filled[d], key, x);
      assert d == id2 ==> q in filled[d];
      assert d == id ==> p in dead[d];
    }
  }

  lemma NewSlotUnmatched(g: Geometry, v0: View, own: Owners, v: View, own': Owners, n: nat, id2: nat, l: Loc, m: Loc,
                         q: nat,
                         raw: seq<byte>)
    requires Rooted(g, v0, own, n) && Rooted(g, v, own', n) && id2 < n && Usable(raw) && InBounds(g, l)
    requires EntryMoved(g, v0, own, v, own', l, m, false, id2, q, raw)
    ensures forall x :: !Match(g, v0, own[Dir(id2)], x, q)
  {
    hide Inv, Complete, Sectors, LocAt, SlotsOutside, NewEntry, FirstReusable, Match, Deleted;
    FilledAnew(g, v0, own[Dir(id2)], v, own'[Dir(id2)], q, raw, FirstCluster(Slot(g, v0, l)), FileSize(Slot(g, v0, l)));
  }

  lemma MovedEdit(g: Geometry, v0: View, own: Owners, v: View, own': Owners, n: nat, id: nat, name: seq<byte>, p: nat,
                  id2: nat, m: Loc, q: nat, raw: seq<byte>, d: nat)
    requires Rooted(g, v0, own, n) && Rooted(g, v, own', n) && id < n && id2 < n && d < n
    requires Finds(g, v0, own[Dir(id)], name, p) && Usable(raw)
    requires var l := LocAt(g, own[Dir(id)], p);
             && InBounds(g, l) && EntryMoved(g, v0, own, v, own', l, m, false, id2, q, raw)
             && RestSame(g, v0, own, v, own', l)
    ensures Edited(g, v0, own, v, own', n, d, Only(n, id, {p})[d], Only(n, id2, {q})[d], Formatted(raw))
  {
    hide Inv, Complete, Sectors, DirSlot, LocAt, Tidy, Edited, Content, SlotsOutside, Filled, Match, NewEntry,
      FirstReusable, RestSame, Steady, Deleted, DeadNow;
    var ch, l, key := own[Dir(id)], LocAt(g, own[Dir(id)], p), Formatted(raw);
    var dead, filled := Only(n, id, {p})[d], Only(n, id2, {q})[d];
    SteadyMoved(g, v0, own, v, own', n, l, m);
    FilledAnew(g, v0, own[Dir(id2)], v, own'[Dir(id2)], q, raw, FirstCluster(Slot(g, v0, l)), FileSize(Slot(g, v0, l)));
    KilledWhereItWas(g, v0, v, ch, own'[Dir(id)], name, p);
    forall r: nat | r < SlotCount(g, own[Dir(d)]) && LocAt(g, own[Dir(d)], r) in {l, m}
      ensures r in dead || r in filled {
      if LocAt(g, own[Dir(d)], r) == l {
        LocDistinct(g, v0, own, n, d, r, id, p);
      } else {
        NewLocDistinct(g, v0, own, v, own', n, id2, q, d, r);
      }
    }
    EditedFrom(g, v0, own, v, own', n, {l, m}, d, dead, filled, key);
  }

  lemma KilledWhereItWas(g: Geometry, v0: View, v: View, ch: seq<nat>, ch': seq<nat>, name: seq<byte>, p: nat)
    requires Shaped(g, v0) && Shaped(g, v) && InRange(g, ch) && InRange(g, ch') && ch <= ch'
    requires Finds(g, v0, ch, name, p)
    requires Slot(g, v, LocAt(g, ch, p)) == Deleted(Slot(g, v0, LocAt(g, ch, p)))
    ensures p < SlotCount(g, ch) && p < SlotCount(g, ch') && DeadNow(DirSlot(g, v0, ch, p), DirSlot(g, v, ch', p))
    ensures forall x :: Match(g, v0, ch, x, p) <==> SameName(x, name)
  {
    hide Sectors, LocAt, DirSlot, SameName, Slot;
    LocGrows(g, ch, ch', p);
    LocSlot(g, v, ch, p);
    LocSlot(g, v, ch', p);
    KilledSlot(g, v0, v, ch, name, p);
  }

  lemma MovedOnly(g: Geometry, v0: View, own: Owners, n: nat, id: nat, name: seq<byte>, p: nat, id2: nat,
                  key: seq<byte>, q: nat)
    requires Neat(g, v0, own, n) && id < n && id2 < n && Match(g, v0, own[Dir(id)], name, p)
    requires NameFree(g, v0, own, n, id, name, id2, key)
    ensures OnlyFilled(g, v0, own[Dir(id2)], if id == id2 then {p} else {}, {q}, key)
  {
    hide Inv, Complete, Match, Tidy, NamedAt;
    if NamedAt(g, v0, own, n, id2, key) == Absent {
      AbsentNoMatch(g, v0, own, n, id2, key);
    } else {
      forall r: nat | Match(g, v0, own[Dir(id2)], key, r) ensures r == p {
        MatchName(g, v0, own[Dir(id2)], name, key, r);
      }
    }
  }
}
