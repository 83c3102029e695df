/** What a volume looks like from outside: for every directory and name, what opening and reading that name yields. */
module Fat32Tree {
  import opened Words
  import opened BlockStore
  import opened Fat32Table
  import opened Fat32Volume
  import opened Fat32Chains
  import opened Fat32Files
  import opened Fat32Alloc
  import opened Fat32Dirents
  import opened Fat32Write
  import opened Fat32Names
  import opened Fat32Dirs
  import opened Fat32Moves

  datatype Named = Absent | Folder | Data(bytes: seq<byte>)

  /** The slots of directory `ch`, and whether number `p` is one of them and matches `name`. */
  ghost function SlotCount(g: Geometry, ch: seq<nat>): nat { 16 * Sectors(g, |ch|) }

  ghost predicate Match(g: Geometry, v: View, ch: seq<nat>, name: seq<byte>, p: nat)
    requires Shaped(g, v) && InRange(g, ch)
  {
    p < SlotCount(g, ch) && Hit(DirSlot(g, v, ch, p), name)
  }

  /** Sound, complete, and directory numbers below `n` in place. */
  ghost predicate Rooted(g: Geometry, v: View, own: Owners, n: nat) {
    && Inv(g, v, own) && Complete(g, v, own)
    && forall d :: 0 <= d < n ==> Dir(d) in own && IsChain(v.fat, own[Dir(d)]) && InRange(g, own[Dir(d)])
  }

  /** What fat32_finddir and fat32_read see under `name` in directory `d`. */
  ghost function NamedAt(g: Geometry, v: View, own: Owners, n: nat, d: nat, name: seq<byte>): Named
    requires Rooted(g, v, own, n) && d < n
  {
    var ch := own[Dir(d)];
    if p: nat :| Finds(g, v, ch, name, p) then
      if NamesDir(DirSlot(g, v, ch, p)) then Folder
      else
        FoundFile(g, v, own, n, d, name, p);
        Data(Bytes(g, v, own, LocAt(g, ch, p)))
    else Absent
  }

  lemma FoundFile(g: Geometry, v: View, own: Owners, n: nat, d: nat, name: seq<byte>, p: nat)
    requires Rooted(g, v, own, n) && d < n && Match(g, v, own[Dir(d)], name, p)
    requires !NamesDir(DirSlot(g, v, own[Dir(d)], p))
    ensures File(LocAt(g, own[Dir(d)], p)) in own
  {
    hide Sectors, LocAt, DirSlot, Inv, Complete;
    var ch := own[Dir(d)];
    LocSlot(g, v, ch, p);
    HitNamesFile(DirSlot(g, v, ch, p), name);
    FoundIsOwned(g, v, own, d, LocAt(g, ch, p));
  }

  /** A lookup has one answer. */
  lemma NamedIs(g: Geometry, v: View, own: Owners, n: nat, d: nat, name: seq<byte>, p: nat)
    requires Rooted(g, v, own, n) && d < n && Finds(g, v, own[Dir(d)], name, p)
    ensures NamesDir(DirSlot(g, v, own[Dir(d)], p)) ==> NamedAt(g, v, own, n, d, name) == Folder
    ensures !NamesDir(DirSlot(g, v, own[Dir(d)], p)) ==>
      && File(LocAt(g, own[Dir(d)], p)) in own
      && NamedAt(g, v, own, n, d, name) == Data(Bytes(g, v, own, LocAt(g, own[Dir(d)], p)))
  {
    hide Sectors, LocAt, DirSlot, Inv, Complete, Hit, Content;
    var ch := own[Dir(d)];
    forall q: nat | Finds(g, v, ch, name, q) ensures q == p {
    }
    if !NamesDir(DirSlot(g, v, ch, p)) {
      FoundFile(g, v, own, n, d, name, p);
    }
  }

  lemma NamedNot(g: Geometry, v: View, own: Owners, n: nat, d: nat, name: seq<byte>)
    requires Rooted(g, v, own, n) && d < n
    ensures Missing(g, v, own[Dir(d)], name) <==> NamedAt(g, v, own, n, d, name) == Absent
  {
  }

  // ----- well-formed directories

  /** Behind an end mark there are only end marks. */
  ghost predicate Tidy(g: Geometry, v: View, ch: seq<nat>)
    requires Shaped(g, v) && InRange(g, ch)
  {
    forall q: nat, r: nat :: q < r < SlotCount(g, ch) && EndMark(DirSlot(g, v, ch, q)) ==> EndMark(DirSlot(g, v, ch, r))
  }

  /** No name matches two slots. */
  ghost predicate Unambiguous(g: Geometry, v: View, ch: seq<nat>)
    requires Shaped(g, v) && InRange(g, ch)
  {
    forall name, q: nat, r: nat :: Match(g, v, ch, name, q) && Match(g, v, ch, name, r) ==> q == r
  }

  ghost predicate Neat(g: Geometry, v: View, own: Owners, n: nat) {
    Rooted(g, v, own, n) && forall d :: 0 <= d < n ==> Tidy(g, v, own[Dir(d)]) && Unambiguous(g, v, own[Dir(d)])
  }

  /** In a tidy directory the first match is what a lookup finds. */
  lemma FindsFirst(g: Geometry, v: View, ch: seq<nat>, name: seq<byte>, p: nat)
    requires Shaped(g, v) && InRange(g, ch) && Tidy(g, v, ch)
    ensures Finds(g, v, ch, name, p) <==>
      Match(g, v, ch, name, p) && forall q: nat :: q < p ==> !Match(g, v, ch, name, q)
  {
    hide Sectors, DirSlot;
    if Match(g, v, ch, name, p) && forall q: nat :: q < p ==> !Match(g, v, ch, name, q) {
      forall q: nat | q < p ensures !EndMark(DirSlot(g, v, ch, q)) && !Hit(DirSlot(g, v, ch, q), name) {
        assert !Match(g, v, ch, name, q);
      }
    }
  }

  lemma {:induction false} FirstMatch(g: Geometry, v: View, ch: seq<nat>, name: seq<byte>, p: nat) returns (q: nat)
    requires Shaped(g, v) && InRange(g, ch) && Match(g, v, ch, name, p)
    ensures q <= p && Match(g, v, ch, name, q) && forall r: nat :: r < q ==> !Match(g, v, ch, name, r)
    decreases p
  {
    hide Match;
    if r: nat :| r < p && Match(g, v, ch, name, r) {
      q := FirstMatch(g, v, ch, name, r);
    } else {
      q := p;
    }
  }

  /** The same slots match before and after and mean the same: the name means what it meant. */
  lemma SameNamed(g: Geometry, v0: View, own: Owners, v: View, own': Owners, n: nat, d: nat, name: seq<byte>)
    requires Rooted(g, v0, own, n) && Rooted(g, v, own', n) && d < n
    requires Tidy(g, v0, own[Dir(d)]) && Tidy(g, v, own'[Dir(d)])
    requires forall p: nat :: Match(g, v, own'[Dir(d)], name, p) <==> Match(g, v0, own[Dir(d)], name, p)
    requires forall p: nat :: Match(g, v0, own[Dir(d)], name, p) ==> SameMeaning(g, v0, own, v, own', d, p)
    ensures NamedAt(g, v, own', n, d, name) == NamedAt(g, v0, own, n, d, name)
  {
    hide Sectors, LocAt, DirSlot, Inv, Complete, Match, NamedAt, Tidy, Content, Finds;
    if p: nat :| Match(g, v0, own[Dir(d)], name, p) {
      var q := FirstMatch(g, v0, own[Dir(d)], name, p);
      FindsFirst(g, v0, own[Dir(d)], name, q);
      FindsFirst(g, v, own'[Dir(d)], name, q);
      NamedIs(g, v0, own, n, d, name, q);
      NamedIs(g, v, own', n, d, name, q);
    } else {
      NoMatch(g, v0, own, n, d, name);
      NoMatch(g, v, own', n, d, name);
    }
  }

  lemma NoMatch(g: Geometry, v: View, own: Owners, n: nat, d: nat, name: seq<byte>)
    requires Rooted(g, v, own, n) && d < n && Tidy(g, v, own[Dir(d)])
    requires forall p: nat :: !Match(g, v, own[Dir(d)], name, p)
    ensures NamedAt(g, v, own, n, d, name) == Absent
  {
    hide NamedAt, Tidy, Match, Finds;
    forall p: nat ensures !Finds(g, v, own[Dir(d)], name, p) {
      FindsFirst(g, v, own[Dir(d)], name, p);
    }
    NamedNot(g, v, own, n, d, name);
  }

  /** Slot number `p` of directory `d` lies where it lay, names a folder or a file as before, the file with its
      bytes. */
  ghost predicate SameMeaning(g: Geometry, v0: View, own: Owners, v: View, own': Owners, d: nat, p: nat)
    requires Inv(g, v0, own) && Inv(g, v, own') && Dir(d) in own && Dir(d) in own'
    requires InRange(g, own[Dir(d)]) && InRange(g, own'[Dir(d)])
  {
    && p < SlotCount(g, own[Dir(d)]) && p < SlotCount(g, own'[Dir(d)])
    && NamesDir(DirSlot(g, v, own'[Dir(d)], p)) == NamesDir(DirSlot(g, v0, own[Dir(d)], p))
    && var l, l' := LocAt(g, own[Dir(d)], p), LocAt(g, own'[Dir(d)], p);
       File(l) in own ==> File(l') in own' && Bytes(g, v, own', l') == Bytes(g, v0, own, l)
  }

  // ----- one edit of a directory

  /** Directory `d` after an edit: the slots in `dead` were live and are marked deleted, those in `filled` hold a file
      named `key`, every other old slot keeps its name and meaning, and what was added behind holds end marks. */
  ghost predicate Edited(g: Geometry, v0: View, own: Owners, v: View, own': Owners, n: nat, d: nat,
                         dead: set<nat>, filled: set<nat>, key: seq<byte>)
    requires Rooted(g, v0, own, n) && Rooted(g, v, own', n) && d < n
  {
    var ch, ch' := own[Dir(d)], own'[Dir(d)];
    && SlotCount(g, ch) <= SlotCount(g, ch')
    && (forall r :: r in dead ==> r < SlotCount(g, ch) && DeadNow(DirSlot(g, v0, ch, r), DirSlot(g, v, ch', r)))
    && (forall r :: r in filled ==> Filled(g, v0, ch, v, ch', r, key))
    && (forall q: nat :: q < SlotCount(g, ch) && q !in dead && q !in filled ==> KeptSlot(g, v0, own, v, own', d, q))
    && (forall q: nat :: SlotCount(g, ch) <= q < SlotCount(g, ch') && q !in filled ==> EndMark(DirSlot(g, v, ch', q)))
  }

  predicate DeadNow(e: seq<byte>, e': seq<byte>)
    requires |e| == |e'| == DIRENT_SIZE
  {
    Live(e) && !Live(e') && !EndMark(e')
  }

  ghost predicate Filled(g: Geometry, v0: View, ch: seq<nat>, v: View, ch': seq<nat>, r: nat, key: seq<byte>)
    requires Shaped(g, v0) && InRange(g, ch) && Shaped(g, v) && InRange(g, ch')
  {
    && r < SlotCount(g, ch') && r <= SlotCount(g, ch) && !EndMark(DirSlot(g, v, ch', r))
    && (forall s: nat :: s < r && s < SlotCount(g, ch) ==> !EndMark(DirSlot(g, v0, ch, s)))
    && !NamesDir(DirSlot(g, v, ch', r)) && forall x :: Match(g, v, ch', x, r) <==> SameName(x, key)
  }

  ghost predicate KeptSlot(g: Geometry, v0: View, own: Owners, v: View, own': Owners, d: nat, q: nat)
    requires Inv(g, v0, own) && Inv(g, v, own') && Dir(d) in own && Dir(d) in own'
    requires InRange(g, own[Dir(d)]) && InRange(g, own'[Dir(d)])
  {
    && SameMeaning(g, v0, own, v, own', d, q)
    && DirSlot(g, v, own'[Dir(d)], q)[..12] == DirSlot(g, v0, own[Dir(d)], q)[..12]
  }

  lemma KeptHits(e: seq<byte>, e': seq<byte>)
    requires |e| == |e'| == DIRENT_SIZE && e'[..12] == e[..12]
    ensures EndMark(e') == EndMark(e) && Live(e') == Live(e) && forall x :: Hit(e', x) == Hit(e, x)
  {
    assert e'[..12][0] == e[..12][0] && e'[..12][11] == e[..12][11];
    assert e'[..11] == e'[..12][..11] && e[..11] == e[..12][..11];
  }

  lemma EditTidy(g: Geometry, v0: View, own: Owners, v: View, own': Owners, n: nat, d: nat,
                 dead: set<nat>, filled: set<nat>, key: seq<byte>)
    requires Rooted(g, v0, own, n) && Rooted(g, v, own', n) && d < n && Tidy(g, v0, own[Dir(d)])
    requires Edited(g, v0, own, v, own', n, d, dead, filled, key)
    ensures Tidy(g, v, own'[Dir(d)])
  {
    hide Inv, Complete, Sectors, DirSlot, SameMeaning, Match, NamesDir;
    var ch, ch' := own[Dir(d)], own'[Dir(d)];
    forall q: nat, r: nat | q < r < SlotCount(g, ch') && EndMark(DirSlot(g, v, ch', q))
      ensures EndMark(DirSlot(g, v, ch', r)) {
      if q < SlotCount(g, ch) {
        assert q !in dead && q !in filled;
        KeptHits(DirSlot(g, v0, ch, q), DirSlot(g, v, ch', q));
      }
      if r < SlotCount(g, ch) {
        assert EndMark(DirSlot(g, v0, ch, r));
        KeptHits(DirSlot(g, v0, ch, r), DirSlot(g, v, ch', r));
      }
    }
  }

  /** Outside the edited slots the same slots match. */
  lemma EditMatch(g: Geometry, v0: View, own: Owners, v: View, own': Owners, n: nat, d: nat,
                  dead: set<nat>, filled: set<nat>, key: seq<byte>, x: seq<byte>, q: nat)
    requires Rooted(g, v0, own, n) && Rooted(g, v, own', n) && d < n
    requires Edited(g, v0, own, v, own', n, d, dead, filled, key)
    ensures q in dead ==> !Match(g, v, own'[Dir(d)], x, q)
    ensures q in filled ==> (Match(g, v, own'[Dir(d)], x, q) <==> SameName(x, key))
    ensures q !in dead && q !in filled ==> (Match(g, v, own'[Dir(d)], x, q) <==> Match(g, v0, own[Dir(d)], x, q))
  {
    hide Inv, Complete, Sectors, DirSlot, SameMeaning, NamesDir;
    var ch, ch' := own[Dir(d)], own'[Dir(d)];
    if q !in dead && q !in filled && q < SlotCount(g, ch) {
      KeptHits(DirSlot(g, v0, ch, q), DirSlot(g, v, ch', q));
    }
  }

  lemma EditUnambiguous(g: Geometry, v0: View, own: Owners, v: View, own': Owners, n: nat, d: nat,
                        dead: set<nat>, filled: set<nat>, key: seq<byte>)
    requires Rooted(g, v0, own, n) && Rooted(g, v, own', n) && d < n && Unambiguous(g, v0, own[Dir(d)])
    requires Edited(g, v0, own, v, own', n, d, dead, filled, key) && OnlyFilled(g, v0, own[Dir(d)], dead, filled, key)
    ensures Unambiguous(g, v, own'[Dir(d)])
  {
    hide Inv, Complete, Sectors, DirSlot, Edited, Match;
    forall x, q: nat, r: nat | Match(g, v, own'[Dir(d)], x, q) && Match(g, v, own'[Dir(d)], x, r) ensures q == r {
      EditMatch(g, v0, own, v, own', n, d, dead, filled, key, x, q);
      EditMatch(g, v0, own, v, own', n, d, dead, filled, key, x, r);
      if (q in filled) != (r in filled) {
        MatchName(g, v0, own[Dir(d)], x, key, if q in filled then r else q);
      }
    }
  }

  /** At most one slot is filled, and no other live slot has its name. */
  ghost predicate OnlyFilled(g: Geometry, v0: View, ch: seq<nat>, dead: set<nat>, filled: set<nat>, key: seq<byte>)
    requires Shaped(g, v0) && InRange(g, ch)
  {
    && (forall q, r :: q in filled && r in filled ==> q == r)
    && (filled != {} ==> forall q: nat :: Match(g, v0, ch, key, q) ==> q in dead || q in filled)
  }

  lemma MatchName(g: Geometry, v: View, ch: seq<nat>, x: seq<byte>, y: seq<byte>, q: nat)
    requires Shaped(g, v) && InRange(g, ch) && SameName(x, y)
    ensures Match(g, v, ch, x, q) <==> Match(g, v, ch, y, q)
  {
  }

  /** Slot `r` was edited and used to be found under `x`. */
  ghost predicate Vacated(g: Geometry, v0: View, ch: seq<nat>, dead: set<nat>, filled: set<nat>, x: seq<byte>)
    requires Shaped(g, v0) && InRange(g, ch)
  {
    exists r: nat :: (r in dead || r in filled) && Match(g, v0, ch, x, r)
  }

  /** What every name means after the edit. */
  lemma EditNamed(g: Geometry, v0: View, own: Owners, v: View, own': Owners, n: nat, d: nat,
                  dead: set<nat>, filled: set<nat>, key: seq<byte>, x: seq<byte>)
    requires Rooted(g, v0, own, n) && Rooted(g, v, own', n) && d < n
    requires Tidy(g, v0, own[Dir(d)]) && Unambiguous(g, v0, own[Dir(d)])
    requires Edited(g, v0, own, v, own', n, d, dead, filled, key) && OnlyFilled(g, v0, own[Dir(d)], dead, filled, key)
    ensures filled != {} && SameName(x, key) ==> forall r :: r in filled ==>
      && r < SlotCount(g, own'[Dir(d)]) && File(LocAt(g, own'[Dir(d)], r)) in own'
      && NamedAt(g, v, own', n, d, x) == Data(Bytes(g, v, own', LocAt(g, own'[Dir(d)], r)))
    ensures !(filled != {} && SameName(x, key)) && Vacated(g, v0, own[Dir(d)], dead, filled, x) ==>
      NamedAt(g, v, own', n, d, x) == Absent
    ensures !(filled != {} && SameName(x, key)) && !Vacated(g, v0, own[Dir(d)], dead, filled, x) ==>
      NamedAt(g, v, own', n, d, x) == NamedAt(g, v0, own, n, d, x)
  {
    hide Inv, Complete, Sectors, DirSlot, Edited, Match, LocAt, Tidy, NamedAt, Finds, NamesDir, Content;
    EditTidy(g, v0, own, v, own', n, d, dead, filled, key);
    EditUnambiguous(g, v0, own, v, own', n, d, dead, filled, key);
    forall q: nat {
      EditMatch(g, v0, own, v, own', n, d, dead, filled, key, x, q);
    }
    if filled != {} && SameName(x, key) {
      forall r | r in filled
        ensures && r < SlotCount(g, own'[Dir(d)]) && File(LocAt(g, own'[Dir(d)], r)) in own'
                && NamedAt(g, v, own', n, d, x) == Data(Bytes(g, v, own', LocAt(g, own'[Dir(d)], r)))
      {
        FilledIs(g, v0, own, v, own', n, d, dead, filled, key, r);
        FindsFirst(g, v, own'[Dir(d)], x, r);
        NamedIs(g, v, own', n, d, x, r);
      }
    } else if Vacated(g, v0, own[Dir(d)], dead, filled, x) {
      NoMatch(g, v, own', n, d, x);
    } else {
      forall p: nat | Match(g, v0, own[Dir(d)], x, p) ensures SameMeaning(g, v0, own, v, own', d, p) {
        EditMeaning(g, v0, own, v, own', n, d, dead, filled, key, x, p);
      }
      SameNamed(g, v0, own, v, own', n, d, x);
    }
  }

  lemma FilledIs(g: Geometry, v0: View, own: Owners, v: View, own': Owners, n: nat, d: nat,
                 dead: set<nat>, filled: set<nat>, key: seq<byte>, r: nat)
    requires Rooted(g, v0, own, n) && Rooted(g, v, own', n) && d < n && r in filled
    requires Edited(g, v0, own, v, own', n, d, dead, filled, key)
    ensures r < SlotCount(g, own'[Dir(d)]) && !NamesDir(DirSlot(g, v, own'[Dir(d)], r))
  {
    hide Inv, Complete, Sectors, DirSlot, Match, NamesDir;
    assert Filled(g, v0, own[Dir(d)], v, own'[Dir(d)], r, key);
  }

  lemma EditMeaning(g: Geometry, v0: View, own: Owners, v: View, own': Owners, n: nat, d: nat,
                    dead: set<nat>, filled: set<nat>, key: seq<byte>, x: seq<byte>, p: nat)
    requires Rooted(g, v0, own, n) && Rooted(g, v, own', n) && d < n && p !in dead && p !in filled
    requires Edited(g, v0, own, v, own', n, d, dead, filled, key) && Match(g, v0, own[Dir(d)], x, p)
    ensures SameMeaning(g, v0, own, v, own', d, p)
  {
    hide Inv, Complete, Sectors, DirSlot, SameMeaning;
    assert KeptSlot(g, v0, own, v, own', d, p);
  }
}
