/** What a crash may leave: the volume after any prefix of an operation's sector writes, and what still reads there. */
module Fat32Crash {
  import opened Words
  import opened BlockStore
  import opened Fat32Table
  import opened Fat32Volume
  import opened Fat32Chains
  import opened Fat32Files
  import opened Fat32Alloc

  /** On a disk that looks like `v`, every file of `own` still reads exactly as it did in `v0`. */
  ghost predicate AllReadable(g: Geometry, v0: View, own: Owners, v: View)
    requires Inv(g, v0, own)
  {
    forall l :: File(l) in own ==> ReadsAs(g, v, l, Bytes(g, v0, own, l))
  }

  /** That holds after every sector write past the first `from`. */
  ghost predicate CrashSafe(g: Geometry, v0: View, own: Owners, steps: seq<View>, from: nat)
    requires Inv(g, v0, own)
  {
    from <= |steps| && forall k :: from <= k < |steps| ==> AllReadable(g, v0, own, steps[k])
  }

  lemma KeptReadable(g: Geometry, v0: View, v: View, own: Owners)
    requires Inv(g, v0, own) && Kept(g, v0, v, own)
    ensures Inv(g, v, own) && AllReadable(g, v0, own, v)
  {
    hide Inv, Kept;
    KeptInv(g, v0, v, own);
    forall l | File(l) in own ensures ReadsAs(g, v, l, Bytes(g, v0, own, l)) {
      BytesReadBack(g, v, own, l);
    }
  }

  /** Writing only to free clusters loses nothing. */
  lemma GrowsReadable(g: Geometry, v0: View, v: View, own: Owners)
    requires Inv(g, v0, own) && Shaped(g, v) && Grows(v0, v)
    ensures Kept(g, v0, v, own) && Inv(g, v, own) && AllReadable(g, v0, own, v)
  {
    hide Inv, Kept;
    GrowsConfined(v0, v, []);
    ConfinedKeeps(g, v0, v, own, []);
    KeptReadable(g, v0, v, own);
  }

  lemma StepsGrowSafe(g: Geometry, v0: View, own: Owners, steps: seq<View>, from: nat)
    requires Inv(g, v0, own) && StepsGrow(steps, from, v0)
    requires forall k :: 0 <= k < |steps| ==> Shaped(g, steps[k])
    ensures CrashSafe(g, v0, own, steps, from)
  {
    hide Inv, AllReadable;
    forall k | from <= k < |steps| ensures AllReadable(g, v0, own, steps[k]) {
      GrowsReadable(g, v0, steps[k], own);
    }
  }

  /** A state in which every file of `own` still has its bytes, under whatever owners. */
  lemma SameFilesReadable(g: Geometry, v0: View, own: Owners, v: View, own': Owners)
    requires Inv(g, v0, own) && Inv(g, v, own') && SameFiles(g, v0, own, v, own')
    ensures AllReadable(g, v0, own, v)
  {
    hide Inv, Content;
    forall l | File(l) in own ensures ReadsAs(g, v, l, Bytes(g, v0, own, l)) {
      BytesReadBack(g, v, own', l);
    }
  }

  /** Every file but that of slot `l` reads as it did in `v0`. */
  ghost predicate OthersReadable(g: Geometry, v0: View, own: Owners, l: Loc, v: View)
    requires Inv(g, v0, own)
  {
    forall k :: File(k) in own && k != l ==> ReadsAs(g, v, k, Bytes(g, v0, own, k))
  }

  /** A live entry whose first cluster is marked free: no contents can be read from it. */
  ghost predicate Dangling(g: Geometry, v: View, l: Loc) {
    && Shaped(g, v) && InBounds(g, l) && Live(Slot(g, v, l))
    && var c := FirstCluster(Slot(g, v, l)); 2 <= c < |v.fat| && v.fat[c] == 0
  }

  lemma DanglingUnreadable(g: Geometry, v: View, l: Loc, b: seq<byte>)
    requires Dangling(g, v, l)
    ensures !ReadsAs(g, v, l, b)
  {
    if ReadsAs(g, v, l, b) {
      var ch :| StoredIn(g, v, Slot(g, v, l), ch);
      ChainEnd(v.fat, ch, 0);
    }
  }

  lemma SafeRefl(g: Geometry, v0: View, own: Owners, steps: seq<View>)
    requires Inv(g, v0, own)
    ensures CrashSafe(g, v0, own, steps, |steps|)
  {
  }

  lemma SafeJoin(g: Geometry, v0: View, own: Owners, steps: seq<View>, from: nat, mid: nat)
    requires Inv(g, v0, own) && from <= mid <= |steps|
    requires CrashSafe(g, v0, own, steps[..mid], from) && CrashSafe(g, v0, own, steps, mid)
    ensures CrashSafe(g, v0, own, steps, from)
  {
    hide Inv, AllReadable;
    forall k | from <= k < |steps| ensures AllReadable(g, v0, own, steps[k]) {
      assert k < mid ==> steps[..mid][k] == steps[k];
    }
  }
}
