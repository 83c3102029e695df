/** fat32_defrag_one: relocating a fragmented file into one free run, safe against a crash after any sector write. */
module Fat32Defrag {
  import opened BlockStore
  import opened Fat32Table
  import opened Fat32Driver
  import opened Fat32Volume
  import opened Fat32Chains
  import opened Fat32Files
  import opened Fat32Alloc
  import opened Fat32Dirents
  import opened Fat32Crash

  /** The first loop: the chain's length, and whether it is already one ascending run. */
  method WalkChain(vol: Volume, start: nat, ghost ch: seq<nat>) returns (len: nat, ok: bool)
    requires vol.Valid() && IsChain(vol.v.fat, ch) && start == ch[0]
    modifies vol.d
    ensures vol.Valid() && vol.d.disk == old(vol.d.disk)
    ensures len == |ch| && ok == Ascending(ch)
  {
    hide Volume.Valid;
    len, ok := 1, true;
    var prev := start;
    var c := vol.NextCluster(prev);
    while c < EOC
      invariant vol.Valid() && vol.d.disk == old(vol.d.disk)
      invariant 1 <= len <= |ch| && prev == ch[len - 1] && c == vol.v.fat[prev]
      invariant ok == Ascending(ch[..len])
      decreases |ch| - len
    {
      ChainEnd(vol.v.fat, ch, len - 1);
      ok := ok && c == prev + 1;
      AscendingMore(ch, len);
      prev := c;
      len := len + 1;
      c := vol.NextCluster(prev);
    }
    ChainEnd(vol.v.fat, ch, len - 1);
    assert ch[..len] == ch;
  }

  lemma AscendingMore(ch: seq<nat>, n: nat)
    requires 0 < n < |ch|
    ensures Ascending(ch[..n + 1]) == (Ascending(ch[..n]) && ch[n] == ch[n - 1] + 1)
  {
    assert ch[..n + 1][n - 1] == ch[n - 1] && ch[..n + 1][n] == ch[n];
    assert forall i :: 0 <= i < n ==> ch[..n][i] == ch[i] && ch[..n + 1][i] == ch[i];
  }

  /** The first `n` clusters of `ch` have been copied to the run at `first`. */
  ghost predicate Copied(v0: View, v: View, ch: seq<nat>, first: nat, n: nat)
    requires n <= |ch|
  {
    && DataOnly(v0, v, Span(first, |ch|))
    && forall i :: 0 <= i < n ==> ch[i] < |v0.data| && first + i < |v.data| && v.data[first + i] == v0.data[ch[i]]
  }

  /** The copy loop: old chain to new run, in logical order. */
  method CopyChain(vol: Volume, start: nat, first: nat, len: nat, ghost ch: seq<nat>)
    requires vol.Valid() && IsChain(vol.v.fat, ch) && start == ch[0] && len == |ch|
    requires 2 <= first && first + len <= vol.g.MaxCluster() + 1 && Apart(Span(first, len), ch)
    modifies vol.d, vol`v, vol`steps
    ensures vol.Valid() && SameOutside(old(vol.d.disk), vol.d.disk, vol.g)
    ensures Copied(old(vol.v), vol.v, ch, first, len)
    ensures old(vol.steps) <= vol.steps && StepsDataOnly(vol.steps, |old(vol.steps)|, old(vol.v), Span(first, len))
  {
    hide Volume.Valid;
    ghost var v0 := vol.v;
    var oldC := start;
    for i := 0 to len
      invariant vol.Valid() && SameOutside(old(vol.d.disk), vol.d.disk, vol.g)
      invariant Copied(v0, vol.v, ch, first, i)
      invariant i < len ==> oldC == ch[i]
      invariant old(vol.steps) <= vol.steps && StepsDataOnly(vol.steps, |old(vol.steps)|, v0, Span(first, len))
    {
      var buf := ReadCluster(vol, oldC);
      ghost var v1, n := vol.v, |vol.steps|;
      assert ch[i] !in Span(first, len);
      WriteCluster(vol, first + i, buf);
      assert Span(first, len)[i] == first + i;
      CopyOne(v0, v1, vol.v, ch, first, i);
      StepsCopyOne(v0, v1, vol.steps, |old(vol.steps)|, n, Span(first, len), first + i);
      oldC := vol.NextCluster(oldC);
      ChainEnd(v0.fat, ch, i);
    }
  }

  lemma CopyOne(v0: View, v1: View, v2: View, ch: seq<nat>, first: nat, i: nat)
    requires i < |ch| && Copied(v0, v1, ch, first, i) && DataOnly(v1, v2, [first + i])
    requires ch[i] < |v0.data| && first + i < |v2.data|
    requires v2.data[first + i] == v1.data[ch[i]] && ch[i] !in Span(first, |ch|)
    ensures Copied(v0, v2, ch, first, i + 1)
  {
    assert Span(first, |ch|)[i] == first + i;
  }

  lemma StepsCopyOne(v0: View, v1: View, steps: seq<View>, from: nat, mid: nat, ch: seq<nat>, c: nat)
    requires from <= mid <= |steps| && DataOnly(v0, v1, ch) && StepsDataOnly(steps[..mid], from, v0, ch)
    requires StepsDataOnly(steps, mid, v1, [c]) && c in ch
    ensures StepsDataOnly(steps, from, v0, ch)
  {
    forall k | from <= k < |steps| ensures DataOnly(v0, steps[k], ch) {
      if k < mid {
        assert steps[..mid][k] == steps[k];
      }
    }
  }

  /** The last loop: the old chain goes back to the free pool. */
  method FreeCounted(vol: Volume, start: nat, len: nat, ghost ch: seq<nat>)
    requires vol.Valid() && IsChain(vol.v.fat, ch) && start == ch[0] && len == |ch|
    modifies vol.d, vol`v, vol`steps
    ensures vol.Valid() && SameOutside(old(vol.d.disk), vol.d.disk, vol.g)
    ensures vol.v == old(vol.v).(fat := Cleared(old(vol.v).fat, ch))
    ensures old(vol.steps) <= vol.steps && StepsLose(vol.steps, |old(vol.steps)|, old(vol.v), ch)
  {
    hide Volume.Valid;
    ghost var v0 := vol.v;
    ChainAcyclic(v0.fat, ch);
    assert Cleared(v0.fat, ch[..0]) == v0.fat;
    var oldC := start;
    for i := 0 to len
      invariant vol.Valid() && SameOutside(old(vol.d.disk), vol.d.disk, vol.g)
      invariant vol.v == v0.(fat := Cleared(v0.fat, ch[..i]))
      invariant i < len ==> oldC == ch[i]
      invariant old(vol.steps) <= vol.steps && StepsLose(vol.steps, |old(vol.steps)|, v0, ch)
    {
      assert ch[i] !in ch[..i];
      var next := vol.NextCluster(oldC);
      ChainEnd(v0.fat, ch, i);
      vol.SetEntry(oldC, 0);
      ClearNext(v0.fat, ch, i);
      oldC := next;
    }
    assert ch[..len] == ch;
  }

  /** The dirent now starts the copied run: the file moved, every byte of every file kept. */
  lemma Moved(g: Geometry, v0: View, v1: View, v2: View, v3: View, own: Owners, l: Loc, first: nat)
    requires Inv(g, v0, own) && File(l) in own && own[File(l)] != []
    requires FreeRun(v0.fat, first, |own[File(l)]|)
    requires v1 == v0.(fat := Linked(v0.fat, first, |own[File(l)]|, |own[File(l)]|))
    requires Shaped(g, v2) && Copied(v1, v2, own[File(l)], first, |own[File(l)]|)
    requires SlotWrite(g, v2, v3, l) && Slot(g, v3, l) == Patched(Slot(g, v2, l), first, FileSize(Slot(g, v0, l)))
    ensures var own' := own[File(l) := Span(first, |own[File(l)]|)];
            Inv(g, v3, own') && SameFiles(g, v0, own, v3, own') && Unowned(own', own[File(l)])
  {
    hide Inv, Kept, SlotWrite, Copied, Confined, Unowned, SameFiles;
    var ch := own[File(l)];
    var n := |ch|;
    var run := Span(first, n);
    var rest := own - {File(l)};
    FileIsOk(g, v0, own, l);
    InvSplit(g, v0, own, l);
    RunUnowned(g, v0, rest, first, n);
    CopyConfined(v0, v1, v2, ch, first);
    ConfinedKeeps(g, v0, v2, rest, run);
    KeptInv(g, v0, v2, rest);
    SlotWriteKept(g, v2, v3, rest, l);
    KeptInv(g, v2, v3, rest);
    MovedFile(g, v0, v1, v2, v3, own, l, first);
    InvJoin(g, v3, rest, l, run);
    assert rest[File(l) := run] == own[File(l) := run];
    Rejoined(g, v0, own, v3, rest, l, run);
    RunApart(v0, ch, first);
    UnownedJoin(rest, ch, File(l), run);
  }

  lemma UnownedJoin(rest: Owners, ch: seq<nat>, o: Owner, run: seq<nat>)
    requires Unowned(rest, ch) && Apart(ch, run)
    ensures Unowned(rest[o := run], ch)
  {
  }

  lemma RunApart(v: View, ch: seq<nat>, first: nat)
    requires IsChain(v.fat, ch) && |v.fat| <= EOC && FreeRun(v.fat, first, |ch|)
    ensures Apart(ch, Span(first, |ch|)) && Apart(Span(first, |ch|), ch)
  {
    forall i, j | 0 <= i < |ch| && 0 <= j < |ch| ensures ch[i] != Span(first, |ch|)[j] {
      ChainEnd(v.fat, ch, i);
    }
  }

  lemma CopyConfined(v0: View, v1: View, v2: View, ch: seq<nat>, first: nat)
    requires FreeRun(v0.fat, first, |ch|) && |v0.data| == |v0.fat|
    requires v1 == v0.(fat := Linked(v0.fat, first, |ch|, |ch|)) && Copied(v1, v2, ch, first, |ch|)
    ensures Confined(v0, v2, Span(first, |ch|))
    ensures Grows(v0, v2)
  {
    assert forall i :: 0 <= i < |ch| ==> v0.fat[Span(first, |ch|)[i]] == 0;
  }

  lemma MovedFile(g: Geometry, v0: View, v1: View, v2: View, v3: View, own: Owners, l: Loc, first: nat)
    requires Inv(g, v0, own) && File(l) in own && own[File(l)] != []
    requires FreeRun(v0.fat, first, |own[File(l)]|)
    requires v1 == v0.(fat := Linked(v0.fat, first, |own[File(l)]|, |own[File(l)]|))
    requires Shaped(g, v2) && Copied(v1, v2, own[File(l)], first, |own[File(l)]|)
    requires SlotWrite(g, v2, v3, l) && Slot(g, v3, l) == Patched(Slot(g, v2, l), first, FileSize(Slot(g, v0, l)))
    ensures FileOk(g, v3, l, Span(first, |own[File(l)]|))
    ensures Content(g, v3, Span(first, |own[File(l)]|), FileSize(Slot(g, v3, l))) == Bytes(g, v0, own, l)
  {
    hide Inv, SlotWrite, Copied, Confined, Sectors;
    FileIsOk(g, v0, own, l);
    var ch := own[File(l)];
    var run := Span(first, |ch|);
    CopyConfined(v0, v1, v2, ch, first);
    SlotOutside(g, v0, v2, own, l);
    LinkedIsChain(v0.fat, first, |ch|);
    MovedClusters(g, v0, v1, v2, v3, ch, first, l);
    SameContent(g, v0, ch, v3, run, FileSize(Slot(g, v0, l)));
  }

  lemma MovedClusters(g: Geometry, v0: View, v1: View, v2: View, v3: View, ch: seq<nat>, first: nat, l: Loc)
    requires Shaped(g, v0) && InRange(g, ch) && FreeRun(v0.fat, first, |ch|)
    requires v1 == v0.(fat := Linked(v0.fat, first, |ch|, |ch|)) && Copied(v1, v2, ch, first, |ch|)
    requires SlotWrite(g, v2, v3, l) && InBounds(g, l) && v0.fat[l.cluster] != 0
    ensures InRange(g, Span(first, |ch|)) && v3.fat == v1.fat
    ensures forall i :: 0 <= i < |ch| ==> v3.data[Span(first, |ch|)[i]] == v0.data[ch[i]]
  {
    forall i | 0 <= i < |ch| ensures v3.data[Span(first, |ch|)[i]] == v0.data[ch[i]] {
      assert v0.fat[first + i] == 0;
      assert v3.data[first + i] == v2.data[first + i];
    }
  }

  /** A directory slot survives writes to free clusters, and its cluster was not free. */
  lemma SlotOutside(g: Geometry, v0: View, v: View, own: Owners, l: Loc)
    requires Inv(g, v0, own) && File(l) in own && Shaped(g, v) && Grows(v0, v)
    ensures Slot(g, v, l) == Slot(g, v0, l) && v0.fat[l.cluster] != 0
  {
    var id :| Dir(id) in own && l.cluster in own[Dir(id)];
    var i :| 0 <= i < |own[Dir(id)]| && own[Dir(id)][i] == l.cluster;
    assert ChainOk(v0, Dir(id), own[Dir(id)]);
    ChainEnd(v0.fat, own[Dir(id)], i);
  }

  // ----- the whole operation

  /** Some free run of `n` clusters lies on one side of the search start: the only kind the allocator can see. */
  ghost predicate RunExists(fat: seq<nat>, start: nat, n: nat) {
    exists a: nat :: FreeRun(fat, a, n) && OneSide(start, a, n)
  }

  /** A long enough free run is not enough: split by the search start, it is seen only as two shorter ones. */
  lemma StraddlingRunUnseen()
    ensures var fat := [EOC, EOC, 0, 0, 0, 0];
            && FreeRun(fat, 2, 4) && !RunExists(fat, 4, 4) && RunExists(fat, 2, 4) && RunExists(fat, 4, 2)
            && Straddled(fat, 4, 4) && !LongestOfAll(fat, 4, 2)
  {
    var fat := [EOC, EOC, 0, 0, 0, 0];
    assert NoneOneSide(fat, 4, 4);
    assert FreeRun(fat, 2, 4) && OneSide(2, 2, 4);
    assert FreeRun(fat, 4, 2) && OneSide(4, 4, 2);
  }

  /** The volume with a run reserved and the chain copied into it, nothing pointing there yet. */
  ghost predicate Staged(v0: View, v: View, ch: seq<nat>, first: nat) {
    FreeRun(v0.fat, first, |ch|) && Copied(v0.(fat := Linked(v0.fat, first, |ch|, |ch|)), v, ch, first, |ch|)
  }

  /** Everything before the commit: reserve a run and fill it, or give back what was too short. */
  method Stage(vol: Volume, start: nat, len: nat, ghost ch: seq<nat>) returns (first: nat)
    requires vol.Valid() && IsChain(vol.v.fat, ch) && start == ch[0] && len == |ch|
    modifies vol, vol.d
    ensures vol.Valid() && SameOutside(old(vol.d.disk), vol.d.disk, vol.g)
    ensures first == 0 ==> vol.v == old(vol.v)
    ensures first != 0 ==> Staged(old(vol.v), vol.v, ch, first)
    ensures first != 0 <==> RunExists(old(vol.v).fat, SearchStart(vol.g, old(vol.hint)), len)
    ensures old(vol.steps) <= vol.steps && StepsGrow(vol.steps, |old(vol.steps)|, old(vol.v))
  {
    hide Volume.Valid;
    ghost var v0 := vol.v;
    var got;
    first, got := AllocRun(vol, len);
    ghost var v1, n1 := vol.v, |vol.steps|;
    if first == 0 || got != len {
      if first != 0 {
        FreeSpan(vol, first, got);
        UndoRun(v0, first, got);
        StepsUndo(v0, first, got, vol.steps, |old(vol.steps)|, n1);
      }
      return 0;
    }
    RunApart(v0, ch, first);
    LinkedKeepsChain(v0.fat, ch, first, len);
    CopyChain(vol, start, first, len, ch);
    StepsStaged(v0, first, len, vol.steps, |old(vol.steps)|, n1);
  }

  lemma LinkedKeepsChain(fat: seq<nat>, ch: seq<nat>, first: nat, n: nat)
    requires IsChain(fat, ch) && |fat| <= EOC && FreeRun(fat, first, n)
    ensures IsChain(Linked(fat, first, n, n), ch)
  {
    forall i | 0 <= i < |ch| ensures Linked(fat, first, n, n)[ch[i]] == fat[ch[i]] {
      ChainEnd(fat, ch, i);
    }
    SameChain(fat, Linked(fat, first, n, n), ch);
  }

  lemma UndoRun(v0: View, first: nat, n: nat)
    requires FreeRun(v0.fat, first, n)
    ensures Cleared(Linked(v0.fat, first, n, n), Span(first, n)) == v0.fat
  {
    var run := Span(first, n);
    forall c | 0 <= c < |v0.fat| ensures Cleared(Linked(v0.fat, first, n, n), run)[c] == v0.fat[c] {
      assert first <= c < first + n ==> run[c - first] == c;
    }
  }

  lemma StepsUndo(v0: View, first: nat, n: nat, steps: seq<View>, from: nat, mid: nat)
    requires FreeRun(v0.fat, first, n) && |v0.data| == |v0.fat| && from <= mid <= |steps|
    requires StepsGrow(steps[..mid], from, v0)
    requires StepsLose(steps, mid, v0.(fat := Linked(v0.fat, first, n, n)), Span(first, n))
    ensures StepsGrow(steps, from, v0)
  {
    forall k | from <= k < |steps| ensures Grows(v0, steps[k]) {
      if k < mid {
        assert steps[..mid][k] == steps[k];
      } else {
        assert Loses(v0.(fat := Linked(v0.fat, first, n, n)), steps[k], Span(first, n));
      }
    }
  }

  lemma StepsStaged(v0: View, first: nat, n: nat, steps: seq<View>, from: nat, mid: nat)
    requires FreeRun(v0.fat, first, n) && |v0.data| == |v0.fat| && from <= mid <= |steps|
    requires StepsGrow(steps[..mid], from, v0)
    requires StepsDataOnly(steps, mid, v0.(fat := Linked(v0.fat, first, n, n)), Span(first, n))
    ensures StepsGrow(steps, from, v0)
  {
    forall k | from <= k < |steps| ensures Grows(v0, steps[k]) {
      if k < mid {
        assert steps[..mid][k] == steps[k];
      } else {
        assert DataOnly(v0.(fat := Linked(v0.fat, first, n, n)), steps[k], Span(first, n));
      }
    }
  }

  /** Freeing clusters nobody owns any more loses nothing. */
  lemma LosesReadable(g: Geometry, v0: View, own: Owners, v3: View, own': Owners, v: View, ch: seq<nat>)
    requires Inv(g, v0, own) && Inv(g, v3, own') && SameFiles(g, v0, own, v3, own')
    requires Unowned(own', ch) && Loses(v3, v, ch) && Shaped(g, v)
    ensures Inv(g, v, own') && SameFiles(g, v0, own, v, own') && AllReadable(g, v0, own, v)
  {
    hide Inv, Kept, Unowned;
    assert Confined(v3, v, ch);
    ConfinedKeeps(g, v3, v, own', ch);
    KeptInv(g, v3, v, own');
    forall l | File(l) in own ensures ReadsAs(g, v, l, Bytes(g, v0, own, l)) {
      BytesReadBack(g, v, own', l);
    }
  }

  lemma StepsLoseSafe(g: Geometry, v0: View, own: Owners, v3: View, own': Owners, ch: seq<nat>, steps: seq<View>,
                      from: nat)
    requires Inv(g, v0, own) && Inv(g, v3, own') && SameFiles(g, v0, own, v3, own')
    requires Unowned(own', ch) && StepsLose(steps, from, v3, ch)
    requires forall k :: 0 <= k < |steps| ==> Shaped(g, steps[k])
    ensures CrashSafe(g, v0, own, steps, from)
  {
    hide Inv, SameFiles, Unowned, AllReadable;
    forall k | from <= k < |steps| ensures AllReadable(g, v0, own, steps[k]) {
      LosesReadable(g, v0, own, v3, own', steps[k], ch);
    }
  }

  lemma MoveKeepsFat(g: Geometry, v1: View, v2: View, v3: View, ch: seq<nat>, first: nat, l: Loc)
    requires Copied(v1, v2, ch, first, |ch|) && SlotWrite(g, v2, v3, l)
    ensures v3.fat == v1.fat
  {
  }

  /** The commit: repoint the directory entry with one sector write, then free the old chain. */
  method Commit(vol: Volume, node: Node, start: nat, len: nat, first: nat, ghost v0: View, ghost own: Owners)
    returns (ghost own': Owners)
    requires vol.Valid() && Inv(vol.g, v0, own) && node.hasDirent && File(node.loc) in own
    requires own[File(node.loc)] != [] && start == own[File(node.loc)][0] && len == |own[File(node.loc)]|
    requires node.size == FileSize(Slot(vol.g, v0, node.loc)) && Staged(v0, vol.v, own[File(node.loc)], first)
    modifies vol, vol.d, node
    ensures vol.Valid() && SameOutside(old(vol.d.disk), vol.d.disk, vol.g)
    ensures own' == own[File(node.loc) := Span(first, len)] && node.inode == first && node.size == old(node.size)
    ensures Inv(vol.g, vol.v, own') && SameFiles(vol.g, v0, own, vol.v, own') && node.Synced(vol.g, vol.v, own')
    ensures forall c :: c in own[File(node.loc)] ==> c < |vol.v.fat| && vol.v.fat[c] == 0
    ensures old(vol.steps) <= vol.steps && CrashSafe(vol.g, v0, own, vol.steps, |old(vol.steps)|)
    ensures SlotsKept(vol.g, v0, vol.v, own, node.loc)
  {
    hide SlotsKept, Volume.Valid, Inv, CrashSafe, SameFiles, Unowned, SlotWrite, Copied, Patched, Content;
    ghost var l, ch := node.loc, own[File(node.loc)];
    ghost var v1, v2 := v0.(fat := Linked(v0.fat, first, |ch|, |ch|)), vol.v;
    FileIsOk(vol.g, v0, own, l);
    CopyConfined(v0, v1, v2, ch, first);
    SlotOutside(vol.g, v0, v2, own, l);
    node.inode := first;
    FlushDirent(vol, node);
    ghost var v3, n3 := vol.v, |vol.steps|;
    own' := own[File(l) := Span(first, len)];
    Moved(vol.g, v0, v1, v2, v3, own, l, first);
    LinkedKeepsChain(v0.fat, ch, first, len);
    MoveKeepsFat(vol.g, v1, v2, v3, ch, first, l);
    FreeCounted(vol, start, len, ch);
    vol.StepsShaped();
    StepsLoseSafe(vol.g, v0, own, v3, own', ch, vol.steps, n3 - 1);
    LosesReadable(vol.g, v0, own, v3, own', vol.v, ch);
    assert Slot(vol.g, vol.v, l) == Slot(vol.g, v3, l);
    MoveKeepsSlots(vol.g, v0, v2, v3, vol.v, own, l, first, node.size);
  }

  lemma MoveKeepsSlots(g: Geometry, v0: View, v2: View, v3: View, v: View, own: Owners, l: Loc, inode: nat, size: nat)
    requires Inv(g, v0, own) && File(l) in own && Shaped(g, v2) && Grows(v0, v2) && InBounds(g, l)
    requires SlotWrite(g, v2, v3, l) && inode < 0x1_0000_0000 && size < 0x1_0000_0000
    requires Slot(g, v3, l) == Patched(Slot(g, v2, l), inode, size) && Shaped(g, v) && v.data == v3.data
    ensures SlotsKept(g, v0, v, own, l)
  {
    hide Inv, SlotWrite, SlotsKept, Patched, Confined;
    GrowsConfined(v0, v2, []);
    DirDataKept(g, v0, v2, own, []);
    PatchKeepsSlots(g, v0, v2, v3, v, own, l, inode, size);
  }

  /** Returns 1 if the file was moved, 0 if there was nothing to do, -1 if it could not be moved. */
  method DefragOne(vol: Volume, node: Node, ghost own: Owners) returns (rc: int, ghost own': Owners)
    requires vol.Valid() && Inv(vol.g, vol.v, own)
    requires node.hasDirent ==> node.Synced(vol.g, vol.v, own)
    modifies vol, vol.d, node
    ensures vol.Valid() && SameOutside(old(vol.d.disk), vol.d.disk, vol.g)
    ensures old(vol.steps) <= vol.steps && CrashSafe(vol.g, old(vol.v), own, vol.steps, |old(vol.steps)|)
    ensures Inv(vol.g, vol.v, own') && SameFiles(vol.g, old(vol.v), own, vol.v, own')
    ensures rc in {-1, 0, 1}
    ensures rc != 1 ==> own' == own && vol.v == old(vol.v) && node.inode == old(node.inode)
    ensures node.hasDirent ==> node.Synced(vol.g, vol.v, own') && node.size == old(node.size)
    ensures node.hasDirent ==> (rc == 0 <==> Ascending(own[File(node.loc)]))
    ensures node.hasDirent && rc != 0 ==>
      (rc == 1 <==> RunExists(old(vol.v).fat, SearchStart(vol.g, old(vol.hint)), |own[File(node.loc)]|))
    ensures rc == 1 ==>
      && node.hasDirent && own' == own[File(node.loc) := Span(node.inode, |own[File(node.loc)]|)]
      && forall c :: c in own[File(node.loc)] ==> c < |vol.v.fat| && vol.v.fat[c] == 0
    ensures SlotsKept(vol.g, old(vol.v), vol.v, own, node.loc)
  {
    hide SlotsKept, Volume.Valid, Inv, AllReadable, SameFiles, Staged, RunExists, StoredIn, SameOutside, Grows, Content;
    ghost var v0, n0 := vol.v, |vol.steps|;
    SameFilesRefl(vol.g, vol.v, own);
    SlotsRefl(vol.g, vol.v, own, node.loc);
    OutsideRefl(vol.d.disk, vol.g);
    if !node.hasDirent {
      return -1, own;
    }
    ghost var ch := own[File(node.loc)];
    FileStart(vol.g, vol.v, own, node.loc);
    if node.inode == 0 {
      return 0, own;
    }
    var start := node.inode;
    var len, ok := WalkChain(vol, start, ch);
    if ok {
      return 0, own;
    }
    var first := Stage(vol, start, len, ch);
    vol.StepsShaped();
    StepsGrowSafe(vol.g, v0, own, vol.steps, n0);
    if first == 0 {
      return -1, own;
    }
    ghost var n1, disk1 := |vol.steps|, vol.d.disk;
    own' := Commit(vol, node, start, len, first, v0, own);
    SafeJoin(vol.g, v0, own, vol.steps, n0, n1);
    OutsideTrans(old(vol.d.disk), disk1, vol.d.disk, vol.g);
    rc := 1;
  }
}
