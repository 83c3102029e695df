/** What a crash of ext2_unlink or ext2_rename leaves readable, at every write. */
module Ext2Crash {
  import opened BlockStore
  import opened Words
  import opened Ext2Volume
  import opened Ext2Map
  import opened Ext2Files
  import opened Ext2Dirents
  import opened Ext2Dirs
  import opened Ext2Ops

  /** A crash of unlink after any of its writes: the name is gone from the directory, so it never leads to an inode that
      was given back; every other file reads as before, and the file itself, by its other names, up to the last
      write. */
  lemma UnlinkCrash(g: Geometry, v: Vol, dir: nat, blks: seq<seq<byte>>, blks': seq<seq<byte>>, e: Entry,
                    steps: seq<Vol>, steps': seq<Vol>, v': Vol, i: nat, j: nat)
    requires UnlinkSteps(g, v, dir, e.ino, blks', steps, steps', v') && |steps| <= i < |steps'|
    requires AllTiled(blks) && AllTiled(blks') && Distinct(DirEntries(blks))
    requires Lost(DirEntries(blks), DirEntries(blks'), e)
    requires Whole(g, v, j) && j != dir && (j != e.ino || steps'[i] != v')
    ensures DirIs(g, steps'[i], dir, blks') && Absent(DirEntries(blks'), e.name)
    ensures Whole(g, steps'[i], j) && Content(g, steps'[i], j) == Content(g, v, j)
  {
    assert UnlinkStep(g, v, steps'[i], dir, e.ino, blks', v');
    hide Apart, DirIs, Whole, Content, DirEntries;
    if j == e.ino {
      ApartFiles(g, v, steps'[i], dir, dir, j);
    } else {
      ApartFiles(g, v, steps'[i], dir, e.ino, j);
    }
    LostAbsent(DirEntries(blks), DirEntries(blks'), e);
  }

  lemma LostAbsent(es: seq<Entry>, es': seq<Entry>, e: Entry)
    requires Lost(es, es', e) && Distinct(es)
    ensures Absent(es', e.name)
  {
    var i: nat :| Swapped(es, es', i, [e], []);
    RemovedAt(es, es', i, e);
    hide Swapped;
    forall k | 0 <= k < |es'|
      ensures es'[k].name != e.name
    {
      var j := if k < i then k else k + 1;
      assert es'[k] == es[j] && es[j].name != es[i].name;
    }
  }

  /** The directory has the entry, on this state of the medium. */
  ghost predicate NamedIn(g: Geometry, w: Vol, dir: nat, e: Entry) {
    exists blks :: DirIs(g, w, dir, blks) && e in DirEntries(blks)
  }

  /** A crash of rename after any of its writes: the file is named in its old or in its new directory, and every file
      reads as before, the renamed one included. */
  lemma RenameCrash(g: Geometry, v: Vol, oldDir: nat, newDir: nat, blksO: seq<seq<byte>>, blksN: seq<seq<byte>>,
                    e: Entry, e': Entry, steps: seq<Vol>, steps': seq<Vol>, v': Vol, i: nat, j: nat)
    requires AllTiled(blksO) && AllTiled(blksN) && |steps| <= i < |steps'|
    requires RenameSteps(g, v, oldDir, newDir, blksO, blksN, e', steps, steps', v')
    requires e in DirEntries(blksO) && (NamedIn(g, v', oldDir, e) || NamedIn(g, v', newDir, e'))
    requires Whole(g, v, j) && j != oldDir && j != newDir
    ensures NamedIn(g, steps'[i], oldDir, e) || NamedIn(g, steps'[i], newDir, e')
    ensures Whole(g, steps'[i], j) && Content(g, steps'[i], j) == Content(g, v, j)
  {
    var w := steps'[i];
    assert RenameStep(g, v, w, oldDir, newDir, blksO, blksN, e', v');
    hide Apart, DirIs, Whole, Content, DirEntries, Swapped;
    ApartFiles(g, v, w, newDir, oldDir, j);
    if BothNamed(g, w, oldDir, newDir, blksO, blksN, e') {
      var m :| DirIs(g, w, newDir, m) && Gained(DirEntries(blksN), DirEntries(m), e');
      GainedIn(DirEntries(blksN), DirEntries(m), e');
      assert NamedIn(g, w, newDir, e');
    }
  }

  lemma GainedIn(es: seq<Entry>, es': seq<Entry>, e: Entry)
    requires Gained(es, es', e)
    ensures e in es'
  {
    var i: nat :| Swapped(es, es', i, [], [e]);
    assert es'[i] == e;
  }
}
