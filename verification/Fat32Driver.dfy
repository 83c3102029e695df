/** The driver's shared state: the device, the one-sector FAT cache, and the three disk primitives
    every operation is made of. Block I/O always succeeds here. */
module Fat32Driver {
  import opened BlockStore
  import opened Fat32Table

  /** FAT copies agree in their low 28 bits, and each word still carries the reserved nibble it had in `disk0`. */
  ghost predicate TableSound(disk0: Disk, disk: Disk, g: Geometry) {
    forall copy: nat, c: nat :: copy < g.numFats && c <= g.MaxCluster() ==>
      && g.FatAddr(copy, c) in disk && g.FatAddr(0, c) in disk && g.FatAddr(copy, c) in disk0
      && FatWord(disk, g, copy, c) % LOW28 == FatWord(disk, g, 0, c) % LOW28
      && FatWord(disk, g, copy, c) / LOW28 == FatWord(disk0, g, copy, c) / LOW28
  }

  /** `disk` still holds what `disk0` held everywhere outside volume `g`. */
  ghost predicate SameOutside(disk0: Disk, disk: Disk, g: Geometry) {
    && disk.Keys == disk0.Keys
    && forall a :: a in disk0 && !g.Contains(a) ==> disk[a] == disk0[a]
  }

  lemma OutsideRefl(disk: Disk, g: Geometry)
    ensures SameOutside(disk, disk, g)
  {
  }

  lemma OutsideTrans(d0: Disk, d1: Disk, d2: Disk, g: Geometry)
    requires SameOutside(d0, d1, g) && SameOutside(d1, d2, g)
    ensures SameOutside(d0, d2, g)
  {
  }

  /** The first `n` copies of the sector holding `c`'s entry have been rewritten; nothing else changed. */
  ghost predicate CopiesEntered(was: Disk, disk: Disk, g: Geometry, c: nat, value: nat, n: nat) {
    && disk.Keys == was.Keys
    && (forall j: nat :: j < g.numFats ==>
         && g.FatAddr(j, c) in was && g.FatAddr(j, c) in disk
         && disk[g.FatAddr(j, c)] == if j < n then Entered(was[g.FatAddr(j, c)], c, value) else was[g.FatAddr(j, c)])
    && (forall a :: a in was && (forall j: nat :: j < g.numFats ==> g.FatAddr(j, c) != a) ==> disk[a] == was[a])
  }

  /** In every copy, the word of `c` was merged with `value` and every other word kept. */
  ghost predicate WordsEntered(was: Disk, disk: Disk, g: Geometry, c: nat, value: nat) {
    forall copy: nat, c': nat :: copy < g.numFats && c' <= g.MaxCluster() ==>
      && g.FatAddr(copy, c') in was && g.FatAddr(copy, c') in disk
      && FatWord(disk, g, copy, c') == if c' == c then Merge(FatWord(was, g, copy, c'), value)
         else FatWord(was, g, copy, c')
  }

  class Driver {
    ghost const mounts: set<Geometry>
    ghost const disk0: Disk          // the disk when the driver started

    var disk: Disk
    var fatBuf: Sector
    var cachedLba: int               // -1 until the first lookup
    var cachedKind: nat
    var cachedDrive: nat

    ghost var trace: seq<Disk>       // the disk after each sector write so far

    ghost predicate Valid()
      reads this
      ensures Valid() ==> forall g :: g in mounts ==> g.Valid() && g.OnDisk(disk)
    {
      && (forall g :: g in mounts ==> g.Valid() && g.OnDisk(disk) && TableSound(disk0, disk, g))
      && (forall g, h :: g in mounts && h in mounts && g != h ==> Disjoint(g, h))
      && Coherent()
    }

    /** The cache holds exactly the primary-FAT sector its key names. */
    ghost predicate Coherent()
      reads this
    {
      cachedLba >= 0 ==>
        && Addr(cachedKind, cachedDrive, cachedLba) in disk
        && fatBuf == disk[Addr(cachedKind, cachedDrive, cachedLba)]
        && exists g: Geometry, c: nat ::
             g in mounts && c <= g.MaxCluster() && g.FatAddr(0, c) == Addr(cachedKind, cachedDrive, cachedLba)
    }

    ghost function View(g: Geometry): View
      requires g.Valid() && g.OnDisk(disk)
      reads this
    {
      ViewOf(disk, g)
    }

    constructor (disk: Disk, ghost mounts: set<Geometry>)
      requires forall g :: g in mounts ==> g.Valid() && g.OnDisk(disk) && TableSound(disk, disk, g)
      requires forall g, h :: g in mounts && h in mounts && g != h ==> Disjoint(g, h)
      ensures Valid() && this.disk == disk && this.disk0 == disk && this.mounts == mounts && trace == []
    {
      this.disk, this.disk0, this.mounts, this.trace := disk, disk, mounts, [];
      fatBuf := ZeroSector();
      cachedLba, cachedKind, cachedDrive := -1, 0xFF, 0xFF;
    }

    /** fat32_next_cluster: a cached lookup is an uncached read of the primary FAT. */
    method NextCluster(g: Geometry, c: nat) returns (next: nat)
      requires Valid() && g in mounts && c <= g.MaxCluster()
      modifies this`fatBuf, this`cachedLba, this`cachedKind, this`cachedDrive
      ensures Valid()
      ensures next == View(g).fat[c]
    {
      var a := g.FatAddr(0, c);
      FatCopyRegion(g, 0, c);
      if a.lba != cachedLba || g.kind != cachedKind || g.drive != cachedDrive {
        fatBuf := disk[a];
        cachedLba, cachedKind, cachedDrive := a.lba, g.kind, g.drive;
      }
      next := Word(fatBuf, 4 * (c % 128)) % LOW28;
    }

    /** fat32_set_fat_entry: every copy is rewritten, and the cache follows. */
    method SetEntry(g: Geometry, c: nat, value: nat)
      requires Valid() && g in mounts && c <= g.MaxCluster()
      modifies this
      ensures Valid() && SameOutside(old(disk), disk, g)
      ensures View(g) == old(View(g)).(fat := old(View(g)).fat[c := value % LOW28])
      ensures old(trace) <= trace && |trace| == |old(trace)| + g.numFats
      ensures forall k :: |old(trace)| <= k < |trace| ==> g.OnDisk(trace[k]) && ViewOf(trace[k], g) == View(g)
    {
      ghost var was := disk;
      WriteCopies(g, c, value);
      AfterEntry(was, disk, g, c, value);
      var primary := g.FatAddr(0, c);
      if primary.lba == cachedLba && g.kind == cachedKind && g.drive == cachedDrive {
        fatBuf := Entered(fatBuf, c, value);
      } else if cachedLba >= 0 {
        CacheApart(g, c);
      }
      TablesStaySound(was, g, c, value);
    }

    /** The copy loop of fat32_set_fat_entry. */
    method WriteCopies(g: Geometry, c: nat, value: nat)
      requires g.Valid() && g.OnDisk(disk) && c <= g.MaxCluster()
      modifies this`disk, this`trace
      ensures CopiesEntered(old(disk), disk, g, c, value, g.numFats) && g.OnDisk(disk)
      ensures View(g) == old(View(g)).(fat := old(View(g)).fat[c := value % LOW28])
      ensures old(trace) <= trace && |trace| == |old(trace)| + g.numFats
      ensures forall k :: |old(trace)| <= k < |trace| ==> g.OnDisk(trace[k]) && ViewOf(trace[k], g) == View(g)
    {
      hide ViewOf, Entered;
      ghost var was := disk;
      ghost var goal := ViewOf(was, g).(fat := ViewOf(was, g).fat[c := value % LOW28]);
      var copy := 0;
      forall j: nat | j < g.numFats ensures g.FatAddr(j, c) in was { FatCopyRegion(g, j, c); }
      while copy < g.numFats
        invariant 0 <= copy <= g.numFats
        invariant CopiesEntered(was, disk, g, c, value, copy) && g.OnDisk(disk)
        invariant ViewOf(disk, g) == if copy == 0 then ViewOf(was, g) else goal
        invariant old(trace) <= trace && |trace| == |old(trace)| + copy
        invariant forall k :: |old(trace)| <= k < |trace| ==> g.OnDisk(trace[k]) && ViewOf(trace[k], g) == goal
      {
        FatCopyRegion(g, copy, c);
        var a := g.FatAddr(copy, c);
        var buf := disk[a];
        if copy == 0 {
          ViewEntered(disk, g, c, value);
        } else {
          CopyIsNotPrimary(g, copy, c);
          ViewUnmoved(disk, g, a, Entered(buf, c, value));
        }
        OtherCopies(g, copy, c);
        disk := disk[a := Entered(buf, c, value)];
        trace := trace + [disk];
        copy := copy + 1;
      }
    }

    lemma TablesStaySound(was: Disk, g: Geometry, c: nat, value: nat)
      requires g in mounts && c <= g.MaxCluster() && SameOutside(was, disk, g)
      requires forall h :: h in mounts ==> h.Valid() && h.OnDisk(was) && TableSound(disk0, was, h)
      requires forall h, i :: h in mounts && i in mounts && h != i ==> Disjoint(h, i)
      requires WordsEntered(was, disk, g, c, value)
      ensures forall h :: h in mounts ==> h.OnDisk(disk) && TableSound(disk0, disk, h)
    {
      forall h | h in mounts ensures h.OnDisk(disk) && TableSound(disk0, disk, h) {
        forall copy: nat, e: nat | copy < h.numFats && e <= h.MaxCluster()
          ensures && h.FatAddr(copy, e) in disk && h.FatAddr(0, e) in disk
                  && FatWord(disk, h, copy, e) % LOW28 == FatWord(disk, h, 0, e) % LOW28
                  && FatWord(disk, h, copy, e) / LOW28 == FatWord(disk0, h, copy, e) / LOW28
        {
          FatCopyRegion(h, copy, e);
          FatCopyRegion(h, 0, e);
        }
      }
    }

    lemma CacheApart(g: Geometry, c: nat)
      requires forall g :: g in mounts ==> g.Valid()
      requires forall g, h :: g in mounts && h in mounts && g != h ==> Disjoint(g, h)
      requires g in mounts && c <= g.MaxCluster() && cachedLba >= 0
      requires g.FatAddr(0, c) != Addr(cachedKind, cachedDrive, cachedLba)
      requires exists h: Geometry, e: nat ::
        h in mounts && e <= h.MaxCluster() && h.FatAddr(0, e) == Addr(cachedKind, cachedDrive, cachedLba)
      ensures forall j: nat :: j < g.numFats ==> g.FatAddr(j, c) != Addr(cachedKind, cachedDrive, cachedLba)
    {
      var h: Geometry, e: nat :| h in mounts && e <= h.MaxCluster()
        && h.FatAddr(0, e) == Addr(cachedKind, cachedDrive, cachedLba);
      forall j: nat | j < g.numFats ensures g.FatAddr(j, c) != h.FatAddr(0, e) {
        FatCopyRegion(g, j, c);
        FatCopyRegion(h, 0, e);
        if h == g && g.FatAddr(j, c) == h.FatAddr(0, e) {
          FatSectorsApart(g, j, c, 0, e);
        }
      }
    }

    /** Writes sector `s` of data cluster `c`. */
    method WriteSector(g: Geometry, c: nat, s: nat, sector: Sector)
      requires Valid() && g in mounts && g.IsCluster(c) && s < g.spc
      modifies this`disk, this`trace
      ensures Valid() && SameOutside(old(disk), disk, g)
      ensures View(g) == Stored(old(View(g)), c, s, sector)
      ensures trace == old(trace) + [disk]
    {
      ghost var was := disk;
      DataRegion(g, c);
      ViewWritten(disk, g, c, s, sector);
      disk := disk[g.DataAddr(c, s) := sector];
      trace := trace + [disk];
      forall h: Geometry, copy: nat, e: nat | h in mounts && copy < h.numFats && e <= h.MaxCluster()
        ensures h.FatAddr(copy, e) != g.DataAddr(c, s)
      {
        FatCopyRegion(h, copy, e);
      }
    }

    /** Reads sector `s` of data cluster `c`. */
    method ReadSector(g: Geometry, c: nat, s: nat) returns (sector: Sector)
      requires Valid() && g in mounts && g.IsCluster(c) && s < g.spc
      ensures sector == View(g).data[c][s]
    {
      DataRegion(g, c);
      sector := disk[g.DataAddr(c, s)];
    }
  }

  lemma CopyIsNotPrimary(g: Geometry, copy: nat, c: nat)
    requires g.Valid() && 0 < copy < g.numFats && c <= g.MaxCluster()
    ensures forall c': nat :: c' <= g.MaxCluster() ==> g.FatAddr(0, c') != g.FatAddr(copy, c)
  {
    forall c': nat | c' <= g.MaxCluster() ensures g.FatAddr(0, c') != g.FatAddr(copy, c) {
      if g.FatAddr(0, c') == g.FatAddr(copy, c) {
        FatSectorsApart(g, 0, c', copy, c);
      }
    }
  }

  lemma OtherCopies(g: Geometry, copy: nat, c: nat)
    requires g.Valid() && copy < g.numFats && c <= g.MaxCluster()
    ensures forall j: nat :: j < g.numFats && j != copy ==> g.FatAddr(j, c) != g.FatAddr(copy, c)
  {
    forall j: nat | j < g.numFats && j != copy ensures g.FatAddr(j, c) != g.FatAddr(copy, c) {
      if g.FatAddr(j, c) == g.FatAddr(copy, c) {
        FatSectorsApart(g, j, c, copy, c);
      }
    }
  }

  /** What an entry write does to every word of every FAT copy, and to everything else. */
  lemma AfterEntry(was: Disk, disk: Disk, g: Geometry, c: nat, value: nat)
    requires g.Valid() && g.OnDisk(was) && c <= g.MaxCluster()
    requires CopiesEntered(was, disk, g, c, value, g.numFats)
    ensures SameOutside(was, disk, g) && WordsEntered(was, disk, g, c, value)
  {
    forall a | a in was && !g.Contains(a) ensures disk[a] == was[a] {
      forall j: nat | j < g.numFats ensures g.FatAddr(j, c) != a {
        FatCopyRegion(g, j, c);
      }
    }
    forall copy: nat, c': nat | copy < g.numFats && c' <= g.MaxCluster()
      ensures && g.FatAddr(copy, c') in was && g.FatAddr(copy, c') in disk
              && FatWord(disk, g, copy, c') == if c' == c then Merge(FatWord(was, g, copy, c'), value)
                 else FatWord(was, g, copy, c')
    {
      FatCopyRegion(g, copy, c');
      var a := g.FatAddr(copy, c');
      if j: nat :| j < g.numFats && g.FatAddr(j, c) == a {
        FatSectorsApart(g, j, c, copy, c');
        EnteredWords(was[a], c, value, c');
      }
    }
  }
}
