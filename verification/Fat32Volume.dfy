/** A mounted volume on top of the driver. The rest of the file system works on its view: the FAT and the data
    clusters, with one recorded view per sector write. */
module Fat32Volume {
  import opened BlockStore
  import opened Fat32Table
  import opened Fat32Driver

  /** The view has one FAT entry and one data cluster per cluster number, all numbers below the end-of-chain marks. */
  ghost predicate Shaped(g: Geometry, v: View) {
    && |v.fat| == |v.data| == g.totalClusters + 2 <= EOC
    && g.PowerOfTwo()
    && (forall c :: 2 <= c < |v.data| ==> |v.data[c]| == g.spc)
    && (forall c :: 0 <= c < |v.fat| ==> v.fat[c] < LOW28)
  }

  /** `steps` is the volume's view after each disk write past the first `base`. */
  ghost predicate Recorded(trace: seq<Disk>, base: nat, g: Geometry, steps: seq<View>)
    requires g.Valid()
  {
    && |trace| == base + |steps|
    && forall k :: base <= k < |trace| ==> g.OnDisk(trace[k]) && ViewOf(trace[k], g) == steps[k - base]
  }

  lemma RecordMore(trace: seq<Disk>, trace': seq<Disk>, base: nat, g: Geometry, steps: seq<View>, v: View)
    requires g.Valid() && Recorded(trace, base, g, steps) && trace <= trace'
    requires forall k :: |trace| <= k < |trace'| ==> g.OnDisk(trace'[k]) && ViewOf(trace'[k], g) == v
    ensures Recorded(trace', base, g, steps + seq(|trace'| - |trace|, _ => v))
    ensures |trace'| == |trace| + 1 ==> Recorded(trace', base, g, steps + [v])
  {
    hide ViewOf;
    assert |trace'| == |trace| + 1 ==> seq(|trace'| - |trace|, _ => v) == [v];
  }

  class Volume {
    const g: Geometry
    const d: Driver
    var hint: nat                      // where the allocators start searching

    ghost const base: nat              // writes the driver had issued before this mount
    ghost var v: View                  // the volume as the disk holds it now
    ghost var steps: seq<View>         // the volume after each sector write since the mount

    ghost predicate Valid()
      reads this`v, this`steps, d
      ensures Valid() ==> Shaped(g, v)
    {
      d.Valid() && g in d.mounts && v == ViewOf(d.disk, g) && Shaped(g, v) && Recorded(d.trace, base, g, steps)
    }

    /** Every recorded view is a well-formed volume. */
    lemma StepsShaped()
      requires Valid()
      ensures forall k :: 0 <= k < |steps| ==> Shaped(g, steps[k])
    {
      forall k | 0 <= k < |steps| ensures Shaped(g, steps[k]) {
        assert g.OnDisk(d.trace[base + k]) && ViewOf(d.trace[base + k], g) == steps[k];
        ViewShaped(d.trace[base + k], g);
      }
    }

    /** The tail of fat32_mount: the hint starts at the first data cluster. */
    constructor (d: Driver, g: Geometry)
      requires d.Valid() && g in d.mounts
      ensures Valid() && this.d == d && this.g == g && hint == 2 && steps == [] && v == ViewOf(d.disk, g)
    {
      this.d, this.g, this.base := d, g, |d.trace|;
      hint := 2;
      v, steps := ViewOf(d.disk, g), [];
      new;
      ViewShaped(d.disk, g);
    }

    /** fat32_next_cluster */
    method NextCluster(c: nat) returns (next: nat)
      requires Valid() && c <= g.MaxCluster()
      modifies d
      ensures Valid() && next == v.fat[c] && d.disk == old(d.disk)
    {
      next := d.NextCluster(g, c);
    }

    /** fat32_set_fat_entry */
    method SetEntry(c: nat, value: nat)
      requires Valid() && c <= g.MaxCluster()
      modifies d, this`v, this`steps
      ensures Valid() && SameOutside(old(d.disk), d.disk, g)
      ensures v == old(v).(fat := old(v).fat[c := value % LOW28])
      ensures old(steps) <= steps && forall k :: |old(steps)| <= k < |steps| ==> steps[k] == v
    {
      hide Driver.Valid, ViewOf, Recorded;
      ghost var was, trace := steps, d.trace;
      d.SetEntry(g, c, value);
      ghost var now := ViewOf(d.disk, g);
      v := now;
      steps := steps + seq(|d.trace| - |trace|, _ => now);
      RecordMore(trace, d.trace, base, g, was, now);
      ViewShaped(d.disk, g);
    }

    method WriteSector(c: nat, s: nat, sector: Sector)
      requires Valid() && g.IsCluster(c) && s < g.spc
      modifies d, this`v, this`steps
      ensures Valid() && SameOutside(old(d.disk), d.disk, g)
      ensures v == Stored(old(v), c, s, sector)
      ensures steps == old(steps) + [v]
    {
      hide Driver.Valid, ViewOf, Recorded;
      ghost var was, trace := steps, d.trace;
      d.WriteSector(g, c, s, sector);
      v := ViewOf(d.disk, g);
      steps := steps + [v];
      RecordMore(trace, d.trace, base, g, was, v);
      ViewShaped(d.disk, g);
    }

    method ReadSector(c: nat, s: nat) returns (sector: Sector)
      requires Valid() && g.IsCluster(c) && s < g.spc
      ensures sector == v.data[c][s]
    {
      sector := d.ReadSector(g, c, s);
    }
  }

  lemma ViewShaped(disk: Disk, g: Geometry)
    requires g.Valid() && g.OnDisk(disk)
    ensures Shaped(g, ViewOf(disk, g))
  {
  }
}
