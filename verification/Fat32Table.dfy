/** The FAT itself: geometry, the one-sector read cache, and entry writes to every FAT copy. */
module Fat32Table {
  import opened BlockStore
  import opened Products

  const EOC: nat := 0x0FFF_FFF8
  const LOW28: nat := 0x1000_0000

  /** What mounting computes from the boot sector, for one volume. */
  datatype Geometry = Geometry(kind: nat, drive: nat, fatStart: nat, fatSize: nat, numFats: nat,
                               spc: nat, totalClusters: nat)
  {
    predicate Valid() {
      && 1 <= numFats
      && PowerOfTwo()
      && totalClusters + 2 <= fatSize * 128
      && totalClusters + 1 < EOC
    }

    /** The cluster sizes the FAT32 specification allows. */
    predicate PowerOfTwo() { spc in {1, 2, 4, 8, 16, 32, 64, 128} }

    function DataStart(): nat { fatStart + numFats * fatSize }

    function MaxCluster(): nat { totalClusters + 1 }

    predicate IsCluster(c: nat) { 2 <= c <= MaxCluster() }

    /** The sector of FAT copy `copy` that holds the entry of cluster `c`. */
    function FatAddr(copy: nat, c: nat): Addr { Addr(kind, drive, fatStart + copy * fatSize + c / 128) }

    /** Sector `s` of data cluster `c`. */
    function DataAddr(c: nat, s: nat): Addr
      requires c >= 2
    {
      Addr(kind, drive, DataStart() + (c - 2) * spc + s)
    }

    /** One past the last sector of the volume's data area. */
    function End(): nat { DataStart() + totalClusters * spc }

    predicate Contains(a: Addr) { a.kind == kind && a.drive == drive && fatStart <= a.lba < End() }

    ghost predicate OnDisk(disk: Disk) { forall a: Addr :: Contains(a) ==> a in disk }
  }

  ghost predicate Disjoint(g: Geometry, h: Geometry) {
    forall a: Addr :: !(g.Contains(a) && h.Contains(a))
  }

  /** The 32-bit FAT word of cluster `c` in copy `copy`. */
  ghost function FatWord(disk: Disk, g: Geometry, copy: nat, c: nat): (w: nat)
    requires g.FatAddr(copy, c) in disk
    ensures w < 0x1_0000_0000
  {
    Word(disk[g.FatAddr(copy, c)], 4 * (c % 128))
  }

  /** A volume as the rest of the driver sees it: low 28 bits of the primary FAT, and the data clusters. */
  datatype View = View(fat: seq<nat>, data: seq<seq<Sector>>)

  ghost function FatOf(disk: Disk, g: Geometry): (fat: seq<nat>)
    requires g.Valid() && g.OnDisk(disk)
    ensures |fat| == g.totalClusters + 2
    ensures forall c :: 0 <= c < |fat| ==> g.FatAddr(0, c) in disk && fat[c] == FatWord(disk, g, 0, c) % LOW28
  {
    FatRegion(g);
    seq(g.totalClusters + 2, c requires 0 <= c < g.totalClusters + 2
      && g.FatAddr(0, c) in disk => FatWord(disk, g, 0, c) % LOW28)
  }

  ghost function ClusterOf(disk: Disk, g: Geometry, c: nat): (sectors: seq<Sector>)
    requires g.Valid() && g.OnDisk(disk) && g.IsCluster(c)
    ensures |sectors| == g.spc
    ensures forall s :: 0 <= s < g.spc ==> g.DataAddr(c, s) in disk && sectors[s] == disk[g.DataAddr(c, s)]
  {
    DataRegion(g, c);
    seq(g.spc, s requires 0 <= s < g.spc && g.DataAddr(c, s) in disk => disk[g.DataAddr(c, s)])
  }

  ghost function DataOf(disk: Disk, g: Geometry): (data: seq<seq<Sector>>)
    requires g.Valid() && g.OnDisk(disk)
    ensures |data| == g.totalClusters + 2
    ensures forall c :: 0 <= c < |data| ==> data[c] == if c < 2 then [] else ClusterOf(disk, g, c)
  {
    seq(g.totalClusters + 2, c requires 0 <= c < g.totalClusters + 2 => if c < 2 then [] else ClusterOf(disk, g, c))
  }

  ghost function ViewOf(disk: Disk, g: Geometry): (v: View)
    requires g.Valid() && g.OnDisk(disk)
    ensures |v.fat| == |v.data| == g.totalClusters + 2
  {
    View(FatOf(disk, g), DataOf(disk, g))
  }

  /** An entry write keeps the reserved top nibble of the word it replaces. */
  function Merge(was: nat, value: nat): (w: nat)
    requires was < 0x1_0000_0000
    ensures w < 0x1_0000_0000
    ensures w % LOW28 == value % LOW28 && w / LOW28 == was / LOW28
  {
    value % LOW28 + was / LOW28 * LOW28
  }

  // ----- where things lie

  lemma FatCopyRegion(g: Geometry, copy: nat, c: nat)
    requires g.Valid() && copy < g.numFats && c <= g.MaxCluster()
    ensures g.Contains(g.FatAddr(copy, c))
    ensures g.fatStart + copy * g.fatSize <= g.FatAddr(copy, c).lba < g.DataStart()
    ensures g.FatAddr(copy, c).lba < g.fatStart + copy * g.fatSize + g.fatSize
  {
    RowOrder(copy, g.numFats, g.fatSize);
    assert c / 128 < g.fatSize;
    ProductSign(copy, g.fatSize);
    ProductSign(g.totalClusters, g.spc);
  }

  lemma FatRegion(g: Geometry)
    requires g.Valid()
    ensures forall c :: 0 <= c <= g.MaxCluster() ==> g.Contains(g.FatAddr(0, c))
  {
    forall c: nat | c <= g.MaxCluster() ensures g.Contains(g.FatAddr(0, c)) {
      FatCopyRegion(g, 0, c);
    }
  }

  lemma DataRegion(g: Geometry, c: nat)
    requires g.Valid() && g.IsCluster(c)
    ensures forall s :: 0 <= s < g.spc ==> g.Contains(g.DataAddr(c, s)) && g.DataStart() <= g.DataAddr(c, s).lba
  {
    RowOrder(c - 2, g.totalClusters, g.spc);
    ProductSign(g.numFats, g.fatSize);
    ProductSign(c - 2, g.spc);
  }

  lemma ClustersApart(g: Geometry, c: nat, s: nat, c': nat, s': nat)
    requires g.Valid() && g.IsCluster(c) && g.IsCluster(c') && s < g.spc && s' < g.spc
    requires c != c' || s != s'
    ensures g.DataAddr(c, s) != g.DataAddr(c', s')
  {
    if c < c' {
      RowOrder(c - 2, c' - 2, g.spc);
    } else if c' < c {
      RowOrder(c' - 2, c - 2, g.spc);
    }
  }

  /** FAT sectors of two different copies, or of one copy and two distinct table sectors, never coincide. */
  lemma FatSectorsApart(g: Geometry, copy: nat, c: nat, copy': nat, c': nat)
    requires g.Valid() && copy < g.numFats && copy' < g.numFats && c <= g.MaxCluster() && c' <= g.MaxCluster()
    requires g.FatAddr(copy, c) == g.FatAddr(copy', c')
    ensures copy == copy' && c / 128 == c' / 128
  {
    FatCopyRegion(g, copy, c);
    FatCopyRegion(g, copy', c');
    if copy < copy' {
      RowOrder(copy, copy', g.fatSize);
    } else if copy' < copy {
      RowOrder(copy', copy, g.fatSize);
    }
  }

  // ----- how one sector write moves the view

  /** Writing a sector outside the primary FAT and outside the data area leaves the view alone. */
  lemma ViewUnmoved(disk: Disk, g: Geometry, a: Addr, s: Sector)
    requires g.Valid() && g.OnDisk(disk) && a in disk
    requires forall c :: 0 <= c <= g.MaxCluster() ==> g.FatAddr(0, c) != a
    requires a.kind == g.kind && a.drive == g.drive ==> a.lba < g.DataStart()
    ensures g.OnDisk(disk[a := s]) && ViewOf(disk[a := s], g) == ViewOf(disk, g)
  {
    var d := disk[a := s];
    assert FatOf(d, g) == FatOf(disk, g);
    forall c | 0 <= c < g.totalClusters + 2 ensures DataOf(d, g)[c] == DataOf(disk, g)[c] {
      if c >= 2 {
        DataRegion(g, c);
        assert ClusterOf(d, g, c) == ClusterOf(disk, g, c);
      }
    }
    assert DataOf(d, g) == DataOf(disk, g);
  }

  /** The sector of a FAT copy after the entry of cluster `c` is set. */
  function Entered(s: Sector, c: nat, value: nat): (r: Sector) {
    PutWord(s, 4 * (c % 128), Merge(Word(s, 4 * (c % 128)), value))
  }

  lemma EnteredWords(s: Sector, c: nat, value: nat, c': nat)
    ensures Word(Entered(s, c, value), 4 * (c' % 128)) ==
            if c % 128 == c' % 128 then Merge(Word(s, 4 * (c % 128)), value) else Word(s, 4 * (c' % 128))
  {
  }

  /** Setting one primary entry is a point update of the FAT view. */
  lemma ViewEntered(disk: Disk, g: Geometry, c: nat, value: nat)
    requires g.Valid() && g.OnDisk(disk) && c <= g.MaxCluster() && g.FatAddr(0, c) in disk
    ensures var d := disk[g.FatAddr(0, c) := Entered(disk[g.FatAddr(0, c)], c, value)];
            g.OnDisk(d) && ViewOf(d, g) == ViewOf(disk, g).(fat := ViewOf(disk, g).fat[c := value % LOW28])
  {
    var a := g.FatAddr(0, c);
    var d := disk[a := Entered(disk[a], c, value)];
    FatCopyRegion(g, 0, c);
    forall c' | 0 <= c' < g.totalClusters + 2 ensures FatOf(d, g)[c'] == FatOf(disk, g)[c := value % LOW28][c'] {
      EnteredWords(disk[a], c, value, c');
      if g.FatAddr(0, c') == a {
        FatSectorsApart(g, 0, c, 0, c');
      }
    }
    assert FatOf(d, g) == FatOf(disk, g)[c := value % LOW28];
    forall c' | 0 <= c' < g.totalClusters + 2 ensures DataOf(d, g)[c'] == DataOf(disk, g)[c'] {
      if c' >= 2 {
        DataRegion(g, c');
        assert ClusterOf(d, g, c') == ClusterOf(disk, g, c');
      }
    }
    assert DataOf(d, g) == DataOf(disk, g);
  }

  /** Writing one data sector is a point update of the data view. */
  lemma ViewWritten(disk: Disk, g: Geometry, c: nat, s: nat, sector: Sector)
    requires g.Valid() && g.OnDisk(disk) && g.IsCluster(c) && s < g.spc && g.DataAddr(c, s) in disk
    ensures var d := disk[g.DataAddr(c, s) := sector];
            g.OnDisk(d) && ViewOf(d, g) == Stored(ViewOf(disk, g), c, s, sector)
  {
    var a := g.DataAddr(c, s);
    var d := disk[a := sector];
    DataRegion(g, c);
    forall c' | 0 <= c' < g.totalClusters + 2 ensures FatOf(d, g)[c'] == FatOf(disk, g)[c'] {
      FatCopyRegion(g, 0, c');
    }
    assert FatOf(d, g) == FatOf(disk, g);
    forall c' | 0 <= c' < g.totalClusters + 2
      ensures DataOf(d, g)[c'] == Stored(ViewOf(disk, g), c, s, sector).data[c']
    {
      if c' >= 2 {
        forall s' | 0 <= s' < g.spc
          ensures ClusterOf(d, g, c')[s'] == Stored(ViewOf(disk, g), c, s, sector).data[c'][s']
        {
          if c' != c || s' != s {
            ClustersApart(g, c, s, c', s');
          }
        }
        assert ClusterOf(d, g, c') == Stored(ViewOf(disk, g), c, s, sector).data[c'];
      }
    }
    assert DataOf(d, g) == Stored(ViewOf(disk, g), c, s, sector).data;
  }

  function Stored(v: View, c: nat, s: nat, sector: Sector): (r: View)
    requires c < |v.data| && s < |v.data[c]|
    ensures r.fat == v.fat && |r.data| == |v.data| && |r.data[c]| == |v.data[c]| && r.data[c][s] == sector
    ensures forall c' :: 0 <= c' < |v.data| && c' != c ==> r.data[c'] == v.data[c']
    ensures forall s' :: 0 <= s' < |v.data[c]| && s' != s ==> r.data[c][s'] == v.data[c][s']
  {
    var row: seq<Sector> := v.data[c];
    var row': seq<Sector> := row[s := sector];
    v.(data := v.data[c := row'])
  }
}
