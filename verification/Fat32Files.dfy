/** Files as byte strings, and who owns which cluster. */
module Fat32Files {
  import opened Words
  import opened BlockStore
  import opened Products
  import opened Fat32Table
  import opened Fat32Volume
  import opened Fat32Chains

  const DIRENT_SIZE: nat := 32

  /** A directory slot: entry `slot` of sector `sector` of directory cluster `cluster`. */
  datatype Loc = Loc(cluster: nat, sector: nat, slot: nat)

  ghost predicate InBounds(g: Geometry, l: Loc) {
    g.IsCluster(l.cluster) && l.sector < g.spc && l.slot < 16
  }

  /** The 32 bytes of the slot. */
  ghost function Slot(g: Geometry, v: View, l: Loc): (e: seq<byte>)
    requires Shaped(g, v) && InBounds(g, l)
    ensures |e| == DIRENT_SIZE
  {
    v.data[l.cluster][l.sector][DIRENT_SIZE * l.slot..DIRENT_SIZE * l.slot + DIRENT_SIZE]
  }

  /** Directory entry fields: a first byte of 0x00 or 0xE5 marks a slot that names no file. */
  predicate Live(e: seq<byte>) requires |e| == DIRENT_SIZE { e[0] != 0x00 && e[0] != 0xE5 }

  function FirstCluster(e: seq<byte>): nat requires |e| == DIRENT_SIZE { Half(e, 20) * 0x1_0000 + Half(e, 26) }

  function FileSize(e: seq<byte>): nat requires |e| == DIRENT_SIZE { Word(e, 28) }

  /** The sectors in `n` clusters. */
  function Sectors(g: Geometry, n: nat): nat { n * g.spc }

  /** Sector `k` of the file stored in chain `ch`. */
  ghost function FileSector(g: Geometry, v: View, ch: seq<nat>, k: nat): Sector
    requires Shaped(g, v) && InRange(g, ch) && k < Sectors(g, |ch|)
  {
    SectorAt(g, k, |ch|);
    v.data[ch[k / g.spc]][k % g.spc]
  }

  ghost predicate InRange(g: Geometry, ch: seq<nat>) { forall i :: 0 <= i < |ch| ==> g.IsCluster(ch[i]) }

  lemma SectorIndex(k: nat, spc: nat, n: nat)
    requires spc > 0 && k < n * spc
    ensures k / spc < n && k % spc < spc && k == k / spc * spc + k % spc
  {
    RowOf(k, spc);
    if n <= k / spc && n < k / spc {
      RowOrder(n, k / spc, spc);
    }
    assert k == k / spc * spc + k % spc;
  }

  lemma SectorAt(g: Geometry, k: nat, n: nat)
    requires g.spc > 0 && k < Sectors(g, n)
    ensures 0 <= k / g.spc < n && 0 <= k % g.spc < g.spc && Sectors(g, k / g.spc) + k % g.spc == k
  {
    SectorIndex(k, g.spc, n);
  }

  lemma IndexSector(i: nat, s: nat, spc: nat, n: nat)
    requires spc > 0 && s < spc && i < n
    ensures i * spc + s < n * spc && (i * spc + s) / spc == i && (i * spc + s) % spc == s
  {
    RowOrder(i, n, spc);
    RowIndex(i, s, spc);
  }

  /** The bytes a chain can hold. */
  function Capacity(g: Geometry, ch: seq<nat>): nat { Sectors(g, |ch|) * 512 }

  /** The file's first `size` bytes. */
  ghost function Content(g: Geometry, v: View, ch: seq<nat>, size: nat): (bytes: seq<byte>)
    requires Shaped(g, v) && InRange(g, ch) && size <= Capacity(g, ch)
    ensures |bytes| == size
    ensures forall p :: 0 <= p < size ==> bytes[p] == FileSector(g, v, ch, p / 512)[p % 512]
  {
    seq(size, p requires 0 <= p < size => FileSector(g, v, ch, p / 512)[p % 512])
  }

  /** Chains whose clusters hold the same data hold the same file. */
  lemma SameContent(g: Geometry, v: View, ch: seq<nat>, v': View, ch': seq<nat>, size: nat)
    requires Shaped(g, v) && Shaped(g, v') && InRange(g, ch) && InRange(g, ch') && |ch| == |ch'|
    requires size <= Capacity(g, ch)
    requires forall i :: 0 <= i < |ch| ==> v'.data[ch'[i]] == v.data[ch[i]]
    ensures Content(g, v', ch', size) == Content(g, v, ch, size)
  {
    hide Sectors;
    forall k: nat | k < Sectors(g, |ch|) ensures FileSector(g, v', ch', k) == FileSector(g, v, ch, k) {
      SameSector(g, v, ch, v', ch', k);
    }
    SameBytes(g, v, ch, v', ch', size);
  }

  lemma SameSector(g: Geometry, v: View, ch: seq<nat>, v': View, ch': seq<nat>, k: nat)
    requires Shaped(g, v) && Shaped(g, v') && InRange(g, ch) && InRange(g, ch') && |ch| == |ch'| && k < Sectors(g, |ch|)
    requires forall i :: 0 <= i < |ch| ==> v'.data[ch'[i]] == v.data[ch[i]]
    ensures FileSector(g, v', ch', k) == FileSector(g, v, ch, k)
  {
    SectorIndex(k, g.spc, |ch|);
  }

  /** Files made of the same sectors have the same bytes. */
  lemma SameBytes(g: Geometry, v: View, ch: seq<nat>, v': View, ch': seq<nat>, size: nat)
    requires Shaped(g, v) && Shaped(g, v') && InRange(g, ch) && InRange(g, ch') && |ch| == |ch'|
    requires size <= Capacity(g, ch)
    requires forall k: nat :: k < Sectors(g, |ch|) ==> FileSector(g, v', ch', k) == FileSector(g, v, ch, k)
    ensures Content(g, v', ch', size) == Content(g, v, ch, size)
  {
    hide FileSector, Sectors;
    forall p | 0 <= p < size ensures Content(g, v', ch', size)[p] == Content(g, v, ch, size)[p] {
      assert FileSector(g, v', ch', p / 512) == FileSector(g, v, ch, p / 512);
    }
  }

  // ----- what following the disk from a directory slot yields

  /** The on-disk slot at `l` names a file whose contents, found by following the primary FAT, are `bytes`. */
  ghost predicate ReadsAs(g: Geometry, v: View, l: Loc, bytes: seq<byte>) {
    && Shaped(g, v) && InBounds(g, l) && Live(Slot(g, v, l))
    && exists ch :: StoredIn(g, v, Slot(g, v, l), ch) && bytes == Content(g, v, ch, FileSize(Slot(g, v, l)))
  }

  /** Directory entry `e` starts chain `ch`, which is long enough for the recorded size. */
  ghost predicate StoredIn(g: Geometry, v: View, e: seq<byte>, ch: seq<nat>)
    requires |e| == DIRENT_SIZE
  {
    && InRange(g, ch) && FileSize(e) <= Capacity(g, ch)
    && if ch == [] then FirstCluster(e) == 0 else IsChain(v.fat, ch) && ch[0] == FirstCluster(e)
  }

  /** A slot reads as at most one byte string. */
  lemma ReadsAsOne(g: Geometry, v: View, l: Loc, a: seq<byte>, b: seq<byte>)
    requires ReadsAs(g, v, l, a) && ReadsAs(g, v, l, b)
    ensures a == b
  {
    var e := Slot(g, v, l);
    var ca :| StoredIn(g, v, e, ca) && a == Content(g, v, ca, FileSize(e));
    var cb :| StoredIn(g, v, e, cb) && b == Content(g, v, cb, FileSize(e));
    if ca != [] && cb != [] {
      ChainUnique(v.fat, ca, cb);
    } else {
      assert ca == [] ==> cb == [];
    }
  }

  // ----- ownership

  datatype Owner = Dir(id: nat) | File(loc: Loc)

  type Owners = map<Owner, seq<nat>>

  ghost predicate InDir(own: Owners, c: nat) {
    exists id :: Dir(id) in own && c in own[Dir(id)]
  }

  /** Every owner has a well-formed chain, no cluster has two owners, and every file's slot lies in a directory
      cluster, is live, and starts the file's chain. */
  ghost predicate Inv(g: Geometry, v: View, own: Owners)
    ensures Inv(g, v, own) ==> Shaped(g, v)
  {
    && Shaped(g, v)
    && (forall o :: o in own ==> ChainOk(v, o, own[o]))
    && (forall o, o' :: o in own && o' in own && o != o' ==> Apart(own[o], own[o']))
    && (forall l :: File(l) in own ==> InDir(own, l.cluster) && FileOk(g, v, l, own[File(l)]))
  }

  ghost predicate ChainOk(v: View, o: Owner, ch: seq<nat>) {
    if ch == [] then o.File? else IsChain(v.fat, ch)
  }

  /** No file's clusters reach past 4 GiB, the most a 32-bit size can record. */
  const FOUR_GIB: nat := 0x1_0000_0000

  ghost predicate FileOk(g: Geometry, v: View, l: Loc, ch: seq<nat>)
    requires Shaped(g, v)
  {
    && InBounds(g, l) && Live(Slot(g, v, l)) && StoredIn(g, v, Slot(g, v, l), ch) && Capacity(g, ch) <= FOUR_GIB
  }

  ghost function Bytes(g: Geometry, v: View, own: Owners, l: Loc): (bytes: seq<byte>)
    requires Inv(g, v, own) && File(l) in own
  {
    Content(g, v, own[File(l)], FileSize(Slot(g, v, l)))
  }

  lemma BytesReadBack(g: Geometry, v: View, own: Owners, l: Loc)
    requires Inv(g, v, own) && File(l) in own
    ensures ReadsAs(g, v, l, Bytes(g, v, own, l))
  {
  }

  lemma FileIsOk(g: Geometry, v: View, own: Owners, l: Loc)
    requires Inv(g, v, own) && File(l) in own
    ensures FileOk(g, v, l, own[File(l)])
  {
  }

  lemma FileStart(g: Geometry, v: View, own: Owners, l: Loc)
    requires Inv(g, v, own) && File(l) in own
    ensures InBounds(g, l)
    ensures var ch := own[File(l)];
            FirstCluster(Slot(g, v, l)) == (if ch == [] then 0 else ch[0]) && (ch != [] ==> IsChain(v.fat, ch))
  {
    assert FileOk(g, v, l, own[File(l)]);
  }

  // ----- what does not disturb the owners

  /** Nothing `own` depends on differs between the two views. */
  ghost predicate Kept(g: Geometry, v0: View, v: View, own: Owners)
    requires Inv(g, v0, own)
  {
    && Shaped(g, v)
    && (forall o, i :: o in own && 0 <= i < |own[o]| ==> v.fat[own[o][i]] == v0.fat[own[o][i]])
    && (forall l :: File(l) in own ==> Slot(g, v, l) == Slot(g, v0, l))
    && (forall l, i :: File(l) in own && 0 <= i < |own[File(l)]| ==>
       v.data[own[File(l)][i]] == v0.data[own[File(l)][i]])
  }

  lemma KeptInv(g: Geometry, v0: View, v: View, own: Owners)
    requires Inv(g, v0, own) && Kept(g, v0, v, own)
    ensures Inv(g, v, own)
    ensures forall l :: File(l) in own ==> Bytes(g, v, own, l) == Bytes(g, v0, own, l)
  {
    forall o | o in own ensures ChainOk(v, o, own[o]) {
      if own[o] != [] {
        SameChain(v0.fat, v.fat, own[o]);
      }
    }
    forall l | File(l) in own ensures FileOk(g, v, l, own[File(l)]) {
      assert ChainOk(v, File(l), own[File(l)]);
    }
    forall l | File(l) in own ensures Bytes(g, v, own, l) == Bytes(g, v0, own, l) {
      SameContent(g, v0, own[File(l)], v, own[File(l)], FileSize(Slot(g, v, l)));
    }
  }

  lemma SameChain(fat: seq<nat>, fat': seq<nat>, ch: seq<nat>)
    requires IsChain(fat, ch) && |fat'| == |fat|
    requires forall i :: 0 <= i < |ch| ==> fat'[ch[i]] == fat[ch[i]]
    ensures IsChain(fat', ch)
  {
  }

  /** Clusters outside `ch` that were in use are untouched. */
  ghost predicate Confined(v0: View, v: View, ch: seq<nat>) {
    && |v.fat| == |v0.fat| && |v.data| == |v0.data| == |v0.fat|
    && (forall c :: 0 <= c < |v0.fat| && c !in ch && v0.fat[c] != 0 ==> v.fat[c] == v0.fat[c])
    && (forall c :: 0 <= c < |v0.fat| && c !in ch && v0.fat[c] != 0 ==> v.data[c] == v0.data[c])
  }

  lemma ConfinedTrans(v0: View, v1: View, v2: View, ch: seq<nat>, ch': seq<nat>)
    requires Confined(v0, v1, ch) && Confined(v1, v2, ch')
    requires forall i :: 0 <= i < |ch'| ==> ch'[i] in ch || (ch'[i] < |v0.fat| && v0.fat[ch'[i]] == 0)
    ensures Confined(v0, v2, ch)
  {
  }

  lemma GrowsConfined(v0: View, v: View, ch: seq<nat>)
    requires Grows(v0, v)
    ensures Confined(v0, v, ch)
  {
  }

  /** `ch` shares no cluster with any owner. */
  ghost predicate Unowned(own: Owners, ch: seq<nat>) {
    forall o :: o in own ==> Apart(ch, own[o])
  }

  lemma ConfinedKeeps(g: Geometry, v0: View, v: View, own: Owners, ch: seq<nat>)
    requires Inv(g, v0, own) && Shaped(g, v) && Confined(v0, v, ch) && Unowned(own, ch)
    ensures Kept(g, v0, v, own)
  {
    forall o, i | o in own && 0 <= i < |own[o]|
      ensures v.fat[own[o][i]] == v0.fat[own[o][i]] && v.data[own[o][i]] == v0.data[own[o][i]]
    {
      ChainEnd(v0.fat, own[o], i);
      assert Apart(ch, own[o]);
    }
    forall l | File(l) in own ensures Slot(g, v, l) == Slot(g, v0, l) {
      var id :| Dir(id) in own && l.cluster in own[Dir(id)];
      var i :| 0 <= i < |own[Dir(id)]| && own[Dir(id)][i] == l.cluster;
      assert v.data[own[Dir(id)][i]] == v0.data[own[Dir(id)][i]];
    }
  }

  // ----- taking one file out of the owners and putting it back

  lemma InvSplit(g: Geometry, v: View, own: Owners, l: Loc)
    requires Inv(g, v, own) && File(l) in own
    ensures Inv(g, v, own - {File(l)}) && Unowned(own - {File(l)}, own[File(l)])
    ensures InDir(own - {File(l)}, l.cluster)
    ensures forall l' :: File(l') in own - {File(l)} ==> Bytes(g, v, own - {File(l)}, l') == Bytes(g, v, own, l')
  {
    var rest := own - {File(l)};
    forall l' | File(l') in own ensures InDir(rest, l'.cluster) {
      var id :| Dir(id) in own && l'.cluster in own[Dir(id)];
      assert Dir(id) in rest && rest[Dir(id)] == own[Dir(id)];
    }
  }

  lemma InvJoin(g: Geometry, v: View, rest: Owners, l: Loc, ch: seq<nat>)
    requires Inv(g, v, rest) && File(l) !in rest && InDir(rest, l.cluster)
    requires FileOk(g, v, l, ch) && Unowned(rest, ch)
    ensures Inv(g, v, rest[File(l) := ch])
  {
    var own := rest[File(l) := ch];
    forall l' | File(l') in own ensures InDir(own, l'.cluster) {
      var id :| Dir(id) in rest && l'.cluster in rest[Dir(id)];
      assert Dir(id) in own && own[Dir(id)] == rest[Dir(id)];
    }
    forall o, o' | o in own && o' in own && o != o' ensures Apart(own[o], own[o']) {
      if o == File(l) {
        assert Apart(ch, rest[o']);
      } else if o' == File(l) {
        assert Apart(ch, rest[o]);
      }
    }
  }

  /** Every file of `own` in `v0` is a file of `own'` in `v` with the same bytes. */
  ghost predicate SameFiles(g: Geometry, v0: View, own: Owners, v: View, own': Owners)
    requires Inv(g, v0, own) && Inv(g, v, own')
  {
    forall l :: File(l) in own ==> File(l) in own' && Bytes(g, v, own', l) == Bytes(g, v0, own, l)
  }

  lemma SameFilesRefl(g: Geometry, v: View, own: Owners)
    requires Inv(g, v, own)
    ensures SameFiles(g, v, own, v, own)
  {
  }

  /** After the other files were kept and one file put back with its old bytes, all files are the same. */
  lemma Rejoined(g: Geometry, v0: View, own: Owners, v: View, rest: Owners, l: Loc, ch: seq<nat>)
    requires Inv(g, v0, own) && File(l) in own && rest == own - {File(l)} && Inv(g, v, rest)
    requires Inv(g, v, own[File(l) := ch])
    requires forall l' :: File(l') in rest ==> Bytes(g, v, rest, l') == Bytes(g, v0, own, l')
    requires Bytes(g, v, own[File(l) := ch], l) == Bytes(g, v0, own, l)
    ensures SameFiles(g, v0, own, v, own[File(l) := ch])
  {
    hide Inv, Content;
    var own' := own[File(l) := ch];
    forall l' | File(l') in own ensures Bytes(g, v, own', l') == Bytes(g, v0, own, l') {
      if l' != l {
        assert File(l') in rest && rest[File(l')] == own'[File(l')];
      }
    }
  }

  /** Free clusters belong to no owner. */
  lemma RunUnowned(g: Geometry, v: View, own: Owners, first: nat, n: nat)
    requires Inv(g, v, own) && FreeRun(v.fat, first, n)
    ensures Unowned(own, Span(first, n))
  {
    forall o, i, j | o in own && 0 <= i < n && 0 <= j < |own[o]| ensures Span(first, n)[i] != own[o][j] {
      assert ChainOk(v, o, own[o]);
      ChainEnd(v.fat, own[o], j);
      assert v.fat[first + i] == 0;
    }
  }

  // ----- every file on the volume is owned

  /** Names a regular file: live, and neither a long-name part, a volume label nor a directory. */
  predicate NamesFile(e: seq<byte>) requires |e| == DIRENT_SIZE {
    Live(e) && e[11] != 0x0F && e[11] / 8 % 2 == 0 && e[11] / 16 % 2 == 0
  }

  /** Every regular-file entry of every owned directory belongs to a file of `own`. */
  ghost predicate Complete(g: Geometry, v: View, own: Owners)
    requires Shaped(g, v)
  {
    forall l :: InBounds(g, l) && InDir(own, l.cluster) && NamesFile(Slot(g, v, l)) ==> File(l) in own
  }

  /** No slot of `own`'s directories changed, be it of a file, a subdirectory, a label, a long-name part or of nothing,
      except those in `at`. */
  ghost predicate SlotsOutside(g: Geometry, v0: View, v: View, own: Owners, at: set<Loc>) {
    && Shaped(g, v0) && Shaped(g, v)
    && forall k :: InBounds(g, k) && InDir(own, k.cluster) && k !in at ==> Slot(g, v, k) == Slot(g, v0, k)
  }

  /** No directory slot but `l` changed, and `l` kept its name and attributes. */
  ghost predicate SlotsKept(g: Geometry, v0: View, v: View, own: Owners, l: Loc) {
    && SlotsOutside(g, v0, v, own, {l})
    && (InBounds(g, l) ==> Slot(g, v, l)[..12] == Slot(g, v0, l)[..12])
  }

  lemma SlotsRefl(g: Geometry, v: View, own: Owners, l: Loc)
    requires Shaped(g, v)
    ensures SlotsKept(g, v, v, own, l)
  {
  }

  lemma CompleteKept(g: Geometry, v0: View, v: View, own: Owners, own': Owners, l: Loc)
    requires Shaped(g, v0) && Complete(g, v0, own) && SlotsKept(g, v0, v, own, l)
    requires own'.Keys == own.Keys && forall id :: Dir(id) in own ==> own'[Dir(id)] == own[Dir(id)]
    ensures Complete(g, v, own')
  {
    forall k | InBounds(g, k) && InDir(own', k.cluster) && NamesFile(Slot(g, v, k)) ensures File(k) in own' {
      var id :| Dir(id) in own' && k.cluster in own'[Dir(id)];
      assert Dir(id) in own && InDir(own, k.cluster);
      assert Slot(g, v, k)[..12] == Slot(g, v0, k)[..12];
      assert Slot(g, v, k)[..12][0] == Slot(g, v0, k)[..12][0] && Slot(g, v, k)[..12][11] == Slot(g, v0, k)[..12][11];
    }
  }

  /** Writes confined to a chain apart from every directory leave all directory data alone. */
  lemma DirDataKept(g: Geometry, v0: View, v: View, own: Owners, ch: seq<nat>)
    requires Inv(g, v0, own) && Confined(v0, v, ch)
    requires forall id :: Dir(id) in own ==> Apart(ch, own[Dir(id)])
    ensures forall c: nat :: InDir(own, c) ==> 2 <= c < |v0.data| && v.data[c] == v0.data[c]
  {
    forall c: nat | InDir(own, c) ensures 2 <= c < |v0.data| && v.data[c] == v0.data[c] {
      var id :| Dir(id) in own && c in own[Dir(id)];
      var i :| 0 <= i < |own[Dir(id)]| && own[Dir(id)][i] == c;
      assert ChainOk(v0, Dir(id), own[Dir(id)]);
      ChainEnd(v0.fat, own[Dir(id)], i);
    }
  }
}
