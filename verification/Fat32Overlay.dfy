/** Byte windows over sectors: which sectors of a cluster a transfer touches, and what it leaves in them. */
module Fat32Overlay {
  import opened Words
  import opened BlockStore
  import opened Fat32Table
  import opened Fat32Driver
  import opened Fat32Volume
  import opened Fat32Chains
  import opened Fat32Files
  import opened Fat32Dirents

  /** A sector starting at file position `base`, after `data` was written at file position `offset`. */
  ghost function Overlay(was: Sector, base: nat, offset: nat, data: seq<byte>): (r: Sector)
    ensures forall b :: 0 <= b < 512 ==>
      r[b] == if offset <= base + b < offset + |data| then data[base + b - offset] else was[b]
  {
    seq(512, b requires 0 <= b < 512 => if offset <= base + b < offset + |data| then data[base + b - offset]
      else was[b])
  }

  lemma OverlayOutside(was: Sector, base: nat, offset: nat, data: seq<byte>)
    requires base + 512 <= offset || offset + |data| <= base || data == []
    ensures Overlay(was, base, offset, data) == was
  {
  }

  /** The last sector below 4 GiB. The sector loops add 512 to its start in 32 bits, get 0, and pass it over. */
  const LAST_SECTOR: nat := 0xFFFF_FE00

  /** How many bytes of a transfer of `size` at `offset` the sector loops reach. */
  function Reached(offset: nat, size: nat): (n: nat)
    ensures n <= size && (n == size <==> size == 0 || offset + size <= LAST_SECTOR)
    ensures n == 0 <==> size == 0 || LAST_SECTOR <= offset
  {
    if offset + size <= LAST_SECTOR then size else if offset < LAST_SECTOR then LAST_SECTOR - offset else 0
  }

  function Cut(offset: nat, data: seq<byte>): (r: seq<byte>)
    ensures |r| == Reached(offset, |data|) && r <= data
  {
    data[..Reached(offset, |data|)]
  }

  /** The sectors first..last of the cluster at `pos` are exactly those that meet the reached part of the transfer. */
  predicate IsWindow(spc: nat, pos: nat, offset: nat, size: nat, first: nat, last: nat) {
    var stop := offset + Reached(offset, size);
    && offset < stop && first <= last < spc && offset < pos + 512 * first + 512 && pos + 512 * last < stop
    && (first > 0 ==> pos + 512 * first <= offset) && (last + 1 < spc ==> stop <= pos + 512 * (last + 1))
  }

  /** The sector loop that picks first_s..last_s, in the 32-bit arithmetic of sec_start. */
  method Window(spc: nat, pos: nat, offset: nat, size: nat) returns (found: bool, first: nat, last: nat)
    requires 0 < size && 0 < spc && pos < offset + size && offset < pos + 512 * spc
    requires pos % 512 == 0 && pos + 512 * spc <= FOUR_GIB && offset + size < FOUR_GIB
    ensures found <==> offset < LAST_SECTOR && pos < LAST_SECTOR
    ensures found ==> IsWindow(spc, pos, offset, size, first, last)
  {
    found := false;
    first, last := 0, 0;
    var s := 0;
    while s < spc
      invariant 0 <= s <= spc
      invariant !found && s > 0 && offset < LAST_SECTOR && pos < LAST_SECTOR ==> pos + 512 * s <= offset
      invariant found ==> offset < LAST_SECTOR && pos < LAST_SECTOR && first <= last
      invariant found ==> last == s - 1 || (last == s - 2 && s == spc && pos + 512 * s == FOUR_GIB)
      invariant found ==> offset < pos + 512 * first + 512 && pos + 512 * last < offset + Reached(offset, size)
      invariant found && first > 0 ==> pos + 512 * first <= offset
    {
      var secStart := (pos + 512 * s) % FOUR_GIB;
      assert secStart == pos + 512 * s;
      assert (secStart + 512) % FOUR_GIB == if secStart == LAST_SECTOR then 0 else secStart + 512;
      if (secStart + 512) % FOUR_GIB <= offset {
        s := s + 1;
        continue;
      }
      if secStart >= offset + size {
        break;
      }
      if !found {
        first, found := s, true;
      }
      last := s;
      s := s + 1;
    }
  }

  /** Bytes of the transfer that lie before file position `at`. */
  function Done(at: nat, offset: nat, size: nat): nat {
    if at <= offset then 0 else if at - offset < size then at - offset else size
  }

  /** Where in the sector at `secStart` a transfer begins, and how many bytes it puts there. */
  function PartFrom(secStart: nat, offset: nat): nat { if offset > secStart then offset - secStart else 0 }

  function PartLen(secStart: nat, offset: nat, size: nat, done: nat): int {
    var room := 512 - PartFrom(secStart, offset);
    if room > size - done then size - done else room
  }

  /** Within the reached sectors the copy is not shortened by what lies beyond them. */
  lemma PartReached(secStart: nat, offset: nat, size: nat)
    requires secStart % 512 == 0 && 0 < Reached(offset, size) && offset < secStart + 512
    requires secStart < offset + Reached(offset, size)
    ensures var n := Reached(offset, size);
            var done := Done(secStart, offset, n);
            PartLen(secStart, offset, size, done) == PartLen(secStart, offset, n, done)
  {
    assert secStart < LAST_SECTOR ==> secStart + 512 <= LAST_SECTOR;
  }

  /** Copying that part into the sector is the overlay, and completes the transfer up to the sector's end. */
  lemma PartIsOverlay(was: Sector, secStart: nat, offset: nat, data: seq<byte>)
    requires offset < secStart + 512 && secStart < offset + |data|
    ensures var from := PartFrom(secStart, offset);
            var done := Done(secStart, offset, |data|);
            var len := PartLen(secStart, offset, |data|, done);
            && 0 <= len && from + len <= 512 && done + len == Done(secStart + 512, offset, |data|) <= |data|
            && Splice(was, from, data[done..done + len]) == Overlay(was, secStart, offset, data)
  {
    var from := PartFrom(secStart, offset);
    var done := Done(secStart, offset, |data|);
    var len := PartLen(secStart, offset, |data|, done);
    forall b | 0 <= b < 512
      ensures Splice(was, from, data[done..done + len])[b] == Overlay(was, secStart, offset, data)[b]
    {
    }
  }

  /** Read-modify-write of the touched run of sectors in one cluster. */
  method RewriteCluster(vol: Volume, c: nat, pos: nat, offset: nat, data: seq<byte>, done0: nat)
    returns (found: bool, done: nat)
    requires vol.Valid() && vol.g.IsCluster(c)
    requires 0 < |data| && pos < offset + |data| && offset < pos + 512 * vol.g.spc
    requires pos % 512 == 0 && pos + 512 * vol.g.spc <= FOUR_GIB && offset + |data| < FOUR_GIB
    requires done0 == Done(pos, offset, Reached(offset, |data|))
    modifies vol.d, vol`v, vol`steps
    ensures vol.Valid() && SameOutside(old(vol.d.disk), vol.d.disk, vol.g)
    ensures DataOnly(old(vol.v), vol.v, [c]) && done == Done(pos + 512 * vol.g.spc, offset, Reached(offset, |data|))
    ensures !found ==> done == done0 == Reached(offset, |data|)
    ensures forall s :: 0 <= s < vol.g.spc ==>
      vol.v.data[c][s] == Overlay(old(vol.v).data[c][s], pos + 512 * s, offset, Cut(offset, data))
  {
    hide Volume.Valid, Overlay;
    ghost var v0 := vol.v;
    var first, last;
    found, first, last := Window(vol.g.spc, pos, offset, |data|);
    if !found {
      done := done0;
      OutsideRefl(vol.d.disk, vol.g);
      forall s | 0 <= s < vol.g.spc {
        OverlayOutside(v0.data[c][s], pos + 512 * s, offset, Cut(offset, data));
      }
      return;
    }
    var buf := ReadRun(vol, c, first, last + 1 - first);
    buf, done := Merged(buf, vol.g.spc, first, last, pos, offset, data, done0);
    WriteRun(vol, c, first, buf);
    forall s | 0 <= s < vol.g.spc
      ensures vol.v.data[c][s] == Overlay(v0.data[c][s], pos + 512 * s, offset, Cut(offset, data))
    {
      if s < first || last < s {
        OverlayOutside(v0.data[c][s], pos + 512 * s, offset, Cut(offset, data));
      } else {
        assert vol.v.data[c][s] == buf[s - first] && first + (s - first) == s;
      }
    }
  }

  /** blk_read of `n` sectors of a cluster from sector `first` on. */
  method ReadRun(vol: Volume, c: nat, first: nat, n: nat) returns (buf: seq<Sector>)
    requires vol.Valid() && vol.g.IsCluster(c) && first + n <= vol.g.spc
    ensures buf == vol.v.data[c][first..first + n]
  {
    hide Volume.Valid;
    buf := [];
    for k := 0 to n
      invariant |buf| == k && forall j :: 0 <= j < k ==> buf[j] == vol.v.data[c][first + j]
    {
      var sector := vol.ReadSector(c, first + k);
      buf := buf + [sector];
    }
  }

  /** blk_write of the buffer to a cluster from sector `first` on. */
  method WriteRun(vol: Volume, c: nat, first: nat, buf: seq<Sector>)
    requires vol.Valid() && vol.g.IsCluster(c) && first + |buf| <= vol.g.spc
    modifies vol.d, vol`v, vol`steps
    ensures vol.Valid() && SameOutside(old(vol.d.disk), vol.d.disk, vol.g)
    ensures DataOnly(old(vol.v), vol.v, [c])
    ensures forall s :: 0 <= s < vol.g.spc ==>
      vol.v.data[c][s] == if first <= s < first + |buf| then buf[s - first] else old(vol.v).data[c][s]
  {
    hide Volume.Valid;
    ghost var v0 := vol.v;
    for k := 0 to |buf|
      invariant vol.Valid() && SameOutside(old(vol.d.disk), vol.d.disk, vol.g)
      invariant DataOnly(v0, vol.v, [c])
      invariant forall s :: 0 <= s < vol.g.spc ==>
        vol.v.data[c][s] == if first <= s < first + k then buf[s - first] else v0.data[c][s]
    {
      vol.WriteSector(c, first + k, buf[k]);
      assert DataOnly(v0, vol.v, [c]);
    }
  }

  /** Nothing of the transfer lies in the cluster before the window or after it. */
  lemma DoneEnds(spc: nat, first: nat, last: nat, pos: nat, offset: nat, size: nat)
    requires IsWindow(spc, pos, offset, size, first, last)
    ensures var n := Reached(offset, size);
            && Done(pos, offset, n) == Done(pos + 512 * first, offset, n)
            && Done(pos + 512 * (last + 1), offset, n) == Done(pos + 512 * spc, offset, n)
  {
  }

  /** The copy loop over the buffered sectors first..last. */
  method Merged(buf0: seq<Sector>, spc: nat, first: nat, last: nat, pos: nat, offset: nat, data: seq<byte>, done0: nat)
    returns (buf: seq<Sector>, done: nat)
    requires pos % 512 == 0 && IsWindow(spc, pos, offset, |data|, first, last) && |buf0| == last + 1 - first
    requires done0 == Done(pos, offset, Reached(offset, |data|))
    ensures |buf| == |buf0| && done == Done(pos + 512 * spc, offset, Reached(offset, |data|))
    ensures forall j :: 0 <= j < |buf0| ==>
      buf[j] == Overlay(buf0[j], pos + 512 * (first + j), offset, Cut(offset, data))
  {
    hide PartFrom, PartLen, Overlay, Done, Reached;
    buf, done := buf0, done0;
    ghost var cut := Cut(offset, data);
    DoneEnds(spc, first, last, pos, offset, |data|);
    for j := 0 to |buf0|
      invariant |buf| == |buf0| && done == Done(pos + 512 * (first + j), offset, |cut|)
      invariant forall k :: 0 <= k < j ==> buf[k] == Overlay(buf0[k], pos + 512 * (first + k), offset, cut)
      invariant forall k :: j <= k < |buf0| ==> buf[k] == buf0[k]
    {
      var secStart := pos + 512 * (first + j);
      PartReached(secStart, offset, |data|);
      PartIsOverlay(buf[j], secStart, offset, cut);
      var from := PartFrom(secStart, offset);
      var len := PartLen(secStart, offset, |data|, done);
      assert cut[done..done + len] == data[done..done + len];
      var sector: Sector := Splice(buf[j], from, data[done..done + len]);
      buf := buf[j := sector];
      done := done + len;
    }
  }
}
