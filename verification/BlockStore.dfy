/** Bytes, 512-byte sectors and little-endian fields: the medium under both file systems. */
module BlockStore {
  import opened Words

  const SECTOR_SIZE: nat := 512

  type Sector = s: seq<byte> | |s| == SECTOR_SIZE witness seq(SECTOR_SIZE, _ => 0)

  function ZeroSector(): Sector { seq(SECTOR_SIZE, _ => 0) }

  /** A sector address: device kind, device index, logical block number. */
  datatype Addr = Addr(kind: nat, drive: nat, lba: nat)

  type Disk = map<Addr, Sector>

  /** The little-endian 16-bit field at byte offset `off`. */
  function Half(s: seq<byte>, off: nat): (h: nat)
    requires off + 2 <= |s|
    ensures h < 0x1_0000
  {
    s[off] as int + 0x100 * (s[off + 1] as int)
  }

  /** The little-endian 32-bit field at byte offset `off`. */
  function Word(s: seq<byte>, off: nat): (w: nat)
    requires off + 4 <= |s|
    ensures w < 0x1_0000_0000
  {
    s[off] as int + 0x100 * (s[off + 1] as int) + 0x1_0000 * (s[off + 2] as int) + 0x100_0000 * (s[off + 3] as int)
  }

  function PutHalf(s: seq<byte>, off: nat, h: nat): (r: seq<byte>)
    requires off + 2 <= |s| && h < 0x1_0000
    ensures |r| == |s| && Half(r, off) == h
    ensures forall k :: 0 <= k < |s| && (k < off || off + 2 <= k) ==> r[k] == s[k]
  {
    s[off := h % 0x100][off + 1 := h / 0x100]
  }

  function PutWord(s: seq<byte>, off: nat, w: nat): (r: seq<byte>)
    requires off + 4 <= |s| && w < 0x1_0000_0000
    ensures |r| == |s| && Word(r, off) == w
    ensures forall k :: 0 <= k < |s| && (k < off || off + 4 <= k) ==> r[k] == s[k]
  {
    WordBytes(w);
    var b0, b1, b2, b3: byte := w % 0x100, w / 0x100 % 0x100, w / 0x1_0000 % 0x100, w / 0x100_0000;
    s[..off] + [b0, b1, b2, b3] + s[off + 4..]
  }

  lemma WordBytes(w: nat)
    requires w < 0x1_0000_0000
    ensures w == w % 0x100 + 0x100 * (w / 0x100 % 0x100) + 0x1_0000 * (w / 0x1_0000 % 0x100)
                 + 0x100_0000 * (w / 0x100_0000)
    ensures 0 <= w / 0x100_0000 < 0x100
  {
  }

  /** Writing back what a field holds changes nothing. */
  lemma WordSame(s: seq<byte>, off: nat)
    requires off + 4 <= |s|
    ensures PutWord(s, off, Word(s, off)) == s
  {
    var w := Word(s, off);
    var r := PutWord(s, off, w);
    FieldBytes(s[off], s[off + 1], s[off + 2], s[off + 3]);
    FieldBytes(r[off], r[off + 1], r[off + 2], r[off + 3]);
  }

  lemma FieldBytes(b0: byte, b1: byte, b2: byte, b3: byte)
    ensures var w := b0 as int + 0x100 * (b1 as int) + 0x1_0000 * (b2 as int) + 0x100_0000 * (b3 as int);
            b0 == w % 0x100 && b1 == w / 0x100 % 0x100 && b2 == w / 0x1_0000 % 0x100 && b3 == w / 0x100_0000
  {
    var w := b0 as int + 0x100 * (b1 as int) + 0x1_0000 * (b2 as int) + 0x100_0000 * (b3 as int);
    assert w / 0x100 == b1 as int + 0x100 * (b2 as int) + 0x1_0000 * (b3 as int);
    assert w / 0x1_0000 == b2 as int + 0x100 * (b3 as int);
  }

  lemma HalfSame(s: seq<byte>, off: nat)
    requires off + 2 <= |s|
    ensures PutHalf(s, off, Half(s, off)) == s
  {
    var h := Half(s, off);
    assert h % 0x100 == s[off] && h / 0x100 == s[off + 1];
  }

  /** `s` with the bytes from `at` on overwritten by `piece`. */
  function Splice<T>(s: seq<T>, at: nat, piece: seq<T>): (r: seq<T>)
    requires at + |piece| <= |s|
    ensures |r| == |s|
    ensures forall k :: 0 <= k < |s| ==> r[k] == if at <= k < at + |piece| then piece[k - at] else s[k]
  {
    s[..at] + piece + s[at + |piece|..]
  }

  /** The byte string after `data` is written at `offset`, at most at its end. */
  function Written(was: seq<byte>, offset: nat, data: seq<byte>): (r: seq<byte>)
    requires offset <= |was|
    ensures |r| == if offset + |data| > |was| then offset + |data| else |was|
    ensures forall p :: 0 <= p < |r| ==> r[p] == if offset <= p < offset + |data| then data[p - offset] else was[p]
  {
    was[..offset] + data + (if offset + |data| < |was| then was[offset + |data|..] else [])
  }
}
