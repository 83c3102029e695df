/** A page as the processor addresses it: 512 little-endian words, read and written byte by byte. */
module PageBytes {
  import opened Words
  import opened Products
  import opened Paging

  /** Byte `j` of a word, the lowest first. */
  function ByteOf(w: nat, j: nat): (b: nat)
    ensures b < 256
  {
    if j == 0 then w % 256 else ByteOf(w / 256, j - 1)
  }

  function WordOf(bs: seq<byte>): nat { if bs == [] then 0 else bs[0] + 256 * WordOf(bs[1..]) }

  lemma {:induction false} ByteOfWord(bs: seq<byte>, j: nat)
    requires j < |bs|
    ensures ByteOf(WordOf(bs), j) == bs[j]
  {
    RowIndex(WordOf(bs[1..]), bs[0], 256);
    if j > 0 {
      ByteOfWord(bs[1..], j - 1);
    }
  }

  lemma {:induction false} ByteOfZero(j: nat)
    ensures ByteOf(0, j) == 0
  {
    if j > 0 {
      ByteOfZero(j - 1);
    }
  }

  type Page = row: seq<nat> | |row| == ENTRIES witness ZeroPage()

  /** The byte at offset `o` of a page. */
  function PageByte(row: Page, o: nat): (b: nat)
    requires o < PAGE
    ensures b < 256
  {
    ByteOf(row[o / 8], o % 8)
  }

  lemma ZeroByte(o: nat)
    requires o < PAGE
    ensures PageByte(ZeroPage(), o) == 0
  {
    ByteOfZero(o % 8);
  }

  /** Offset `o` of a page after `data` was stored from `off` on. */
  function Stored(row: Page, off: nat, data: seq<byte>, o: nat): byte
    requires o < PAGE
  {
    if off <= o < off + |data| then data[o - off] else PageByte(row, o)
  }

  function Eight(row: Page, off: nat, data: seq<byte>, i: nat): (bs: seq<byte>)
    requires i < ENTRIES
    ensures |bs| == 8 && forall j :: 0 <= j < 8 ==> bs[j] == Stored(row, off, data, 8 * i + j)
  {
    [Stored(row, off, data, 8 * i), Stored(row, off, data, 8 * i + 1), Stored(row, off, data, 8 * i + 2),
     Stored(row, off, data, 8 * i + 3), Stored(row, off, data, 8 * i + 4), Stored(row, off, data, 8 * i + 5),
     Stored(row, off, data, 8 * i + 6), Stored(row, off, data, 8 * i + 7)]
  }

  /** `data` stored from offset `off` on. */
  function Fill(row: Page, off: nat, data: seq<byte>): Page {
    seq(ENTRIES, i requires 0 <= i < ENTRIES => WordOf(Eight(row, off, data, i)))
  }

  /** The stored bytes read back, and every other byte is as it was. */
  lemma FillByte(row: Page, off: nat, data: seq<byte>, o: nat)
    requires o < PAGE
    ensures PageByte(Fill(row, off, data), o)
         == if off <= o < off + |data| then data[o - off] else PageByte(row, o)
  {
    ByteOfWord(Eight(row, off, data, o / 8), o % 8);
  }

  /** The eight bytes of a word. */
  function WordBytes(w: nat): (bs: seq<byte>)
    ensures |bs| == 8
  {
    Bytes(w, 8)
  }

  function Bytes(w: nat, n: nat): (bs: seq<byte>)
    ensures |bs| == n
  {
    if n == 0 then [] else [w % 256] + Bytes(w / 256, n - 1)
  }

  function Below(w: nat, n: nat): bool { if n == 0 then w == 0 else Below(w / 256, n - 1) }

  lemma {:induction false} BytesBack(w: nat, n: nat)
    requires Below(w, n)
    ensures WordOf(Bytes(w, n)) == w
  {
    if n > 0 {
      BytesBack(w / 256, n - 1);
      assert Bytes(w, n)[1..] == Bytes(w / 256, n - 1);
    }
  }

  /** A word is its eight bytes. */
  lemma WordBack(w: nat)
    requires w < TWO64
    ensures WordOf(WordBytes(w)) == w
  {
    var w1 := w / 256;
    var w2 := w1 / 256;
    var w3 := w2 / 256;
    var w4 := w3 / 256;
    var w5 := w4 / 256;
    var w6 := w5 / 256;
    var w7 := w6 / 256;
    assert w7 / 256 == 0;
    assert Below(w7, 1) && Below(w6, 2) && Below(w5, 3) && Below(w4, 4);
    assert Below(w3, 5) && Below(w2, 6) && Below(w1, 7);
    BytesBack(w, 8);
  }
}
