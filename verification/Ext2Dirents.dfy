/** Directory blocks: variable-length records that tile the block, and the four ways they are rewritten. */
module Ext2Dirents {
  import opened Words
  import opened BlockStore

  /** A name, its inode number and its file type. */
  datatype Entry = Entry(name: seq<byte>, ino: nat, kind: byte)

  function Align4(x: nat): nat { (x + 3) / 4 * 4 }

  /** Bytes a record with a name of `n` bytes needs. */
  function Need(n: nat): (r: nat)
    ensures r % 4 == 0 && 8 + n <= r < 12 + n
  {
    Align4(8 + n)
  }

  // ----- the record at byte `off`

  function Ino(b: seq<byte>, off: nat): nat
    requires off + 8 <= |b|
  {
    Word(b, off)
  }

  function RecLen(b: seq<byte>, off: nat): nat
    requires off + 8 <= |b|
  {
    Half(b, off + 4)
  }

  function NameLen(b: seq<byte>, off: nat): nat
    requires off + 8 <= |b|
  {
    b[off + 6] as int
  }

  /** A whole record: a multiple of four bytes inside the block, with room for its name if it is live. */
  predicate RecordAt(b: seq<byte>, off: nat) {
    && off + 8 <= |b| && RecLen(b, off) % 4 == 0 && 8 <= RecLen(b, off) && off + RecLen(b, off) <= |b|
    && (Ino(b, off) != 0 ==> Need(NameLen(b, off)) <= RecLen(b, off))
  }

  function EntryAt(b: seq<byte>, off: nat): Entry
    requires RecordAt(b, off) && Ino(b, off) != 0
  {
    Entry(b[off + 8..off + 8 + NameLen(b, off)], Ino(b, off), b[off + 7])
  }

  /** The live entry of one record, if it is live. */
  function Here(b: seq<byte>, off: nat): seq<Entry>
    requires RecordAt(b, off)
  {
    if Ino(b, off) == 0 then [] else [EntryAt(b, off)]
  }

  /** Records lead from `off` exactly to `end`. */
  ghost predicate Path(b: seq<byte>, off: nat, end: nat)
    decreases end - off
  {
    off == end || (off < end && RecordAt(b, off) && Path(b, off + RecLen(b, off), end))
  }

  /** The live entries between two record boundaries, in order. */
  ghost function Between(b: seq<byte>, off: nat, end: nat): seq<Entry>
    requires Path(b, off, end)
    decreases end - off
  {
    if off == end then [] else Here(b, off) + Between(b, off + RecLen(b, off), end)
  }

  /** The block is tiled exactly by records. */
  ghost predicate Tiled(b: seq<byte>) { Path(b, 0, |b|) }

  ghost function Entries(b: seq<byte>): seq<Entry>
    requires Tiled(b)
  {
    Between(b, 0, |b|)
  }

  // ----- splitting and joining paths

  lemma Assoc<T>(x: seq<T>, y: seq<T>, z: seq<T>)
    ensures x + (y + z) == x + y + z
  {
  }

  lemma {:induction false} PathJoins(b: seq<byte>, off: nat, mid: nat, end: nat)
    requires Path(b, off, mid) && Path(b, mid, end)
    ensures Path(b, off, end) && Between(b, off, end) == Between(b, off, mid) + Between(b, mid, end)
    decreases mid - off
  {
    hide Here, RecLen, Ino, NameLen, Need;
    PathBounds(b, mid, end);
    if off < mid {
      var next := off + RecLen(b, off);
      PathJoins(b, next, mid, end);
      Assoc(Here(b, off), Between(b, next, mid), Between(b, mid, end));
    } else {
      assert [] + Between(b, mid, end) == Between(b, mid, end);
    }
  }

  lemma {:induction false} PathBounds(b: seq<byte>, off: nat, end: nat)
    requires Path(b, off, end)
    ensures off <= end && (off < end ==> end <= |b|)
    decreases end - off
  {
    if off < end {
      PathBounds(b, off + RecLen(b, off), end);
    }
  }

  /** A path that leads on from a record boundary. */
  lemma {:induction false} PathSplits(b: seq<byte>, off: nat, mid: nat, end: nat)
    requires Path(b, off, mid) && Path(b, off, end) && mid <= end
    ensures Path(b, mid, end) && Between(b, off, end) == Between(b, off, mid) + Between(b, mid, end)
    decreases mid - off
  {
    hide Here, RecLen, Ino, NameLen, Need;
    if off < mid {
      var next := off + RecLen(b, off);
      PathSplits(b, next, mid, end);
      Assoc(Here(b, off), Between(b, next, mid), Between(b, mid, end));
    } else {
      assert [] + Between(b, mid, end) == Between(b, mid, end);
    }
  }

  predicate Agree(b: seq<byte>, b': seq<byte>, lo: nat, hi: nat) {
    |b'| == |b| && hi <= |b| && forall k :: lo <= k < hi ==> b'[k] == b[k]
  }

  /** Bytes that agree make the same records. */
  lemma {:induction false} SamePath(b: seq<byte>, b': seq<byte>, off: nat, end: nat)
    requires Path(b, off, end) && Agree(b, b', off, end)
    ensures Path(b', off, end) && Between(b', off, end) == Between(b, off, end)
    decreases end - off
  {
    if off < end {
      PathBounds(b, off + RecLen(b, off), end);
      SameRecord(b, b', off);
      SamePath(b, b', off + RecLen(b, off), end);
    }
  }

  lemma SameRecord(b: seq<byte>, b': seq<byte>, off: nat)
    requires RecordAt(b, off) && Agree(b, b', off, off + RecLen(b, off))
    ensures RecordAt(b', off) && RecLen(b', off) == RecLen(b, off) && Ino(b', off) == Ino(b, off)
    ensures Here(b', off) == Here(b, off)
  {
    if Ino(b, off) != 0 {
      var n := NameLen(b, off);
      assert b'[off + 8..off + 8 + n] == b[off + 8..off + 8 + n];
    }
  }

  /** `b'` is `b` with the entries between two record boundaries replaced. */
  ghost predicate Spliced(b: seq<byte>, b': seq<byte>, off: nat, next: nat, was: seq<Entry>, now: seq<Entry>)
    ensures Spliced(b, b', off, next, was, now) ==> Tiled(b) && Tiled(b') && |b'| == |b|
  {
    && |b'| == |b| && off <= next <= |b| && Tiled(b) && Tiled(b') && Path(b, 0, off) && Path(b', 0, off)
       && Path(b, next, |b|)
    && Entries(b) == Between(b, 0, off) + was + Between(b, next, |b|)
    && Entries(b') == Between(b, 0, off) + now + Between(b, next, |b|)
  }

  /** A tiled block, cut around one record. */
  lemma BeforeAndAfter(b: seq<byte>, off: nat, next: nat)
    requires Tiled(b) && Path(b, 0, off) && off < |b| && RecordAt(b, off) && next == off + RecLen(b, off)
    ensures next <= |b| && Path(b, next, |b|) && Entries(b) == Between(b, 0, off) + Here(b, off) + Between(b, next, |b|)
  {
    hide Here, Ino, NameLen, Need;
    PathSplits(b, 0, off, |b|);
    assert Between(b, off, |b|) == Here(b, off) + Between(b, next, |b|);
    Assoc(Between(b, 0, off), Here(b, off), Between(b, next, |b|));
  }

  /** Rewriting one record in place, as one record or several, leaves the rest of the block alone. */
  lemma Replaced(b: seq<byte>, b': seq<byte>, off: nat, next: nat, now: seq<Entry>)
    requires Tiled(b) && Path(b, 0, off) && off < |b| && RecordAt(b, off) && next == off + RecLen(b, off)
    requires Agree(b, b', 0, off) && Agree(b, b', next, |b|) && Path(b', off, next) && Between(b', off, next) == now
    ensures Spliced(b, b', off, next, Here(b, off), now)
  {
    hide Here, RecordAt, Path, Between;
    BeforeAndAfter(b, off, next);
    SamePath(b, b', 0, off);
    SamePath(b, b', next, |b|);
    PathJoins(b', 0, off, next);
    PathJoins(b', 0, next, |b'|);
  }

  // ----- the rewrites

  /** ino, name length, file type and name of a record, its length left alone. */
  function Filled(b: seq<byte>, off: nat, e: Entry): (r: seq<byte>)
    requires off + 8 + |e.name| <= |b| && e.ino < 0x1_0000_0000 && |e.name| < 256
    ensures |r| == |b| && Agree(b, r, 0, off) && Agree(b, r, off + 8 + |e.name|, |b|)
    ensures Word(r, off) == e.ino && Half(r, off + 4) == Half(b, off + 4) && r[off + 6] == |e.name|
    ensures r[off + 7] == e.kind
    ensures r[off + 8..off + 8 + |e.name|] == e.name
  {
    var b1 := PutWord(b, off, e.ino);
    var len: byte := |e.name|;
    var b2 := b1[off + 6 := len][off + 7 := e.kind];
    SameBytes(b1, b2, off);
    var r := Splice(b2, off + 8, e.name);
    SameBytes(b2, r, off);
    r
  }

  lemma SameBytes(b: seq<byte>, r: seq<byte>, off: nat)
    requires off + 6 <= |b| == |r| && forall k :: off <= k < off + 6 ==> r[k] == b[k]
    ensures Word(r, off) == Word(b, off) && Half(r, off + 4) == Half(b, off + 4)
  {
  }

  /** A record stretching to `next` that holds `e`. */
  lemma OneRecord(b: seq<byte>, off: nat, next: nat, e: Entry)
    requires off + 8 <= |b| && next <= |b| && off + RecLen(b, off) == next && RecLen(b, off) % 4 == 0
    requires e.ino != 0 && |e.name| < 256 && Need(|e.name|) <= RecLen(b, off)
    requires Ino(b, off) == e.ino && b[off + 6] == |e.name| && b[off + 7] == e.kind
    requires b[off + 8..off + 8 + |e.name|] == e.name
    ensures RecordAt(b, off) && EntryAt(b, off) == e && Path(b, off, next) && Between(b, off, next) == [e]
  {
    assert Path(b, next, next);
    assert Between(b, next, next) == [];
    assert Here(b, off) == [e];
  }

  /** Reusing a free record, or renaming a live one: whatever it held before, it now holds `e`. */
  lemma FilledOk(b: seq<byte>, off: nat, e: Entry, b': seq<byte>)
    requires Tiled(b) && Path(b, 0, off) && off < |b| && RecordAt(b, off)
    requires 0 < e.ino < 0x1_0000_0000 && |e.name| < 256 && Need(|e.name|) <= RecLen(b, off) && b' == Filled(b, off, e)
    ensures Spliced(b, b', off, off + RecLen(b, off), Here(b, off), [e])
    ensures RecordAt(b', off) && Ino(b', off) != 0 && EntryAt(b', off) == e
  {
    hide Path, Between, Filled;
    OneRecord(b', off, off + RecLen(b, off), e);
    Replaced(b, b', off, off + RecLen(b, off), [e]);
  }

  /** Name length and name of a live record rewritten, everything else left alone. */
  function Renamed(b: seq<byte>, off: nat, name: seq<byte>): (r: seq<byte>)
    requires off + 8 + |name| <= |b| && |name| < 256
    ensures |r| == |b| && Agree(b, r, 0, off) && Agree(b, r, off + 8 + |name|, |b|)
    ensures Word(r, off) == Word(b, off) && Half(r, off + 4) == Half(b, off + 4) && r[off + 6] == |name|
    ensures r[off + 7] == b[off + 7]
    ensures r[off + 8..off + 8 + |name|] == name
  {
    var len: byte := |name|;
    var b1 := b[off + 6 := len];
    SameBytes(b, b1, off);
    var r := Splice(b1, off + 8, name);
    SameBytes(b1, r, off);
    r
  }

  lemma RenamedOk(b: seq<byte>, off: nat, name: seq<byte>, b': seq<byte>)
    requires Tiled(b) && Path(b, 0, off) && off < |b| && RecordAt(b, off) && Ino(b, off) != 0
    requires |name| < 256 && Need(|name|) <= RecLen(b, off) && b' == Renamed(b, off, name)
    ensures Spliced(b, b', off, off + RecLen(b, off), Here(b, off), [Entry(name, Ino(b, off), b[off + 7])])
  {
    hide Path, Between, Renamed, Spliced;
    var e := Entry(name, Ino(b, off), b[off + 7]);
    OneRecord(b', off, off + RecLen(b, off), e);
    Replaced(b, b', off, off + RecLen(b, off), [e]);
  }

  /** Clearing the inode number turns the record into a free one of the same length. */
  lemma ClearedOk(b: seq<byte>, off: nat, b': seq<byte>)
    requires Tiled(b) && Path(b, 0, off) && off < |b| && RecordAt(b, off) && b' == PutWord(b, off, 0)
    ensures Spliced(b, b', off, off + RecLen(b, off), Here(b, off), [])
  {
    hide Path, Between;
    ClearedRecord(b, off, b');
    Replaced(b, b', off, off + RecLen(b, off), []);
  }

  lemma ClearedRecord(b: seq<byte>, off: nat, b': seq<byte>)
    requires RecordAt(b, off) && b' == PutWord(b, off, 0)
    ensures var next := off + RecLen(b, off); Path(b', off, next) && Between(b', off, next) == []
  {
    var next := off + RecLen(b, off);
    assert RecLen(b', off) == RecLen(b, off);
    assert Path(b', next, next) && Between(b', next, next) == [];
  }

  /** The live record at `off` has room behind it for `e`. */
  predicate HasSlack(b: seq<byte>, off: nat, e: Entry) {
    && RecordAt(b, off) && Ino(b, off) != 0 && 0 < e.ino < 0x1_0000_0000 && |e.name| < 256
    && Need(NameLen(b, off)) + Need(|e.name|) <= RecLen(b, off)
  }

  /** The slack behind a live record becomes a record of its own. */
  function Split(b: seq<byte>, off: nat, e: Entry): (r: seq<byte>)
    requires HasSlack(b, off, e)
    ensures |r| == |b|
  {
    var used := Need(NameLen(b, off));
    var b1 := PutHalf(b, off + 4, used);
    var b2 := PutHalf(b1, off + used + 4, RecLen(b, off) - used);
    Filled(b2, off + used, e)
  }

  lemma SplitBytes(b: seq<byte>, off: nat, e: Entry, r: seq<byte>)
    requires HasSlack(b, off, e) && r == Split(b, off, e)
    ensures Agree(b, r, 0, off) && Agree(b, r, off + RecLen(b, off), |b|)
    ensures var used := Need(NameLen(b, off));
      && Half(r, off + 4) == used
      && (forall k :: off <= k < off + used && k != off + 4 && k != off + 5 ==> r[k] == b[k])
      && Word(r, off + used) == e.ino && Half(r, off + used + 4) == RecLen(b, off) - used
      && r[off + used + 6] == |e.name| && r[off + used + 7] == e.kind
      && r[off + used + 8..off + used + 8 + |e.name|] == e.name
  {
    hide Filled, PutHalf, Word;
  }

  lemma SplitFirst(b: seq<byte>, r: seq<byte>, off: nat, used: nat)
    requires RecordAt(b, off) && Ino(b, off) != 0 && used == Need(NameLen(b, off)) <= RecLen(b, off) && |r| == |b|
    requires forall k :: off <= k < off + used && k != off + 4 && k != off + 5 ==> r[k] == b[k]
    requires Half(r, off + 4) == used
    ensures RecordAt(r, off) && Ino(r, off) == Ino(b, off) && RecLen(r, off) == used
    ensures EntryAt(r, off) == EntryAt(b, off)
  {
    var n := NameLen(b, off);
    assert NameLen(r, off) == n;
    assert r[off + 8..off + 8 + n] == b[off + 8..off + 8 + n];
  }

  /** Inserting into slack: the new entry comes right after the one whose record had it. */
  lemma SplitOk(b: seq<byte>, off: nat, e: Entry, b': seq<byte>)
    requires Tiled(b) && Path(b, 0, off) && off < |b| && HasSlack(b, off, e) && b' == Split(b, off, e)
    ensures Spliced(b, b', off, off + RecLen(b, off), [EntryAt(b, off)], [EntryAt(b, off), e])
    ensures RecordAt(b', off) && Ino(b', off) != 0 && EntryAt(b', off) == EntryAt(b, off)
  {
    hide Split, Path, Between, Spliced, RecordAt;
    SplitRecords(b, off, e, b');
    SlackIsLive(b, off, e);
    Replaced(b, b', off, off + RecLen(b, off), [EntryAt(b, off), e]);
  }

  lemma SlackIsLive(b: seq<byte>, off: nat, e: Entry)
    requires HasSlack(b, off, e)
    ensures RecordAt(b, off) && Ino(b, off) != 0 && Here(b, off) == [EntryAt(b, off)]
  {
  }

  lemma SplitRecords(b: seq<byte>, off: nat, e: Entry, b': seq<byte>)
    requires HasSlack(b, off, e) && b' == Split(b, off, e)
    ensures var next := off + RecLen(b, off);
      && Agree(b, b', 0, off) && Agree(b, b', next, |b|)
      && RecordAt(b', off) && Ino(b', off) != 0 && EntryAt(b', off) == EntryAt(b, off)
      && Path(b', off, next) && Between(b', off, next) == [EntryAt(b, off), e]
  {
    hide Split, Half, Word, Filled, Path, Between, Need, EntryAt;
    var used, next := Need(NameLen(b, off)), off + RecLen(b, off);
    SplitBytes(b, off, e, b');
    SplitFirst(b, b', off, used);
    OneRecord(b', off + used, next, e);
    TwoRecords(b', off, off + used, next, EntryAt(b, off), e);
  }

  lemma TwoRecords(b: seq<byte>, off: nat, mid: nat, next: nat, d: Entry, e: Entry)
    requires RecordAt(b, off) && Ino(b, off) != 0 && off + RecLen(b, off) == mid < next && EntryAt(b, off) == d
    requires Path(b, mid, next) && Between(b, mid, next) == [e]
    ensures Path(b, off, next) && Between(b, off, next) == [d, e]
  {
  }

  /** A new directory block: one record over its whole length. */
  function FreshBlock(bs: nat, e: Entry): (r: seq<byte>)
    requires 1024 <= bs <= 4096 && e.ino < 0x1_0000_0000 && |e.name| < 256
    ensures |r| == bs
  {
    Filled(PutHalf(seq(bs, _ => 0), 4, bs), 0, e)
  }

  lemma FreshOk(bs: nat, e: Entry)
    requires 1024 <= bs <= 4096 && bs % 4 == 0 && 0 < e.ino < 0x1_0000_0000 && |e.name| < 256
    ensures Tiled(FreshBlock(bs, e)) && Entries(FreshBlock(bs, e)) == [e]
  {
    var b := FreshBlock(bs, e);
    assert Word(b, 0) == e.ino && Half(b, 4) == bs;
    OneRecord(b, 0, bs, e);
  }

  // ----- records by position

  /** A live record starts at `off`. */
  ghost predicate LiveAt(b: seq<byte>, off: nat)
  {
    Path(b, 0, off) && off < |b| && RecordAt(b, off) && Ino(b, off) != 0
  }

  /** Rewriting the record at `off` leaves every other live record in its place. */
  lemma OthersStay(b: seq<byte>, b': seq<byte>, off: nat, k: nat)
    requires Tiled(b) && Path(b, 0, off) && off < |b| && RecordAt(b, off) && LiveAt(b, k) && k != off
    requires Agree(b, b', 0, off) && Agree(b, b', off + RecLen(b, off), |b|) && Path(b', off, off + RecLen(b, off))
    ensures LiveAt(b', k) && EntryAt(b', k) == EntryAt(b, k)
  {
    var next := off + RecLen(b, off);
    if k < off {
      PathSplits(b, 0, k, off);
      PathBounds(b, k + RecLen(b, k), off);
      SamePath(b, b', 0, k);
    } else {
      PathSplits(b, 0, off, k);
      PathBounds(b, next, k);
      PathSplits(b, 0, k, |b|);
      SamePath(b, b', 0, off);
      SamePath(b, b', next, k);
      PathJoins(b', 0, off, next);
      PathJoins(b', 0, next, k);
    }
    hide Path, Between;
    SameRecord(b, b', k);
  }

  /** One record further along. */
  lemma PathStep(b: seq<byte>, off: nat)
    requires Path(b, 0, off) && RecordAt(b, off)
    ensures var next := off + RecLen(b, off);
      Path(b, 0, next) && Between(b, 0, next) == Between(b, 0, off) + Here(b, off)
  {
    var next := off + RecLen(b, off);
    assert Path(b, next, next) && Between(b, next, next) == [];
    assert Path(b, off, next) && Between(b, off, next) == Here(b, off);
    PathJoins(b, 0, off, next);
  }

  /** Inside a tiled block, a record boundary short of the end starts a record. */
  lemma RecordHere(b: seq<byte>, off: nat)
    requires Tiled(b) && Path(b, 0, off) && off < |b|
    ensures RecordAt(b, off)
  {
    PathSplits(b, 0, off, |b|);
  }
}
