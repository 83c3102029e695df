/** Cluster chains over the low-28-bit FAT view. */
module Fat32Chains {
  import opened BlockStore
  import opened Fat32Table

  /** `ch` is what following the FAT from `ch[0]` visits: in range, linked, ended by an end-of-chain mark. */
  ghost predicate IsChain(fat: seq<nat>, ch: seq<nat>) {
    && |ch| > 0
    && (forall i :: 0 <= i < |ch| ==> 2 <= ch[i] < |fat|)
    && (forall i :: 0 <= i < |ch| - 1 ==> fat[ch[i]] == ch[i + 1])
    && fat[ch[|ch| - 1]] >= EOC
  }

  ghost predicate Distinct(ch: seq<nat>) {
    forall i, j :: 0 <= i < j < |ch| ==> ch[i] != ch[j]
  }

  predicate Ascending(ch: seq<nat>) {
    forall i :: 0 <= i < |ch| - 1 ==> ch[i + 1] == ch[i] + 1
  }

  ghost predicate Apart(a: seq<nat>, b: seq<nat>) {
    forall i, j :: 0 <= i < |a| && 0 <= j < |b| ==> a[i] != b[j]
  }

  /** The end-of-chain mark sits on the last cluster and nowhere else. */
  lemma ChainEnd(fat: seq<nat>, ch: seq<nat>, i: nat)
    requires IsChain(fat, ch) && |fat| <= EOC && i < |ch|
    ensures fat[ch[i]] >= EOC <==> i == |ch| - 1
    ensures i < |ch| - 1 ==> fat[ch[i]] == ch[i + 1]
  {
  }

  /** Two chains that meet end together: following the FAT is deterministic. */
  lemma {:induction false} ChainsMeet(fat: seq<nat>, a: seq<nat>, i: nat, b: seq<nat>, j: nat)
    requires IsChain(fat, a) && IsChain(fat, b) && |fat| <= EOC
    requires i < |a| && j < |b| && a[i] == b[j]
    ensures a[i..] == b[j..]
    decreases |a| - i
  {
    if i == |a| - 1 {
      ChainEnd(fat, b, j);
      assert a[i..] == [a[i]] && b[j..] == [b[j]];
    } else {
      ChainEnd(fat, a, i);
      ChainEnd(fat, b, j);
      ChainsMeet(fat, a, i + 1, b, j + 1);
      assert a[i..] == [a[i]] + a[i + 1..] && b[j..] == [b[j]] + b[j + 1..];
    }
  }

  /** A chain that ends never visits a cluster twice. */
  lemma ChainAcyclic(fat: seq<nat>, ch: seq<nat>)
    requires IsChain(fat, ch) && |fat| <= EOC
    ensures Distinct(ch)
  {
    forall i, j | 0 <= i < j < |ch| ensures ch[i] != ch[j] {
      if ch[i] == ch[j] {
        ChainsMeet(fat, ch, i, ch, j);
      }
    }
  }

  /** A first cluster determines its chain. */
  lemma ChainUnique(fat: seq<nat>, a: seq<nat>, b: seq<nat>)
    requires IsChain(fat, a) && IsChain(fat, b) && |fat| <= EOC && a[0] == b[0]
    ensures a == b
  {
    ChainsMeet(fat, a, 0, b, 0);
    assert a[0..] == a && b[0..] == b;
  }

  /** Linking the tail of `a` to the head of `b` concatenates the two chains. */
  lemma ChainJoin(fat: seq<nat>, a: seq<nat>, b: seq<nat>)
    requires IsChain(fat, a) && IsChain(fat, b) && |fat| <= EOC && Apart(a, b)
    ensures IsChain(fat[a[|a| - 1] := b[0]], a + b)
  {
    ChainAcyclic(fat, a);
    var fat' := fat[a[|a| - 1] := b[0]];
    var ch := a + b;
    forall i | 0 <= i < |ch| - 1 ensures fat'[ch[i]] == ch[i + 1] {
      if i < |a| - 1 {
        assert ch[i] == a[i] && ch[i] != a[|a| - 1];
      } else if i >= |a| {
        assert ch[i] == b[i - |a|];
      }
    }
    assert ch[|ch| - 1] == b[|b| - 1];
  }

  /** The clusters first, first+1, ..., first+n-1. */
  function Span(first: nat, n: nat): (ch: seq<nat>)
    ensures |ch| == n && Ascending(ch)
    ensures forall i :: 0 <= i < n ==> ch[i] == first + i
  {
    seq(n, i requires 0 <= i => first + i)
  }

  /** The FAT with the first `k` entries of an n-cluster run at `first` chained together. */
  ghost function Linked(fat: seq<nat>, first: nat, n: nat, k: nat): (r: seq<nat>)
    requires k <= n && first + n <= |fat|
    ensures |r| == |fat|
  {
    seq(|fat|, c requires 0 <= c < |fat| => if first <= c < first + k then (if c + 1 < first + n then c + 1 else EOC)
      else fat[c])
  }

  lemma LinkedIsChain(fat: seq<nat>, first: nat, n: nat)
    requires 2 <= first && n > 0 && first + n <= |fat|
    ensures IsChain(Linked(fat, first, n, n), Span(first, n))
  {
  }

  /** `a..a+n` are free clusters. */
  ghost predicate FreeRun(fat: seq<nat>, a: nat, n: nat) {
    2 <= a && a + n <= |fat| && forall c :: a <= c < a + n ==> fat[c] == 0
  }

  /** Every cluster in use in `v0` is untouched in `v`: same FAT entry, same contents. */
  ghost predicate Grows(v0: View, v: View) {
    && |v.fat| == |v0.fat| && |v.data| == |v0.data| == |v0.fat|
    && (forall c :: 0 <= c < |v0.fat| && v0.fat[c] != 0 ==> v.fat[c] == v0.fat[c])
    && (forall c :: 0 <= c < |v0.fat| && v0.fat[c] != 0 ==> v.data[c] == v0.data[c])
  }
}
