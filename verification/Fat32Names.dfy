/** 8.3 names: the on-disk record, its printable form, and when one leads back to the other. */
module Fat32Names {
  import opened Words
  import opened BlockStore

  datatype Option<T> = None | Some(value: T)

  const DOT: byte := 46
  const SPACE: byte := 32

  function Upper(c: byte): byte { if 97 <= c <= 122 then c - 32 else c }

  function UpperAll(s: seq<byte>): (r: seq<byte>)
    ensures |r| == |s|
  {
    seq(|s|, i requires 0 <= i < |s| => Upper(s[i]))
  }

  /** `s` up to its first `stop`. */
  function Until(s: seq<byte>, stop: byte): (r: seq<byte>)
    ensures r <= s && stop !in r
    ensures |r| < |s| ==> s[|r|] == stop
  {
    if s == [] || s[0] == stop then [] else [s[0]] + Until(s[1..], stop)
  }

  /** `s` padded with spaces to `n` bytes. */
  function Padded(s: seq<byte>, n: nat): (r: seq<byte>)
    requires |s| <= n
    ensures |r| == n
  {
    s + seq(n - |s|, _ => SPACE)
  }

  /** fat32_parse_83: "HELLO.TXT" to the 11-byte record, or nothing if it does not fit. */
  function Parsed(name: seq<byte>): (r: Option<seq<byte>>)
    ensures r.Some? ==> |r.value| == 11
  {
    var base := Until(name, DOT);
    if base == [] || |base| > 8 then None
    else if |base| == |name| then Some(Padded(UpperAll(base), 8) + Padded([], 3))
    else
      var ext := name[|base| + 1..];
      if DOT in ext || |ext| > 3 then None else Some(Padded(UpperAll(base), 8) + Padded(UpperAll(ext), 3))
  }

  /** fat32_format_83: the record's printable form. */
  function Formatted(raw: seq<byte>): seq<byte>
    requires |raw| == 11
  {
    Until(raw[..8], SPACE) + (if raw[8] == SPACE then [] else [DOT] + Until(raw[8..], SPACE))
  }

  /** fat32_strcasecmp(a, b) == 0 */
  predicate SameName(a: seq<byte>, b: seq<byte>) { UpperAll(a) == UpperAll(b) }

  /** The two loops of fat32_parse_83. */
  method Parse83(name: seq<byte>) returns (r: Option<seq<byte>>)
    ensures r == Parsed(name)
  {
    var base: seq<byte> := [];
    var i := 0;
    ghost var b := Until(name, DOT);
    UntilIs(name, DOT);
    while i < |name| && name[i] != DOT
      invariant 0 <= i <= |b| && i <= 8 && base == UpperAll(name[..i])
    {
      if i >= 8 {
        return None;
      }
      base := base + [Upper(name[i])];
      i := i + 1;
    }
    assert i == |b| && name[..i] == b;
    if i == 0 {
      return None;
    }
    var ext: seq<byte> := [];
    if i < |name| {
      i := i + 1;
      var k := 0;
      ghost var e := name[|b| + 1..];
      while i < |name|
        invariant |b| + 1 <= i <= |name| && k == i - |b| - 1 <= 3 && ext == UpperAll(e[..k]) && DOT !in e[..k]
      {
        if name[i] == DOT || k >= 3 {
          assert e[k] == name[i];
          return None;
        }
        ext := ext + [Upper(name[i])];
        assert e[..k + 1] == e[..k] + [name[i]];
        k := k + 1;
        i := i + 1;
      }
      assert e[..k] == e;
    }
    r := Some(Padded(base, 8) + Padded(ext, 3));
  }

  lemma {:induction false} UntilIs(s: seq<byte>, stop: byte)
    ensures forall i :: 0 <= i < |s| && s[i] == stop ==> |Until(s, stop)| <= i
  {
    if s != [] && s[0] != stop {
      UntilIs(s[1..], stop);
      assert forall i :: 0 < i < |s| ==> s[i] == s[1..][i - 1];
    }
  }

  /** A prefix without `stop` and a following `stop`, or nothing, determine Until. */
  lemma {:induction false} UntilPad(s: seq<byte>, n: nat)
    requires |s| <= n
    ensures Until(Padded(s, n), SPACE) == Until(s, SPACE)
  {
    if s == [] {
      assert n > 0 ==> Padded(s, n)[0] == SPACE;
    } else if s[0] != SPACE {
      UntilPad(s[1..], n - 1);
      assert Padded(s, n)[1..] == Padded(s[1..], n - 1);
    }
  }

  lemma {:induction false} UntilAll(s: seq<byte>, stop: byte)
    ensures Until(s, stop) == s <==> stop !in s
  {
    if s != [] && s[0] != stop {
      UntilAll(s[1..], stop);
      assert s == [s[0]] + s[1..];
    }
  }

  /** A name that parses comes back, up to case, from its own record exactly when it holds no space and does not end
      in a dot. */
  lemma RoundTrip(name: seq<byte>)
    requires Parsed(name).Some?
    ensures SameName(Formatted(Parsed(name).value), name) <==> SPACE !in name && name[|name| - 1] != DOT
  {
    var base := Until(name, DOT);
    var raw := Parsed(name).value;
    assert raw[..8] == Padded(UpperAll(base), 8);
    FieldBack(base, 8);
    if |base| == |name| {
      assert base == name && raw[8] == SPACE;
      Whole(name, Formatted(raw));
    } else {
      var ext := name[|base| + 1..];
      assert raw[8..] == Padded(UpperAll(ext), 3);
      FieldBack(ext, 3);
      assert name == base + [DOT] + ext;
      TwoParts(base, ext, Formatted(raw));
    }
  }

  /** Reading a padded field back up to its first space loses bytes exactly when the field holds a space. */
  lemma FieldBack(s: seq<byte>, n: nat)
    requires |s| <= n
    ensures var f := Until(Padded(UpperAll(s), n), SPACE);
            (SPACE !in s ==> f == UpperAll(s)) && (SPACE in s ==> |f| < |s|)
    ensures n > 0 ==> (Padded(UpperAll(s), n)[0] == SPACE <==> s == [] || s[0] == SPACE)
  {
    UpperSpace(s);
    UntilPad(UpperAll(s), n);
    UntilAll(UpperAll(s), SPACE);
  }

  lemma Whole(name: seq<byte>, back: seq<byte>)
    requires name != [] && DOT !in name && |back| <= |name|
    requires (SPACE !in name ==> back == UpperAll(name)) && (SPACE in name ==> |back| < |name|)
    ensures SameName(back, name) <==> SPACE !in name && name[|name| - 1] != DOT
  {
    UpperSpace(name);
    assert SPACE in name ==> |UpperAll(back)| != |UpperAll(name)|;
  }

  lemma TwoParts(base: seq<byte>, ext: seq<byte>, back: seq<byte>)
    requires DOT !in ext
    requires ext == [] || SPACE in base || SPACE in ext ==> |back| < |base| + 1 + |ext|
    requires ext != [] && SPACE !in base && SPACE !in ext ==> back == UpperAll(base) + [DOT] + UpperAll(ext)
    ensures var name := base + [DOT] + ext;
            SameName(back, name) <==> SPACE !in name && name[|name| - 1] != DOT
  {
    var name := base + [DOT] + ext;
    UpperSpace(name);
    if ext == [] || SPACE in base || SPACE in ext {
      assert |UpperAll(back)| != |UpperAll(name)|;
    } else {
      assert UpperAll(name) == back;
    }
  }

  /** Not every name that parses does: "A B" is stored as the record of "A". */
  lemma SpaceIsLost()
    ensures Parsed([65, 32, 66]).Some? && !SameName(Formatted(Parsed([65, 32, 66]).value), [65, 32, 66])
  {
    var name: seq<byte> := [65, 32, 66];
    UntilAll(name, DOT);
    assert name[1] == SPACE;
    RoundTrip(name);
  }

  lemma UpperSpace(s: seq<byte>)
    ensures SPACE in UpperAll(s) <==> SPACE in s
    ensures UpperAll(UpperAll(s)) == UpperAll(s)
  {
    if SPACE in s {
      var i :| 0 <= i < |s| && s[i] == SPACE;
      assert UpperAll(s)[i] == SPACE;
    }
  }
}
