/** The branch-free 64-bit long division of libc/arith64.c, over integers with every shift and wrap written out. */
module Arith64 {
  import opened Words
  import opened Products

  function Pow2(n: nat): (p: nat)
    ensures p > 0
  {
    if n == 0 then 1 else 2 * Pow2(n - 1)
  }

  lemma {:induction false} Pow2Sum(m: nat, n: nat)
    ensures Pow2(m) * Pow2(n) == Pow2(m + n)
  {
    if m > 0 {
      Pow2Sum(m - 1, n);
      Regroup(2, Pow2(m - 1), Pow2(n));
    }
  }

  lemma {:induction false} Pow2Order(m: nat, n: nat)
    requires m < n
    ensures 2 * Pow2(m) <= Pow2(n)
  {
    if m + 1 < n {
      Pow2Order(m, n - 1);
    }
  }

  lemma Pow2At64()
    ensures Pow2(63) == TWO63 && Pow2(64) == TWO64
  {
    assert Pow2(8) == 256 && Pow2(7) == 128;
    assert Pow2(16) == 0x1_0000 && Pow2(15) == 0x8000 by { Pow2Sum(8, 8); Pow2Sum(8, 7); }
    assert Pow2(32) == TWO32 && Pow2(31) == TWO31 by { Pow2Sum(16, 16); Pow2Sum(16, 15); }
    Pow2Sum(32, 31);
    Pow2Sum(32, 32);
  }

  /** `n` is the number of zero bits above the top bit of `a`. */
  ghost predicate LeadingZeros(a: nat, n: nat) { n < 64 && Pow2(63 - n) <= a < 2 * Pow2(63 - n) }

  /** Shifting left by `b`, truncated to 64 bits. */
  function Shl(a: nat, b: nat): nat { a * Pow2(b) % TWO64 }

  lemma ProductOrder(a: nat, b: nat, n: nat)
    requires n > 0
    ensures a < b <==> a * n < b * n
  {
    if a < b {
      RowOrder(a, b, n);
    } else if b < a {
      RowOrder(b, a, n);
    }
  }

  /** What clz has shifted out so far is all zeros, and the top `2 * k` bits of what is left are not. */
  ghost predicate Normalising(a0: nat, a: nat, n: nat, k: nat) {
    && n + 2 * k <= 64 && 2 * k <= 64 && a == a0 * Pow2(n) && Pow2(64 - 2 * k) <= a < Pow2(64)
  }

  /** One halving step: shift `k` bits out if the top `k` bits are all zero. */
  lemma ClzStep(a0: nat, a: nat, n: nat, k: nat)
    requires Normalising(a0, a, n, k) && k > 0
    ensures a < Pow2(64 - k) ==> Shl(a, k) == a0 * Pow2(n + k) && Pow2(64 - k) <= Shl(a, k) < Pow2(64)
  {
    hide Pow2;
    if a < Pow2(64 - k) {
      Pow2At64();
      ShiftBelow(a, 64 - k, k);
      ShiftAbove(a, 64 - 2 * k, k);
      ShiftAgain(a0, n, k);
    }
  }

  lemma ShiftBelow(a: nat, m: nat, k: nat)
    requires a < Pow2(m)
    ensures a * Pow2(k) < Pow2(m + k)
  {
    hide Pow2;
    Pow2Sum(m, k);
    ProductOrder(a, Pow2(m), Pow2(k));
  }

  lemma ShiftAbove(a: nat, m: nat, k: nat)
    requires Pow2(m) <= a
    ensures Pow2(m + k) <= a * Pow2(k)
  {
    hide Pow2;
    Pow2Sum(m, k);
    ProductOrder(a, Pow2(m), Pow2(k));
  }

  lemma ShiftAgain(a0: nat, n: nat, k: nat)
    ensures a0 * Pow2(n) * Pow2(k) == a0 * Pow2(n + k)
  {
    hide Pow2;
    Pow2Sum(n, k);
    Regroup(a0, Pow2(n), Pow2(k));
  }

  lemma Regroup(a: nat, b: nat, c: nat)
    ensures a * b * c == a * (b * c)
  {
  }

  /** The test and shift of one line of __clzdi2. */
  method ClzLine(ghost a0: nat, a: nat, n: nat, k: nat) returns (a': nat, n': nat)
    requires Normalising(a0, a, n, k) && k > 0 && k % 2 == 0
    ensures Normalising(a0, a', n', k / 2)
  {
    hide Pow2, Shl;
    ClzStep(a0, a, n, k);
    var b := if a < Pow2(64 - k) then k else 0;
    n' := n + b;
    a' := if b == 0 then a else Shl(a, b);
  }

  /** __clzdi2 counts the leading zeros; its comment excludes 0. */
  method Clz(a0: nat) returns (n: nat)
    requires 0 < a0 < TWO64
    ensures LeadingZeros(a0, n)
  {
    assert Pow2(0) == 1;
    hide Pow2, Shl;
    Pow2At64();
    var a: nat;
    a, n := a0, 0;
    assert Normalising(a0, a, n, 32);
    a, n := ClzLine(a0, a, n, 32);
    a, n := ClzLine(a0, a, n, 16);
    a, n := ClzLine(a0, a, n, 8);
    a, n := ClzLine(a0, a, n, 4);
    a, n := ClzLine(a0, a, n, 2);
    LastBit(a0, a, n);
    n := n + (if a < TWO63 then 1 else 0);
  }

  lemma LastBit(a0: nat, a: nat, n: nat)
    requires Normalising(a0, a, n, 1)
    ensures LeadingZeros(a0, if a < TWO63 then n + 1 else n)
  {
    Pow2At64();
    var z := if a < TWO63 then n + 1 else n;
    Pow2Sum(63 - z, n);
    Pow2Sum(64 - z, n);
    ProductOrder(a0, Pow2(63 - z), Pow2(n));
    ProductOrder(a0, Pow2(64 - z), Pow2(n));
    assert Pow2(64 - z) == 2 * Pow2(63 - z);
    hide Pow2;
  }

  // ----- unsigned long division

  function Quo(x: nat, d: nat): nat
    requires d > 0
  {
    x / d
  }

  function Mod(x: nat, d: nat): nat
    requires d > 0
  {
    x % d
  }

  lemma QuoMod(x: nat, d: nat)
    requires d > 0
    ensures x == Quo(x, d) * d + Mod(x, d) && Mod(x, d) < d
  {
  }

  lemma QuoUnique(x: nat, d: nat, q: nat, r: nat)
    requires x == q * d + r && r < d
    ensures Quo(x, d) == q && Mod(x, d) == r
  {
    RowIndex(q, r, d);
  }

  /** `q` and `r` are quotient and remainder of `num` by `b`. */
  ghost predicate IsDivision(num: nat, b: nat, q: nat, r: nat) { num == q * b + r && r < b }

  /** With `bits` numerator bits still to come, `a` holds them above the quotient bits found so far except the last,
      which is `w`; quotient 2 * qhi + w and remainder divide the numerator's upper part. */
  ghost predicate Dividing(num: nat, b: nat, bits: nat, a: nat, rem: nat, qhi: nat, w: nat) {
    && bits < 64 && w <= 1 && 0 < b <= num < TWO64
    && qhi < Pow2(64 - bits) && a == Packed(Mod(num, Pow2(bits)), Pow2(64 - bits), qhi)
    && IsDivision(Quo(num, Pow2(bits)), b, 2 * qhi + w, rem)
    && (b > TWO63 && bits > 0 ==> bits == 1 && qhi == w == 0)
  }

  function Packed(high: nat, r: nat, low: nat): nat { high * r + low }

  lemma DivBelow(num: nat, c: nat, p: nat)
    requires num < c * p && p > 0
    ensures Quo(num, p) < c
  {
    RowOf(num, p);
    ProductOrder(num / p, c, p);
  }

  /** The numerator, not smaller than the divisor, has no more leading zeros. */
  lemma ZerosOrdered(num: nat, b: nat, zn: nat, zb: nat)
    requires 2 <= b <= num && LeadingZeros(num, zn) && LeadingZeros(b, zb)
    ensures zn <= zb < 63 && (b > TWO63 ==> zb == 0)
  {
    if zb < zn {
      Pow2Order(63 - zn, 63 - zb);
    }
    assert Pow2(0) == 1;
    hide Pow2;
    Pow2At64();
    if zb > 0 {
      Pow2Order(63 - zb, 63);
    }
  }

  /** The two leading-zero counts give a first remainder below the divisor. */
  lemma DivStart(num: nat, b: nat, zn: nat, zb: nat, k: nat)
    requires 2 <= b <= num < TWO64 && LeadingZeros(num, zn) && LeadingZeros(b, zb)
    requires zn <= zb < 63 && (b > TWO63 ==> zb == 0) && k == zb - zn + 1
    ensures Dividing(num, b, k, Shl(num, 64 - k), Quo(num, Pow2(k)), 0, 0)
  {
    assert Pow2(64 - zn) == 2 * Pow2(63 - zn);
    hide Pow2, Shl, Quo, Mod;
    Pow2Sum(63 - zb, k);
    DivBelow(num, Pow2(63 - zb), Pow2(k));
    FirstNumerator(num, k);
  }

  lemma FirstNumerator(num: nat, k: nat)
    requires 0 < k < 64
    ensures Shl(num, 64 - k) == Packed(Mod(num, Pow2(k)), Pow2(64 - k), 0)
  {
    hide Pow2, Quo, Mod;
    Pow2At64();
    var p, r := Pow2(k), Pow2(64 - k);
    Pow2Sum(k, 64 - k);
    var h, l := Quo(num, p), Mod(num, p);
    QuoMod(num, p);
    Distribute(h, p, l, r);
    RowOrder(l, p, r);
    RowIndex(h, l * r, TWO64);
  }

  lemma Distribute(h: nat, p: nat, l: nat, r: nat)
    ensures (h * p + l) * r == h * (p * r) + l * r
  {
  }

  /** Taking one more bit of the numerator. */
  lemma NextBit(num: nat, p: nat)
    requires p > 0
    ensures var top := Quo(Mod(num, 2 * p), p);
      && top <= 1 && Quo(num, p) == 2 * Quo(num, 2 * p) + top && Mod(num, 2 * p) == top * p + Mod(num, p)
  {
    hide Quo, Mod;
    var h, l := Quo(num, 2 * p), Mod(num, 2 * p);
    QuoMod(num, 2 * p);
    QuoMod(l, p);
    DivBelow(l, 2, p);
    Distribute2(h, Quo(l, p), p);
    QuoUnique(num, p, 2 * h + Quo(l, p), Mod(l, p));
  }

  lemma Distribute2(h: nat, top: nat, p: nat)
    ensures (2 * h + top) * p == h * (2 * p) + top * p
  {
  }

  /** What the shifts of one round move: the top bit of `a` is the next numerator bit, and it leaves `a`. */
  lemma Shifted(num: nat, bits: nat, qhi: nat, w: nat, a: nat)
    requires 0 < bits < 64 && qhi < Pow2(64 - bits) && w <= 1
    requires a == Packed(Mod(num, Pow2(bits)), Pow2(64 - bits), qhi)
    ensures a / TWO63 == Quo(Mod(num, Pow2(bits)), Pow2(bits - 1))
    ensures 2 * a % TWO64 + w == Packed(Mod(num, Pow2(bits - 1)), Pow2(65 - bits), 2 * qhi + w)
  {
    var p, r := Pow2(bits - 1), Pow2(64 - bits);
    assert Pow2(bits) == 2 * p && Pow2(65 - bits) == 2 * r;
    hide Pow2, Quo, Mod;
    Pow2At64();
    Pow2Sum(bits - 1, 64 - bits);
    NextBit(num, p);
    QuoMod(num, p);
    Unpack(Quo(Mod(num, 2 * p), p), Mod(num, p), p, r, qhi, a);
    Double(Mod(num, p), r);
  }

  /** A word whose upper part is `top` followed by `low`, shifted left by one. */
  lemma Unpack(top: nat, low: nat, p: nat, r: nat, qhi: nat, a: nat)
    requires top <= 1 && low < p && qhi < r && p * r == TWO63 && a == (top * p + low) * r + qhi
    ensures a / TWO63 == top && 2 * a % TWO64 == 2 * (low * r + qhi)
  {
    Distribute(top, p, low, r);
    RowOrder(low, p, r);
    var rest := low * r + qhi;
    assert a == top * TWO63 + rest && rest < TWO63;
    RowIndex(top, rest, TWO63);
    RowIndex(top, 2 * rest, TWO64);
  }

  lemma Double(x: nat, y: nat)
    ensures x * (2 * y) == 2 * (x * y)
  {
  }

  /** Subtracting modulo 2^64. */
  function Sub(x: nat, y: nat): nat { (x - y) % TWO64 }

  /** The sign bit of b - rem - 1, wrapped to 64 bits, is set exactly when rem >= b. */
  lemma SignTest(b: nat, rem: nat)
    requires rem < TWO64 && 0 < b < TWO64 && rem < 2 * b && (b > TWO63 ==> rem >= b)
    ensures Sub(b, rem + 1) >= TWO63 <==> rem >= b
  {
    if rem < b {
      assert Sub(b, rem + 1) == b - rem - 1;
    } else {
      assert (b - rem - 1) + TWO64 == Sub(b, rem + 1);
    }
  }

  /** One more quotient bit, with the shifted remainder and the sign test as the loop computes them. */
  lemma QuotientBit(v: nat, v': nat, b: nat, q: nat, rem: nat, top: nat)
    requires IsDivision(v, b, q, rem) && v' == 2 * v + top && top <= 1 && v' < TWO64 && 0 < b < TWO64
    requires b > TWO63 ==> v' >= b && q == 0
    ensures var rem1 := 2 * rem % TWO64 + top;
      var w1 := if Sub(b, rem1 + 1) >= TWO63 then 1 else 0;
      (w1 == 1 ==> rem1 >= b) && IsDivision(v', b, 2 * q + w1, if w1 == 1 then rem1 - b else rem1)
  {
    hide Sub;
    var rem1 := 2 * rem + top;
    assert v' == 2 * (q * b) + rem1;
    ProductSign(q, b);
    SignTest(b, rem1);
    Distribute3(q, b);
  }

  lemma Distribute3(q: nat, b: nat)
    ensures 2 * q * b == 2 * (q * b) && (2 * q + 1) * b == 2 * (q * b) + b
  {
  }

  /** One round of the division loop. */
  lemma DivStep(num: nat, b: nat, bits: nat, a: nat, rem: nat, qhi: nat, w: nat)
    requires Dividing(num, b, bits, a, rem, qhi, w) && bits > 0
    ensures var rem1 := 2 * rem % TWO64 + a / TWO63;
      var w1 := if Sub(b, rem1 + 1) >= TWO63 then 1 else 0;
      && (w1 == 1 ==> rem1 >= b)
      && Dividing(num, b, bits - 1, 2 * a % TWO64 + w, if w1 == 1 then rem1 - b else rem1, 2 * qhi + w, w1)
  {
    var p := Pow2(bits - 1);
    assert Pow2(bits) == 2 * p && Pow2(65 - bits) == 2 * Pow2(64 - bits);
    assert bits == 1 ==> p == 1;
    hide Pow2, Sub, IsDivision, Quo, Mod, Packed;
    Shifted(num, bits, qhi, w, a);
    NextBit(num, p);
    QuotientBound(num, p);
    QuotientBit(Quo(num, 2 * p), Quo(num, p), b, 2 * qhi + w, rem, Quo(Mod(num, 2 * p), p));
  }

  lemma QuotientBound(num: nat, p: nat)
    requires p > 0
    ensures Quo(num, p) <= num && (p == 1 ==> Quo(num, p) == num && Mod(num, p) == 0)
  {
    if p > 1 {
      hide Quo;
      ProductSign(num, p - 1);
      Peel(num, p);
      DivBelow(num, num + 1, p);
    }
  }

  lemma Peel(num: nat, p: nat)
    requires p > 0
    ensures (num + 1) * p == num * (p - 1) + num + p
  {
  }

  datatype Division = Trap | Quotient(quotient: nat, remainder: nat)

  /** __divmoddi4: the exact quotient and remainder of every 64-bit numerator by every nonzero divisor, a trap for
      zero. */
  method DivMod(num: nat, b: nat) returns (d: Division)
    requires num < TWO64 && b < TWO64
    ensures b == 0 ==> d == Trap
    ensures b != 0 ==> d.Quotient? && IsDivision(num, b, d.quotient, d.remainder)
  {
    hide Shl, Dividing, IsDivision, LeadingZeros;
    if b > 0 { Shortcuts(num, b); }
    if b > num { return Quotient(0, num); }
    if b < TWO32 {
      if b == 0 { return Trap; }
      if b == 1 { return Quotient(num, 0); }
      if num < TWO32 { return Quotient(Quo(num, b), Mod(num, b)); }
    }
    hide Pow2, Sub, Quo, Mod;
    var zb := Clz(b);
    var zn := Clz(num);
    ZerosOrdered(num, b, zn, zb);
    DivStart(num, b, zn, zb, zb - zn + 1);
    var bits: nat := zb - zn + 1;
    var rem: nat := Quo(num, Pow2(bits));
    var a: nat := Shl(num, 64 - bits);
    var w: nat := 0;
    ghost var qhi: nat := 0;
    while bits > 0
      invariant Dividing(num, b, bits, a, rem, qhi, w)
    {
      DivStep(num, b, bits, a, rem, qhi, w);
      qhi := 2 * qhi + w;
      rem := 2 * rem % TWO64 + a / TWO63;
      a := 2 * a % TWO64 + w;
      w := if Sub(b, rem + 1) >= TWO63 then 1 else 0;
      rem := if w == 1 then rem - b else rem;
      bits := bits - 1;
    }
    DivEnd(num, b, a, rem, qhi, w);
    d := Quotient(2 * a % TWO64 + w, rem);
  }

  lemma Shortcuts(num: nat, b: nat)
    requires b > 0
    ensures b > num ==> IsDivision(num, b, 0, num)
    ensures b == 1 ==> IsDivision(num, b, num, 0)
    ensures IsDivision(num, b, Quo(num, b), Mod(num, b))
  {
    QuoMod(num, b);
  }

  lemma DivEnd(num: nat, b: nat, a: nat, rem: nat, qhi: nat, w: nat)
    requires Dividing(num, b, 0, a, rem, qhi, w)
    ensures IsDivision(num, b, 2 * a % TWO64 + w, rem)
  {
    assert Pow2(0) == 1;
    hide Pow2, Quo, Mod;
    QuotientBound(num, 1);
    AtMost(num, b, 2 * qhi + w, rem);
    assert a == qhi;
    hide IsDivision;
  }

  lemma AtMost(num: nat, b: nat, q: nat, r: nat)
    requires IsDivision(num, b, q, r)
    ensures q <= num
  {
    ProductSign(q, b - 1);
    assert q * b == q * (b - 1) + q;
  }

  // ----- the signed wrappers

  const MIN: int := -0x8000_0000_0000_0000

  predicate IsS64(a: int) { MIN <= a < TWO63 }

  /** The sign put back on a magnitude. */
  function Flip(x: nat, negative: bool): int { if negative then 0 - x else x }

  /** The 64-bit pattern of a signed value, and back. */
  function Pattern(a: int): (u: nat)
    requires IsS64(a)
    ensures u < TWO64
  {
    if a < 0 then a + TWO64 else a
  }

  function Signed(u: nat): int { if u < TWO63 then u else u - TWO64 }

  /** arith64_neg: invert and increment when the sign operand is negative. */
  function Neg(u: nat, negative: bool): (r: nat)
    requires u < TWO64
    ensures r < TWO64
  {
    if negative then (TWO64 - 1 - u + 1) % TWO64 else u
  }

  function Magnitude(a: int): nat { if a < 0 then -a else a }

  lemma NegMagnitude(a: int)
    requires IsS64(a)
    ensures Neg(Pattern(a), a < 0) == Magnitude(a)
  {
  }

  /** `q` is the quotient truncated toward zero, `r` the remainder with the numerator's sign. */
  ghost predicate Truncates(a: int, b: int, q: int, r: int) {
    && b != 0 && a == q * b + r && Magnitude(r) < Magnitude(b) && (r != 0 ==> (r < 0 <==> a < 0))
  }

  lemma TruncatesUnique(a: int, b: int, q: int, r: int, q': int, r': int)
    requires Truncates(a, b, q, r) && Truncates(a, b, q', r')
    ensures q == q' && r == r'
  {
    if q != q' {
      assert (q - q') * b == r' - r;
      FarApart(q - q', b);
    }
  }

  lemma FarApart(k: int, b: int)
    requires k != 0
    ensures Magnitude(k * b) >= Magnitude(b)
  {
    var m, c := Magnitude(k), Magnitude(b);
    assert Magnitude(k * b) == m * c by { SignedProduct(k, b); }
    ProductSign(m - 1, c);
    assert m * c == (m - 1) * c + c;
  }

  lemma SignedProduct(k: int, b: int)
    ensures Magnitude(k * b) == Magnitude(k) * Magnitude(b)
  {
    if k >= 0 {
      if b >= 0 {
        ProductSign(k, b);
      } else {
        ProductSign(k, -b);
        assert k * b == -(k * -b);
      }
    } else if b >= 0 {
      ProductSign(-k, b);
      assert k * b == -(-k * b);
    } else {
      ProductSign(-k, -b);
      assert k * b == -k * -b;
    }
  }

  /** Dividing magnitudes and fixing the signs truncates toward zero. */
  lemma SignsBack(a: int, b: int, q: nat, r: nat)
    requires b != 0 && IsDivision(Magnitude(a), Magnitude(b), q, r)
    ensures Truncates(a, b, Flip(q, (a < 0) != (b < 0)), Flip(r, a < 0))
  {
    var m := q * Magnitude(b);
    assert Flip(q, (a < 0) != (b < 0)) * b == if a < 0 then 0 - m else m by { SignedRow(q, b); }
  }

  lemma SignedRow(q: nat, b: int)
    ensures q * b == if b < 0 then 0 - q * Magnitude(b) else q * Magnitude(b)
    ensures (0 - q) * b == if b < 0 then q * Magnitude(b) else 0 - q * Magnitude(b)
  {
  }

  lemma MagnitudeQuotient(a: int, b: int, q: nat, r: nat)
    requires IsS64(a) && IsS64(b) && b != 0 && IsDivision(Magnitude(a), Magnitude(b), q, r)
    ensures q <= TWO63 && r < TWO63 && (q == TWO63 <==> a == MIN && Magnitude(b) == 1)
  {
    AtMost(Magnitude(a), Magnitude(b), q, r);
    if Magnitude(b) > 1 {
      var m := Magnitude(b);
      ProductSign(q, m - 2);
      assert q * m == q * (m - 2) + 2 * q;
    }
  }

  datatype SignedResult = SignedTrap | Value(value: int)

  /** __divdi3, with signed negation wrapping as two's complement does: the quotient truncated toward zero, except that
      the one quotient outside the signed range comes back as its own negation. */
  method SignedDiv(a: int, b: int) returns (s: SignedResult)
    requires IsS64(a) && IsS64(b)
    ensures b == 0 <==> s == SignedTrap
    ensures b != 0 ==> ((exists r :: Truncates(a, b, s.value, r)) <==> !(a == MIN && b == -1))
    ensures b == -1 && a == MIN ==> s.value == MIN
  {
    hide IsDivision, Truncates, Magnitude;
    NegMagnitude(a);
    NegMagnitude(b);
    MagnitudeZero(b);
    var d := DivMod(Neg(Pattern(a), a < 0), Neg(Pattern(b), b < 0));
    if d.Trap? { return SignedTrap; }
    MagnitudeQuotient(a, b, d.quotient, d.remainder);
    SignsBack(a, b, d.quotient, d.remainder);
    var v := Signed(Neg(d.quotient, (a < 0) != (b < 0)));
    OnlyQuotient(a, b, Flip(d.quotient, (a < 0) != (b < 0)), Flip(d.remainder, a < 0));
    MinusOne(b);
    s := Value(v);
  }

  lemma SignedFlip(u: nat, negative: bool)
    requires u < TWO63
    ensures Signed(Neg(u, negative)) == Flip(u, negative)
  {
  }

  lemma MagnitudeZero(b: int)
    ensures Magnitude(b) == 0 <==> b == 0
  {
  }

  lemma MinusOne(b: int)
    ensures Magnitude(b) == 1 <==> b == 1 || b == -1
  {
  }

  lemma OnlyQuotient(a: int, b: int, q: int, r: int)
    requires Truncates(a, b, q, r)
    ensures forall q', r' :: Truncates(a, b, q', r') ==> q' == q && r' == r
  {
    hide Truncates;
    forall q', r' | Truncates(a, b, q', r')
      ensures q' == q && r' == r
    {
      TruncatesUnique(a, b, q, r, q', r');
    }
  }

  /** __moddi3: the remainder of truncated division, for every signed numerator and nonzero divisor. */
  method SignedMod(a: int, b: int) returns (s: SignedResult)
    requires IsS64(a) && IsS64(b)
    ensures b == 0 <==> s == SignedTrap
    ensures b != 0 ==> exists q :: Truncates(a, b, q, s.value)
  {
    hide IsDivision, Truncates, Magnitude;
    NegMagnitude(a);
    NegMagnitude(b);
    MagnitudeZero(b);
    var d := DivMod(Neg(Pattern(a), a < 0), Neg(Pattern(b), b < 0));
    if d.Trap? { return SignedTrap; }
    MagnitudeQuotient(a, b, d.quotient, d.remainder);
    SignsBack(a, b, d.quotient, d.remainder);
    SignedFlip(d.remainder, a < 0);
    hide Pattern, Neg, Signed, Flip;
    s := Value(Signed(Neg(d.remainder, a < 0)));
  }
}
