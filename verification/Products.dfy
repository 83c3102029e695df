/** The few nonlinear facts the address arithmetic rests on. */
module Products {

  lemma ProductSign(a: nat, b: nat)
    ensures a * b >= 0
  {
  }

  /** Rows of width `n`: row `b` starts at or after the end of every earlier row `a`. */
  lemma RowOrder(a: nat, b: nat, n: nat)
    requires a < b
    ensures a * n + n <= b * n
  {
    assert b * n == a * n + n + (b - a - 1) * n;
    ProductSign(b - a - 1, n);
  }

  /** a lies in row a / n. */
  lemma RowOf(a: nat, n: nat)
    requires n > 0
    ensures a / n * n <= a < a / n * n + n
  {
    assert a == a / n * n + a % n;
  }

  /** Row `q` is the only row that holds position q * n + r. */
  lemma RowIndex(q: nat, r: nat, n: nat)
    requires r < n
    ensures (q * n + r) / n == q && (q * n + r) % n == r
  {
    var a := q * n + r;
    RowOf(a, n);
    if a / n < q {
      RowOrder(a / n, q, n);
    } else if q < a / n {
      RowOrder(q, a / n, n);
    }
    assert a == a / n * n + a % n;
  }

  /** Whole rows in front of `b` move its row and leave its column. */
  lemma RowShift(a: nat, b: nat, n: nat)
    requires n > 0
    ensures (a * n + b) / n == a + b / n && (a * n + b) % n == b % n
  {
    assert b == b / n * n + b % n;
    assert a * n + b / n * n == (a + b / n) * n;
    RowIndex(a + b / n, b % n, n);
  }
}
