/** Python's integer `//` and `%`, which round toward negative infinity,
    and Python's list indexing, which counts negative indices from the end. */
module PyArith {

  /** `a // b`. */
  function FloorDiv(a: int, b: int): (q: int)
    requires b != 0
    ensures b > 0 ==> b * q <= a < b * q + b
    ensures b < 0 ==> b * q + b < a <= b * q
  {
    if b > 0 then a / b else (-a) / (-b)
  }

  /** `a % b`: the remainder has the sign of `b`. */
  function FloorMod(a: int, b: int): (r: int)
    requires b != 0
    ensures a == b * FloorDiv(a, b) + r
    ensures b > 0 ==> 0 <= r < b
    ensures b < 0 ==> b < r <= 0
  {
    a - b * FloorDiv(a, b)
  }

  /** `len(s)`-relative position `i` of Python indexing, when it is in range. */
  function PyIndex(n: nat, i: int): (k: int)
    ensures -(n as int) <= i < n ==> 0 <= k < n && (k == i || k == i + n)
  {
    if i < 0 then i + n else i
  }

  /** Adding a whole number of periods does not change the remainder. */
  lemma {:induction false} FloorModPeriodic(a: int, b: int, m: int)
    requires b != 0
    ensures FloorMod(a + b * m, b) == FloorMod(a, b)
  {
    var q, r := FloorDiv(a, b), FloorMod(a, b);
    assert a + b * m == b * (q + m) + r;
    FloorDivUnique(a + b * m, b, q + m, r);
  }

  /** Adding `b` to `a` adds one to `a // b`. */
  lemma FloorDivStep(a: int, b: int)
    requires b != 0
    ensures FloorDiv(a + b, b) == FloorDiv(a, b) + 1
  {
    var q, r := FloorDiv(a, b), FloorMod(a, b);
    assert a + b == b * (q + 1) + r;
    FloorDivUnique(a + b, b, q + 1, r);
  }

  /** Counting modulo a positive `n`: the successor of `n - 1` is `0`. */
  lemma FloorModNext(a: int, n: int)
    requires n > 0
    ensures FloorMod(a + 1, n) == if FloorMod(a, n) == n - 1 then 0 else FloorMod(a, n) + 1
  {
    var q, r := FloorDiv(a, n), FloorMod(a, n);
    if r == n - 1 {
      assert a + 1 == n * (q + 1) + 0;
      FloorDivUnique(a + 1, n, q + 1, 0);
    } else {
      assert a + 1 == n * q + (r + 1);
      FloorDivUnique(a + 1, n, q, r + 1);
    }
  }

  /** Quotient and remainder are the only pair with the remainder's sign
      that recomposes `a`. */
  lemma FloorDivUnique(a: int, b: int, q: int, r: int)
    requires b != 0 && a == b * q + r
    requires b > 0 ==> 0 <= r < b
    requires b < 0 ==> b < r <= 0
    ensures FloorDiv(a, b) == q && FloorMod(a, b) == r
  {
    var d := q - FloorDiv(a, b);
    assert b * d == FloorMod(a, b) - r;
    if d != 0 {
      MultipleAtLeast(b, d);
    }
  }

  /** A non-zero multiple of `b` is at least `b` in size. */
  lemma MultipleAtLeast(b: int, d: int)
    requires d != 0
    ensures b > 0 ==> b * d >= b || b * d <= -b
    ensures b < 0 ==> b * d <= b || b * d >= -b
  {
    if d > 0 {
      ProductSign(b, d - 1);
      assert b * d == b + b * (d - 1);
    } else {
      ProductSign(b, -d - 1);
      assert b * d == -b - b * (-d - 1);
    }
  }

  /** A multiple `b * e` with `e >= 0` has the sign of `b`. */
  lemma {:induction false} ProductSign(b: int, e: int)
    requires e >= 0
    ensures b > 0 ==> b * e >= 0
    ensures b < 0 ==> b * e <= 0
    decreases e
  {
    if e > 0 {
      ProductSign(b, e - 1);
      assert b * e == b * (e - 1) + b;
    }
  }
}
