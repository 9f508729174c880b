/**
 * Integer helpers with the semantics of the C++ operators the engines use.
 * Dafny's `/` and `%` are Euclidean; C++ truncates toward zero, which
 * differs whenever the dividend is negative.
 */
module CMath {

  function Abs(x: int): (r: nat)
    ensures r == x || r == -x
  {
    if x < 0 then -x else x
  }

  function Min(a: int, b: int): (r: int)
    ensures r <= a && r <= b && (r == a || r == b)
  {
    if a < b then a else b
  }

  function Max(a: int, b: int): (r: int)
    ensures r >= a && r >= b && (r == a || r == b)
  {
    if a < b then b else a
  }

  /** -1, 0 or 1 as the engines compute `(d < 0) ? -1 : (d > 0 ? 1 : 0)`. */
  function Sign(d: int): (r: int)
    ensures -1 <= r <= 1
    ensures r * Abs(d) == d
    ensures (r == 0) == (d == 0)
  {
    if d < 0 then -1 else if d > 0 then 1 else 0
  }

  /** C++ integer division: the quotient is truncated toward zero. */
  function CDiv(a: int, b: int): (q: int)
    requires b != 0
    ensures Abs(q) * Abs(b) <= Abs(a) < (Abs(q) + 1) * Abs(b)
    ensures a >= 0 && b > 0 ==> q == a / b
    ensures q != 0 ==> (q < 0) == ((a < 0) != (b < 0))
  {
    var q := Abs(a) / Abs(b);
    DivBounds(Abs(a), Abs(b));
    if (a < 0) == (b < 0) then q else -q
  }

  lemma DivBounds(a: nat, b: nat)
    requires b > 0
    ensures (a / b) * b <= a < (a / b + 1) * b
  {
  }

  /** Euclidean division is determined by quotient and remainder. */
  lemma DivUnique(a: int, b: int, k: int, r: int)
    requires b > 0 && 0 <= r < b && a == k * b + r
    ensures a / b == k
  {
    var q, m := a / b, a % b;
    assert a == q * b + m;
    MulSub(k, q, b);
    assert (k - q) * b == m - r;
    if k > q {
      MulAtLeast(k - q, b);
    } else if k < q {
      MulAtLeast(q - k, b);
      MulSub(q, k, b);
    }
  }

  lemma MulSub(x: int, y: int, b: int)
    ensures (x - y) * b == x * b - y * b
  {
  }

  lemma MulAtLeast(d: int, b: int)
    requires d >= 1 && b > 0
    ensures d * b >= b
  {
    assert d * b == (d - 1) * b + b;
  }

  /**
   * Where the two conventions part: for a negative dividend that the divisor
   * does not divide, C++ rounds up where Dafny rounds down.
   */
  lemma {:induction false} CDivNegativeDividend(a: int, b: int)
    requires a < 0 && b > 0 && a % b != 0
    ensures CDiv(a, b) == a / b + 1
  {
    var q := (-a) / b;
    var r := (-a) % b;
    assert -a == q * b + r && 0 <= r < b;
    if r == 0 {
      assert a == (-q) * b + 0;
      DivUnique(a, b, -q, 0);
      assert false;
    }
    assert a == (-q - 1) * b + (b - r);
    DivUnique(a, b, -q - 1, b - r);
  }

  /** A first step of s and then the remaining t - s steps land where t steps do. */
  lemma ModShift(x: int, s: int, t: int, m: int)
    requires m > 0
    ensures ((x + s) % m + (t - s)) % m == (x + t) % m
  {
    ModAdd(x + s, t - s, m);
  }

  /** Adding to a value taken modulo m does not change the final residue. */
  lemma {:induction false} ModAdd(a: int, n: int, m: int)
    requires m > 0
    ensures (a % m + n) % m == (a + n) % m
  {
    var k := a / m;
    assert a % m + n == (a + n) - k * m;
    var q := (a + n) / m;
    var r := (a + n) % m;
    assert a % m + n == (q - k) * m + r by {
      MulSub(q, k, m);
    }
    DivUnique(a % m + n, m, q - k, r);
  }
}
