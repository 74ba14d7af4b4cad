/** The C# lambdas the repository's tests pass to the core, over `int`. */
module TestOperators {

  /** A positive multiple of m is at least m. */
  lemma {:induction false} MultipleAtLeast(m: int, k: int)
    requires m > 0 && k >= 1
    ensures m * k >= m
    decreases k
  {
    if k > 1 {
      MultipleAtLeast(m, k - 1);
      assert m * k == m * (k - 1) + m;
    }
  }

  /** Every multiple of m leaves remainder 0 under Dafny's (Euclidean) `%`. */
  lemma MultipleRemainder(m: int, q: int)
    requires m > 0
    ensures (m * q) % m == 0
  {
    var d, e := (m * q) / m, (m * q) % m;
    assert m * q == m * d + e && 0 <= e < m;
    var k := q - d;
    assert m * k == e by {
      assert m * k == m * q - m * d;
    }
    if k >= 1 {
      MultipleAtLeast(m, k);
    } else if k <= -1 {
      MultipleAtLeast(m, -k);
    }
  }

  /**
   C#'s `%` on `int` (truncating division): the remainder differs from the dividend by a
   multiple of m, is smaller than m in magnitude, and has the sign of the dividend.
   */
  function CsRemainder(x: int, m: int): (r: int)
    requires m > 0
    ensures -m < r < m
    ensures (x - r) % m == 0
    ensures x >= 0 ==> r >= 0
    ensures x < 0 ==> r <= 0
  {
    if x >= 0 then
      var q := x / m;
      assert x - x % m == m * q;
      MultipleRemainder(m, q);
      x % m
    else
      var q := (-x) / m;
      assert -x == m * q + (-x) % m;
      assert x + (-x) % m == m * -q;
      MultipleRemainder(m, -q);
      -((-x) % m)
  }

  /** `valor => valor % 2 == 0` */
  function IsEven(x: int): bool
  {
    CsRemainder(x, 2) == 0
  }

  /** `x => x % 2 == 1`: under C#'s `%` a negative odd number is not selected. */
  function IsOdd(x: int): bool
  {
    CsRemainder(x, 2) == 1
  }

  /** Under C#'s `%`, 2j is even and not odd, and 2j + 1 is odd and not even. */
  lemma Parity(j: nat)
    ensures IsEven(2 * j) && !IsOdd(2 * j)
    ensures IsOdd(2 * j + 1) && !IsEven(2 * j + 1)
  {
    assert CsRemainder(2 * j, 2) == (2 * j) % 2 == 0;
    assert CsRemainder(2 * j + 1, 2) == (2 * j + 1) % 2 == 1;
  }

  /** `valor => valor * 3 + 10` */
  function TimesThreePlusTen(x: int): int
  {
    x * 3 + 10
  }

  function Add(x: int, y: int): int
  {
    x + y
  }

  function Sub(x: int, y: int): int
  {
    x - y
  }

  function Mul(x: int, y: int): int
  {
    x * y
  }

  /** `lista.Sum()` */
  function Sum(xs: seq<int>): int
  {
    if xs == [] then 0 else xs[0] + Sum(xs[1..])
  }
}
