/**
 Arithmetic modulo a prime: the scalar field of the credential group.

 A scalar is an integer in `[0, n)`. `Red` reduces an integer expression to its
 scalar; congruence (`Cong`) relates expressions with the same reduction. Inverses
 come from Bezout's identity, so cancellation is a theorem here and not an
 assumption. Reduction is defined by repeated addition and subtraction, which keeps
 every proof below free of division; `RedIsRemainder` says that it is `%`.
 */
module PrimeField {
  import opened Options

  predicate IsScalar(n: int, x: int) {
    0 <= x < n
  }

  /**
   The scalar denoted by an integer expression. The definition reaches its recursion in two
   steps, so that proofs carry reductions of long expressions without unfolding them;
   `RedUnfolds` unfolds one.
   */
  function Red(n: int, x: int): (r: int)
    requires n > 0
    ensures IsScalar(n, r)
    decreases if x < 0 then n - x else x, 2
  {
    Reduce(n, x)
  }

  function Reduce(n: int, x: int): (r: int)
    requires n > 0
    ensures IsScalar(n, r)
    decreases if x < 0 then n - x else x, 1
  {
    Shift(n, x)
  }

  function Shift(n: int, x: int): (r: int)
    requires n > 0
    ensures IsScalar(n, r)
    decreases if x < 0 then n - x else x, 0
  {
    if x < 0 then Red(n, x + n) else if x < n then x else Red(n, x - n)
  }

  lemma RedUnfolds(n: int, x: int)
    requires n > 0
    ensures Red(n, x) == if x < 0 then Red(n, x + n) else if x < n then x else Red(n, x - n)
  {
    assert Red(n, x) == Reduce(n, x) == Shift(n, x);
  }

  /** How often `Red` subtracted n. */
  function Quotient(n: int, x: int): (q: int)
    requires n > 0
    ensures x == q * n + Red(n, x)
    decreases if x < 0 then n - x else x
  {
    RedUnfolds(n, x);
    if x < 0 then
      var q := Quotient(n, x + n);
      MulDistributes(q, 1, n);
      q - 1
    else if x < n then
      0
    else
      var q := Quotient(n, x - n);
      MulDistributes(q, 1, n);
      q + 1
  }

  predicate Cong(n: int, x: int, y: int)
    requires n > 0
  {
    Red(n, x) == Red(n, y)
  }

  predicate Divides(d: int, x: int)
    requires d > 0
  {
    Red(d, x) == 0
  }

  ghost predicate IsPrime(n: int) {
    n > 1 && forall d :: 1 < d < n ==> !Divides(d, n)
  }

  // ----- Division with remainder

  lemma RemainderIsUnique(n: int, q: int, r: int, q': int, r': int)
    requires IsScalar(n, r) && IsScalar(n, r')
    requires q * n + r == q' * n + r'
    ensures q == q' && r == r'
  {
    MulDistributes(q, q', n);
    if q > q' {
      MultipleIsLarge(q - q', n);
    } else if q < q' {
      MultipleIsLarge(q' - q, n);
    }
  }

  lemma MultipleIsLarge(k: int, n: int)
    requires k >= 1 && n > 0
    ensures k * n >= n
    ensures (-k) * n <= -n
  {
  }

  lemma RedIsRemainder(n: int, x: int)
    requires n > 0
    ensures Red(n, x) == x % n
  {
    assert x == (x / n) * n + x % n;
    RemainderIsUnique(n, Quotient(n, x), Red(n, x), x / n, x % n);
  }

  lemma RedOfScalar(n: int, x: int)
    requires IsScalar(n, x)
    ensures Red(n, x) == x
  {
    RedUnfolds(n, x);
  }

  lemma RedIsCong(n: int, x: int)
    requires n > 0
    ensures Cong(n, Red(n, x), x)
  {
    RedOfScalar(n, Red(n, x));
  }

  /** Numbers that differ by a multiple of n are congruent. */
  lemma CongByQuotient(n: int, x: int, y: int, k: int)
    requires n > 0
    requires x == y + k * n
    ensures Cong(n, x, y)
  {
    var q := Quotient(n, y);
    MulDistributes(q, k, n);
    RemainderIsUnique(n, q + k, Red(n, y), Quotient(n, x), Red(n, x));
  }

  /** Congruent numbers differ by a multiple of n. */
  lemma QuotientOfCong(n: int, x: int, y: int) returns (k: int)
    requires n > 0
    requires Cong(n, x, y)
    ensures x == y + k * n
  {
    var i, j := Quotient(n, x), Quotient(n, y);
    k := i - j;
    MulDistributes(i, j, n);
  }

  lemma CongAdd(n: int, x: int, x': int, y: int, y': int)
    requires n > 0
    requires Cong(n, x, x') && Cong(n, y, y')
    ensures Cong(n, x + y, x' + y')
    ensures Cong(n, x - y, x' - y')
  {
    var j := QuotientOfCong(n, x, x');
    var k := QuotientOfCong(n, y, y');
    MulDistributes(j, k, n);
    CongByQuotient(n, x + y, x' + y', j + k);
    CongByQuotient(n, x - y, x' - y', j - k);
  }

  lemma CongMul(n: int, x: int, x': int, y: int, y': int)
    requires n > 0
    requires Cong(n, x, x') && Cong(n, y, y')
    ensures Cong(n, x * y, x' * y')
  {
    var j := QuotientOfCong(n, x, x');
    var k := QuotientOfCong(n, y, y');
    MulRegroup(x', j, y', k, n);
    CongByQuotient(n, x * y, x' * y', x' * k + j * y' + j * k * n);
  }

  lemma MulRegroup(x: int, j: int, y: int, k: int, n: int)
    ensures (x + j * n) * (y + k * n) == x * y + (x * k + j * y + j * k * n) * n
  {
    assert (x + j * n) * (y + k * n) == x * y + x * (k * n) + (j * n) * y + (j * n) * (k * n);
  }

  lemma MulDistributes(x: int, y: int, z: int)
    ensures (x + y) * z == x * z + y * z
    ensures (x - y) * z == x * z - y * z
  {
  }

  lemma MulAssociates(x: int, y: int, z: int)
    ensures (x * y) * z == x * (y * z)
  {
  }

  // ----- Bezout's identity and inverses

  /** Extended Euclid: a common divisor of `a` and `b` together with its Bezout coefficients. */
  function ExtendedGcd(a: nat, b: nat): (int, int, int)
    decreases b
  {
    if b == 0 then
      (a, 1, 0)
    else
      var (g, x, y) := ExtendedGcd(b, Red(b, a));
      (g, y, x - Quotient(b, a) * y)
  }

  /** Bezout's identity for what `ExtendedGcd` computes. */
  lemma {:induction false} BezoutHolds(a: nat, b: nat)
    requires a > 0 || b > 0
    ensures var (g, x, y) := ExtendedGcd(a, b);
            g > 0 && g == a * x + b * y && Divides(g, a) && Divides(g, b)
    decreases b
  {
    if b == 0 {
      DividesItself(a);
    } else {
      BezoutHolds(b, Red(b, a));
      var (g, x, y) := ExtendedGcd(b, Red(b, a));
      DividesCombination(g, Quotient(b, a), b, Red(b, a));
      BezoutStep(a, b, Quotient(b, a), Red(b, a), x, y);
    }
  }

  lemma DividesItself(a: int)
    requires a > 0
    ensures Divides(a, a) && Divides(a, 0)
  {
    RedUnfolds(a, a);
    RedUnfolds(a, 0);
  }

  lemma BezoutStep(a: int, b: int, q: int, r: int, x: int, y: int)
    requires a == q * b + r
    ensures b * x + r * y == a * y + b * (x - q * y)
  {
    assert (q * b + r) * y == (q * b) * y + r * y;
  }

  lemma DividesCombination(g: int, q: int, b: int, r: int)
    requires g > 0 && Divides(g, b) && Divides(g, r)
    ensures Divides(g, q * b + r)
  {
    RedOfScalar(g, 0);
    CongMul(g, q, q, b, 0);
    CongAdd(g, q * b, 0, r, 0);
  }

  /** The inverse of a scalar, absent exactly for zero. */
  function Invert(n: int, x: int): (r: Option<int>)
    requires n > 1 && IsScalar(n, x)
    ensures r.None? <==> x == 0
    ensures r.Some? ==> IsScalar(n, r.value)
  {
    if x == 0 then None else Some(Red(n, ExtendedGcd(x, n).1))
  }

  lemma InverseMultiplies(n: int, x: int)
    requires IsPrime(n) && IsScalar(n, x) && x != 0
    ensures Cong(n, x * Invert(n, x).value, 1)
  {
    var (g, s, t) := ExtendedGcd(x, n);
    BezoutHolds(x, n);
    DivisorIsSmall(g, x);
    InverseFromBezout(n, x, s, t);
  }

  lemma InverseFromBezout(n: int, x: int, s: int, t: int)
    requires n > 1 && x * s + n * t == 1
    ensures Cong(n, x * Red(n, s), 1)
  {
    RedIsCong(n, s);
    CongMul(n, x, x, Red(n, s), s);
    CongByQuotient(n, x * s, 1, -t);
  }

  lemma DivisorIsSmall(g: int, x: int)
    requires g > 0 && x > 0 && Divides(g, x)
    ensures g <= x
  {
    RedUnfolds(g, x);
  }

  /** Multiplication by a nonzero scalar is injective. */
  lemma Cancel(n: int, c: int, x: int, y: int)
    requires IsPrime(n)
    requires Red(n, c) != 0
    requires Cong(n, c * x, c * y)
    ensures Cong(n, x, y)
  {
    var i := Invert(n, Red(n, c)).value;
    RedIsCong(n, c);
    InverseMultiplies(n, Red(n, c));
    CongMul(n, Red(n, c), c, i, i);
    UndoFactor(n, c, i, x);
    UndoFactor(n, c, i, y);
    CongMul(n, i, i, c * x, c * y);
  }

  lemma UndoFactor(n: int, c: int, i: int, x: int)
    requires n > 1
    requires Cong(n, c * i, 1)
    ensures Cong(n, i * (c * x), x)
  {
    CongMul(n, c * i, 1, x, x);
    assert i * (c * x) == (c * i) * x;
  }

  lemma NoZeroDivisors(n: int, x: int, y: int)
    requires IsPrime(n)
    ensures Red(n, x * y) == 0 <==> Red(n, x) == 0 || Red(n, y) == 0
  {
    RedOfScalar(n, 0);
    if Red(n, x) == 0 {
      CongMul(n, x, 0, y, y);
    } else if Red(n, y) == 0 {
      CongMul(n, x, x, y, 0);
    } else if Red(n, x * y) == 0 {
      Cancel(n, x, y, 0);
    }
  }
}
