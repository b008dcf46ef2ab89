/** Integer square root, primality and greatest common divisor on 32-bit integers. */
module Arith {
  import opened Division

  const INT_MAX: int := 0x7FFF_FFFF

  predicate Int32(a: int) {
    -INT_MAX - 1 <= a <= INT_MAX
  }

  predicate Root(a: nat, x: nat) {
    x * x <= a < (x + 1) * (x + 1)
  }

  /** The mean of x and y is not too small when their product comes close to a. */
  lemma MeanSquare(a: nat, x: nat, y: nat)
    requires a < x * (y + 1)
    ensures var m := (x + y) / 2; a < (m + 1) * (m + 1)
  {
    var m := (x + y) / 2;
    var s, t := x + y + 1, 2 * (m + 1);
    Spread(x, y + 1);
    Grows(s, t);
    assert t * t == 4 * ((m + 1) * (m + 1));
  }

  lemma NonNegative(a: nat, b: nat)
    ensures a * b >= 0
  {
  }

  lemma Spread(a: nat, b: nat)
    ensures 4 * (a * b) <= (a + b) * (a + b)
  {
    assert (a + b) * (a + b) - 4 * (a * b) == (a - b) * (a - b);
    if a >= b {
      NonNegative(a - b, a - b);
    } else {
      NonNegative(b - a, b - a);
      assert (b - a) * (b - a) == (a - b) * (a - b);
    }
  }

  lemma Grows(s: nat, t: nat)
    requires s <= t
    ensures s * s <= t * t
  {
    assert t * t - s * s == (t - s) * (t + s);
    NonNegative(t - s, t + s);
  }

  lemma SumFits(a: nat, x: nat, y: nat)
    requires 0 < x && 0 < y && y * x <= a
    ensures x + y <= a + 1
  {
    NonNegative(x - 1, y - 1);
    assert (x - 1) * (y - 1) == y * x - x - y + 1;
  }

  /** One step of the iteration: the mean of x and a / x is smaller, but not too small. */
  lemma MeanStep(a: nat, x: nat, y: nat)
    requires 0 < x <= a && y == a / x && y < x
    ensures var m := (x + y) / 2; 0 < m < x && a < (m + 1) * (m + 1) && x + y <= a + 1
  {
    Quotient(a, x);
    QuotientStep(a, x);
    Around(a, x, y, a % x);
  }

  lemma Around(a: nat, x: nat, y: nat, r: nat)
    requires 0 < y < x && a == y * x + r && r < x
    ensures var m := (x + y) / 2; 0 < m < x && a < (m + 1) * (m + 1) && x + y <= a + 1
  {
    SumFits(a, x, y);
    assert x * (y + 1) == y * x + x;
    MeanSquare(a, x, y);
  }

  /** x * x is at most a once x is at most a / x. */
  lemma RootReached(a: nat, x: nat)
    requires 0 < x <= a / x
    ensures x * x <= a
  {
    Quotient(a, x);
    assert (a / x - x) * x >= 0;
    assert (a / x) * x - x * x == (a / x - x) * x;
  }

  /** x is at least the root of a, and y is a / x. */
  predicate Guess(a: int, x: int, y: int) {
    0 < x <= a && y == a / x && a < (x + 1) * (x + 1)
  }

  lemma FirstGuess(a: int)
    ensures a > 0 ==> Guess(a, a, 1)
  {
    if a > 0 {
      QuotientIs(a, a, 1, 0);
      assert (a + 1) * (a + 1) == a * a + 2 * a + 1;
    }
  }

  /** sqrt: the exact integer square root. At INT_MAX the first sum would run over. */
  method Sqrt(a: int) returns (x: int)
    requires Int32(a) && a < INT_MAX
    ensures a < 0 ==> x == a
    ensures a >= 0 ==> x >= 0 && Root(a, x)
  {
    x := a;
    var y := 1;
    FirstGuess(a);
    while x > y
      invariant if a <= 0 then x == a && y == 1 else Guess(a, x, y)
      decreases x
    {
      MeanStep(a, x, y);
      assert Int32(x + y);
      x := (x + y) / 2;
      y := a / x;
      Quotient(a, x);
    }
    if a > 0 {
      RootReached(a, x);
    }
  }

  predicate Divides(d: nat, a: nat)
    requires 0 < d
  {
    a % d == 0
  }

  ghost predicate NoDivisorBelow(a: nat, n: nat) {
    forall d: nat {:trigger Divides(d, a)} :: 2 <= d < n && d < a ==> !Divides(d, a)
  }

  /** Only 1 and a itself divide a. */
  ghost predicate Prime(a: int) {
    a >= 2 && NoDivisorBelow(a, a)
  }

  lemma Factor(d: nat, a: nat) returns (q: nat)
    requires 0 < d && Divides(d, a)
    ensures a == q * d
  {
    Quotient(a, d);
    q := a / d;
  }

  lemma MultipleDivides(q: nat, d: nat, a: nat)
    requires 0 < d && a == q * d
    ensures Divides(d, a)
  {
    QuotientIs(a, d, q, 0);
  }

  /** A proper divisor above the root has a partner that is at most the root. */
  lemma Partner(a: nat, d: nat, root: nat) returns (q: nat)
    requires 2 <= d < a && Divides(d, a) && Root(a, root) && root < d
    ensures 2 <= q <= root && q < a && Divides(q, a)
  {
    q := Factor(d, a);
    MultipleDivides(d, q, a);
    PartnerSize(a, d, q, root);
  }

  lemma PartnerSize(a: nat, d: nat, q: nat, root: nat)
    requires a == q * d == d * q && 2 <= d < a && Root(a, root) && root < d
    ensures 2 <= q <= root && q < a
  {
    assert q != 0 && q != 1;
    assert (d - 1) * q == a - q;
    Multiple(d - 1, q);
    if q > root {
      Product(root + 1, q, d);
      assert false;
    }
  }

  lemma Product(n: nat, q: nat, d: nat)
    requires n <= q && n <= d
    ensures n * n <= q * d
  {
    NonNegative(q - n, d);
    NonNegative(n, d - n);
    assert (q - n) * d == q * d - n * d && n * (d - n) == n * d - n * n;
  }

  /** No divisor up to the root means no divisor at all. */
  lemma PrimeByRoot(a: nat, root: nat)
    requires 2 <= a && Root(a, root) && NoDivisorBelow(a, root + 1)
    ensures Prime(a)
  {
    forall d: nat | 2 <= d < a ensures !Divides(d, a) {
      if d > root && Divides(d, a) {
        var q := Partner(a, d, root);
      }
    }
  }

  lemma RootBelow(a: nat, root: nat, i: nat)
    requires 2 <= a && Root(a, root) && 2 <= i <= root
    ensures i < a
  {
    Multiple(root - 1, root);
    assert (root - 1) * root == root * root - root;
  }

  /** is_prime tries divisors only up to the root, and is right nevertheless. */
  method IsPrime(a: int) returns (prime: bool)
    requires Int32(a) && a < INT_MAX
    ensures prime <==> Prime(a)
  {
    if a < 2 {
      return false;
    }
    var root := Sqrt(a);
    var i := 2;
    while i <= root
      invariant 2 <= i && 0 <= root && Root(a, root) && NoDivisorBelow(a, i)
      decreases a - i
    {
      RootBelow(a, root, i);
      if a % i == 0 {
        assert Divides(i, a);
        return false;
      }
      assert !Divides(i, a);
      i := i + 1;
      root := Sqrt(a);
    }
    PrimeByRoot(a, root);
    return true;
  }

  // ---- greatest common divisor ----

  function Abs(a: int): (r: nat) {
    if a < 0 then -a else a
  }

  /** The remainder of C, with the sign of the dividend. */
  function CRem(a: int, b: int): (r: int)
    requires b != 0
  {
    if a < 0 then -(Abs(a) % Abs(b)) else Abs(a) % Abs(b)
  }

  lemma CRemAbs(a: int, b: int)
    requires b != 0
    ensures Abs(CRem(a, b)) == Abs(a) % Abs(b) < Abs(b) && (a >= 0 ==> CRem(a, b) >= 0)
  {
    Quotient(Abs(a), Abs(b));
  }

  function Gcd(a: nat, b: nat): (r: nat)
    decreases b
  {
    if b == 0 then a else
      var r := a % b;
      Quotient(a, b);
      Gcd(b, r)
  }

  /** The quotient of -2^31 by -1 is no int, and the division traps, remainder and all; gcd gets
      there from these two arguments in either order, and from no others. */
  predicate Traps(a: int, b: int) {
    (a == -INT_MAX - 1 && b == -1) || (a == -1 && b == -INT_MAX - 1)
  }

  lemma NextTraps(a: int, b: int)
    requires Int32(a) && Int32(b) && b != 0
    ensures Int32(CRem(a, b)) && (Traps(b, CRem(a, b)) <==> a == -1 && b == -INT_MAX - 1)
  {
    CRemAbs(a, b);
  }

  /** gcd, up to the sign. */
  method GcdLoop(a0: int, b0: int) returns (a: int)
    requires Int32(a0) && Int32(b0) && !Traps(a0, b0)
    ensures Abs(a) == Gcd(Abs(a0), Abs(b0)) && (a0 >= 0 && b0 >= 0 ==> a >= 0)
  {
    a := a0;
    var b := b0;
    while b != 0
      invariant Int32(a) && Int32(b) && !Traps(a, b)
      invariant Gcd(Abs(a), Abs(b)) == Gcd(Abs(a0), Abs(b0)) && (a0 >= 0 && b0 >= 0 ==> a >= 0 && b >= 0)
      decreases Abs(b)
    {
      CRemAbs(a, b);
      NextTraps(a, b);
      assert !(a == -INT_MAX - 1 && b == -1);
      var t := b;
      b := CRem(a, b);
      a := t;
    }
  }

  /** d divides a sum of multiples of d. */
  lemma DividesSum(d: nat, x: int, y: int, a: nat)
    requires 0 < d && a == x * d + y * d
    ensures Divides(d, a)
  {
    assert a == (x + y) * d;
    Multiple(x + y, d);
    MultipleDivides(x + y, d, a);
  }

  lemma {:induction false} GcdStep(a: nat, b: nat, d: nat)
    requires 0 < b && 0 < d && Divides(d, b)
    ensures 0 <= a % b && (Divides(d, a) <==> Divides(d, a % b))
  {
    Quotient(a, b);
    var q, r: nat := a / b, a % b;
    var s := Factor(d, b);
    assert q * b == (q * s) * d;
    if Divides(d, a) {
      var p := Factor(d, a);
      assert -(q * s) * d == -((q * s) * d);
      DividesSum(d, p, -(q * s), r);
    }
    if Divides(d, r) {
      var p := Factor(d, r);
      DividesSum(d, q * s, p, a);
    }
  }

  /** Gcd is a common divisor, and every common divisor divides it. */
  lemma {:induction false} GcdLaw(a: nat, b: nat, d: nat)
    requires (0 < a || 0 < b) && 0 < d
    ensures 0 < Gcd(a, b) && Divides(Gcd(a, b), a) && Divides(Gcd(a, b), b)
    ensures Divides(d, a) && Divides(d, b) ==> Divides(d, Gcd(a, b))
    decreases b
  {
    if b == 0 {
      QuotientIs(a, a, 1, 0);
      QuotientIs(0, a, 0, 0);
    } else {
      Quotient(a, b);
      GcdLaw(b, a % b, d);
      GcdStep(a, b, Gcd(a, b));
      if Divides(d, a) && Divides(d, b) {
        GcdStep(a, b, d);
      }
    }
  }
}
