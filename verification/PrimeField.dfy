/**
 The scalar field of the pairing curve: the integers modulo a prime P.
 Nothing below depends on the value of P, only on its being prime and above 65535,
 so that every two-byte coefficient is its own residue.
 */
module PrimeField {
  import opened Division

  ghost predicate IsPrime(n: nat) {
    && 2 <= n
    && forall a: nat, b: nat :: a * b == n ==> a == 1 || b == 1
  }

  lemma NoSmallFactor(a: nat, b: nat)
    requires 2 <= a <= 128
    ensures a * b != 65537
  {
  }

  lemma NoMediumFactor(a: nat, b: nat)
    requires 129 <= a <= 256
    ensures a * b != 65537
  {
  }

  /** The fourth Fermat number is prime, so the type Modulus below has a member. */
  lemma FermatPrime()
    ensures IsPrime(65537)
  {
    forall a: nat, b: nat | a * b == 65537
      ensures a == 1 || b == 1
    {
      if 2 <= a <= 128 {
        NoSmallFactor(a, b);
      } else if 2 <= b <= 128 {
        NoSmallFactor(b, a);
      } else if 129 <= a <= 256 {
        NoMediumFactor(a, b);
      } else if 129 <= b <= 256 {
        NoMediumFactor(b, a);
      }
    }
  }

  type Modulus = p: nat | 65535 < p && IsPrime(p) witness (FermatPrime(); 65537)

  const P: Modulus

  type Fr = x: nat | x < P

  /** The residue of an integer. */
  function Rep(x: int): Fr {
    x % P
  }

  function Add(a: Fr, b: Fr): Fr {
    Rep(a + b)
  }

  function Sub(a: Fr, b: Fr): Fr {
    Rep(a - b)
  }

  function Mul(a: Fr, b: Fr): Fr {
    Rep(a * b)
  }

  // Rep is a ring homomorphism from the integers.

  lemma RepUnique(x: int, y: int, q: int)
    requires x - y == P * q
    ensures Rep(x) == Rep(y)
  {
    assert P * (y / P + q) == P * (y / P) + P * q;
    QuotientUnique(P, x / P, Rep(x), y / P + q, Rep(y));
  }

  lemma RepQuotient(x: int) returns (q: int)
    ensures x == P * q + Rep(x)
  {
    q := x / P;
  }

  lemma RepAdd(x: int, y: int)
    ensures Add(Rep(x), Rep(y)) == Rep(x + y)
  {
    var q := RepQuotient(x);
    var r := RepQuotient(y);
    RepUnique(x + y, Rep(x) + Rep(y), q + r) by {
      assert P * (q + r) == P * q + P * r;
    }
  }

  lemma RepSub(x: int, y: int)
    ensures Sub(Rep(x), Rep(y)) == Rep(x - y)
  {
    var q := RepQuotient(x);
    var r := RepQuotient(y);
    RepUnique(x - y, Rep(x) - Rep(y), q - r) by {
      assert P * (q - r) == P * q - P * r;
    }
  }

  lemma ProductShift(m: int, x: int, y: int, q: int, r: int, a: int, b: int)
    requires x == m * q + a && y == m * r + b
    ensures x * y - a * b == m * (q * y + a * r)
  {
    calc {
      x * y - a * b;
      (m * q) * y + a * y - a * b;
      { assert a * y == a * (m * r) + a * b; }
      (m * q) * y + a * (m * r);
      { assert a * (m * r) == m * (a * r) && (m * q) * y == m * (q * y); }
      m * (q * y) + m * (a * r);
      m * (q * y + a * r);
    }
  }

  lemma RepMul(x: int, y: int)
    ensures Mul(Rep(x), Rep(y)) == Rep(x * y)
  {
    var q := RepQuotient(x);
    var r := RepQuotient(y);
    ProductShift(P, x, y, q, r, Rep(x), Rep(y));
    RepUnique(x * y, Rep(x) * Rep(y), q * y + Rep(x) * r);
  }

  lemma RepOfFr(a: Fr)
    ensures Rep(a) == a
  {
  }

  // The identities that elimination rests on.

  lemma Units(a: Fr)
    ensures Add(a, 0) == a && Sub(a, 0) == a && Sub(a, a) == 0
    ensures Mul(0, a) == 0 && Mul(a, 0) == 0 && Mul(1, a) == a && Mul(a, 1) == a
  {
  }

  lemma MulCommutes(a: Fr, b: Fr)
    ensures Mul(a, b) == Mul(b, a)
  {
  }

  /** a - b*f, as a residue of integers. */
  lemma SubMul(a: int, b: int, f: int)
    ensures Sub(Rep(a), Mul(Rep(b), Rep(f))) == Rep(a - b * f)
  {
    RepMul(b, f);
    RepSub(a, b * f);
  }

  /** (u - v*f) - x*(a - b*f) == (u - x*a) - (v - x*b)*f */
  lemma Regroup(u: Fr, v: Fr, f: Fr, x: Fr, a: Fr, b: Fr)
    ensures Sub(Sub(u, Mul(v, f)), Mul(x, Sub(a, Mul(b, f)))) ==
            Sub(Sub(u, Mul(x, a)), Mul(Sub(v, Mul(x, b)), f))
  {
    hide Add, Sub, Mul, Rep;
    RepOfFr(u); RepOfFr(v); RepOfFr(f); RepOfFr(x); RepOfFr(a); RepOfFr(b);
    var i, j, m, n: int := u - v * f, a - b * f, u - x * a, v - x * b;
    SubMul(u, v, f); SubMul(a, b, f); SubMul(i, x, j);
    SubMul(u, x, a); SubMul(v, x, b); SubMul(m, n, f);
    assert i - x * j == m - n * f by {
      assert x * j == x * a - x * (b * f);
      assert n * f == v * f - x * b * f;
      assert x * (b * f) == x * b * f;
    }
  }

  /** (v - x*a) - x*(0 - a) == v */
  lemma AddBack(v: Fr, x: Fr, a: Fr)
    ensures Sub(Sub(v, Mul(x, a)), Mul(x, Sub(0, a))) == v
  {
    hide Add, Sub, Mul, Rep;
    RepOfFr(v); RepOfFr(x); RepOfFr(a); RepOfFr(0);
    SubMul(v, x, a);
    RepSub(0, a);
    SubMul(v - x * a, x, 0 - a);
    assert v - x * a - x * (0 - a) == v by { assert x * (0 - a) == -(x * a); }
  }

  /** u + x*f is u - x*(0 - f). */
  lemma AddIsSub(u: Fr, x: Fr, f: Fr)
    ensures Add(u, Mul(x, f)) == Sub(u, Mul(x, Sub(0, f)))
  {
    hide Add, Sub, Mul, Rep;
    RepOfFr(u); RepOfFr(x); RepOfFr(f); RepOfFr(0);
    RepMul(x, f); RepAdd(u, x * f);
    RepSub(0, f); SubMul(u, x, 0 - f);
    assert u + x * f == u - x * (0 - f) by { assert x * (0 - f) == -(x * f); }
  }

  lemma MulAssociates(a: Fr, b: Fr, c: Fr)
    ensures Mul(Mul(a, b), c) == Mul(a, Mul(b, c))
  {
    hide Add, Sub, Mul, Rep;
    RepOfFr(a); RepOfFr(b); RepOfFr(c);
    RepMul(a, b); RepMul(a * b, c);
    RepMul(b, c); RepMul(a, b * c);
    assert a * b * c == a * (b * c);
  }

  // Inverses by the extended Euclidean algorithm.

  /** (g, x, y) with g the greatest common divisor of a and b and x*a + y*b == g. */
  function Bezout(a: nat, b: nat): (nat, int, int)
    decreases b
  {
    if b == 0 then (a, 1, 0)
    else
      var (g, x, y) := Bezout(b, a % b);
      (g, y, x - a / b * y)
  }

  lemma {:induction false} BezoutCorrect(a: nat, b: nat) returns (m: nat, n: nat)
    requires a + b > 0
    decreases b
    ensures var (g, x, y) := Bezout(a, b); g > 0 && x * a + y * b == g && m * g == a && n * g == b
  {
    if b == 0 {
      m, n := 1, 0;
    } else {
      var m', n' := BezoutCorrect(b, a % b);
      var (g, x, y) := Bezout(b, a % b);
      var q := a / b;
      m, n := q * m' + n', m';
      BezoutStep(a, b, q, g, x, y, m', n');
    }
  }

  lemma BezoutStep(a: nat, b: nat, q: nat, g: nat, x: int, y: int, m: nat, n: nat)
    requires a - q * b == n * g && b == m * g && x * b + y * (a - q * b) == g
    ensures y * a + (x - q * y) * b == g
    ensures (q * m + n) * g == a
  {
    assert y * (a - q * b) == y * a - y * (q * b) && y * (q * b) == q * y * b;
    assert (x - q * y) * b == x * b - q * y * b;
    assert (q * m + n) * g == q * (m * g) + n * g;
  }

  /** The inverse; like the library's, it maps zero to zero. */
  function Inverse(a: Fr): Fr {
    if a == 0 then 0 else Rep(Bezout(a, P).1)
  }

  lemma ProperDivisor(m: nat, n: nat, g: nat, a: nat)
    requires m * g == a && n * g == P && 0 < a < P
    ensures g == 1
  {
    assert m == 0 ==> m * g == 0;
    assert m >= 1 ==> m * g >= g;
  }

  lemma InverseIsInverse(a: Fr)
    requires a != 0
    ensures Mul(a, Inverse(a)) == 1
  {
    var (g, x, y) := Bezout(a, P);
    var m, n := BezoutCorrect(a, P);
    ProperDivisor(m, n, g, a);
    BezoutResidue(a, x, y);
  }

  lemma BezoutResidue(a: Fr, x: int, y: int)
    requires x * a + y * P == 1
    ensures Mul(a, Rep(x)) == 1
  {
    hide Mul;
    RepOfFr(a);
    RepMul(a, x);
    RepOfFr(1);
    RepUnique(a * x, 1, -y) by {
      assert x * a == a * x && y * P == P * y && P * -y == -(P * y);
    }
  }
}
