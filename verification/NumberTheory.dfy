/** The number theory behind RSA: Euclid's lemma, inverses modulo m, Fermat's theorem by way
    of the binomial expansion, and the combination of two prime moduli. */
module NumberTheory {

  /** n = d * k; a name to hang the quantifier below on. */
  predicate Times(n: int, d: int, k: int) {
    n == d * k
  }

  ghost predicate Divides(d: int, n: int) {
    exists k: int :: Times(n, d, k)
  }

  ghost predicate Prime(p: int) {
    p > 1 && forall d | 1 < d < p :: !Divides(d, p)
  }

  /** a = b modulo m */
  ghost predicate Congruent(a: int, b: int, m: int) {
    Divides(m, a - b)
  }

  function Pow(x: int, n: nat): int {
    if n == 0 then 1 else x * Pow(x, n - 1)
  }

  function Gcd(a: nat, b: nat): (g: nat)
    ensures a > 0 || b > 0 ==> g > 0
    decreases b
  {
    if b == 0 then a else Gcd(b, a % b)
  }

  // ---------- divisibility ----------

  lemma ProductBound(d: int, e: int)
    requires d > 0
    ensures e >= 1 ==> d * e >= d
    ensures e <= -1 ==> d * e <= -d
  {
  }

  lemma DividesIntro(d: int, n: int, k: int)
    requires n == d * k
    ensures Divides(d, n)
  {
    assert Times(n, d, k);
  }

  lemma Quotient(d: int, n: int) returns (k: int)
    requires Divides(d, n)
    ensures n == d * k
  {
    k :| Times(n, d, k);
  }

  // ---------- products ----------

  lemma Distribute(a: int, b: int, c: int)
    ensures a * (b + c) == a * b + a * c
    ensures a * (b - c) == a * b - a * c
    ensures (b + c) * a == b * a + c * a
    ensures (b - c) * a == b * a - c * a
  {
  }

  lemma Assoc(a: int, b: int, c: int)
    ensures a * (b * c) == (a * b) * c
    ensures a * (b * c) == b * (a * c)
  {
  }

  lemma DividesSum(d: int, a: int, b: int)
    requires Divides(d, a) && Divides(d, b)
    ensures Divides(d, a + b) && Divides(d, a - b)
  {
    var i := Quotient(d, a);
    var j := Quotient(d, b);
    Distribute(d, i, j);
    DividesIntro(d, a + b, i + j);
    DividesIntro(d, a - b, i - j);
  }

  lemma DividesMultiple(d: int, a: int, c: int)
    requires Divides(d, a)
    ensures Divides(d, a * c) && Divides(d, c * a)
  {
    var i := Quotient(d, a);
    Assoc(d, i, c);
    DividesIntro(d, a * c, i * c);
    assert c * a == a * c;
  }

  lemma DividesTrans(a: int, b: int, c: int)
    requires Divides(a, b) && Divides(b, c)
    ensures Divides(a, c)
  {
    var k := Quotient(b, c);
    DividesMultiple(a, b, k);
  }

  lemma DividesIsMod(d: int, n: int)
    requires d > 0
    ensures Divides(d, n) <==> n % d == 0
  {
    if Divides(d, n) {
      var k := Quotient(d, n);
      MultipleMod(d, n, k);
    } else if n % d == 0 {
      DividesIntro(d, n, n / d);
      assert false;
    }
  }

  lemma MultipleMod(d: int, n: int, k: int)
    requires d > 0 && n == d * k
    ensures n % d == 0
  {
    var q, r := n / d, n % d;
    assert n == d * q + r;
    Distribute(d, k, q);
    ProductBound(d, k - q);
  }

  lemma SmallNotDivided(d: int, n: int)
    requires 0 < n < d
    ensures !Divides(d, n)
  {
    DividesIsMod(d, n);
  }

  lemma {:induction false} GcdDivides(a: nat, b: nat)
    requires a > 0 || b > 0
    ensures Divides(Gcd(a, b), a) && Divides(Gcd(a, b), b)
    decreases b
  {
    var g := Gcd(a, b);
    if b == 0 {
      DividesIntro(g, a, 1);
      DividesIntro(g, b, 0);
    } else {
      GcdDivides(b, a % b);
      var q, r := a / b, a % b;
      assert a == b * q + r;
      DividesMultiple(g, b, q);
      DividesSum(g, b * q, r);
    }
  }

  /** Every common divisor divides Gcd, so Gcd is the greatest. */
  lemma {:induction false} GcdGreatest(a: nat, b: nat, d: int)
    requires Divides(d, a) && Divides(d, b)
    ensures Divides(d, Gcd(a, b))
    decreases b
  {
    if b != 0 {
      var q, r := a / b, a % b;
      assert a == b * q + r;
      DividesMultiple(d, b, q);
      DividesSum(d, a, b * q);
      GcdGreatest(b, r, d);
    }
  }

  /** Euclid's lemma. */
  lemma {:induction false} EuclidSmall(p: int, k: int, m: int)
    requires Prime(p) && 0 < k < p && Divides(p, k * m)
    ensures Divides(p, m)
    decreases k
  {
    if k > 1 {
      var q, r := p / k, p % k;
      DividesIsMod(k, p);
      DividesIntro(p, p * m, m);
      DividesMultiple(p, k * m, q);
      DividesSum(p, p * m, (k * m) * q);
      DivisionTimes(p, k, m);
      Assoc(q, k, m);
      EuclidSmall(p, r, m);
    }
  }

  lemma EuclidLemma(p: int, a: int, b: int)
    requires Prime(p) && Divides(p, a * b)
    ensures Divides(p, a) || Divides(p, b)
  {
    DividesIsMod(p, a);
    var k, q := a % p, a / p;
    if k != 0 {
      DivisionTimes(a, p, b);
      DividesIntro(p, p * (q * b), q * b);
      DividesSum(p, a * b, p * (q * b));
      EuclidSmall(p, k, b);
    }
  }

  /** a * b with a split into quotient and remainder. */
  lemma DivisionTimes(a: int, p: int, b: int)
    requires p > 0
    ensures a * b == p * ((a / p) * b) + (a % p) * b
  {
    Distribute(b, p * (a / p), a % p);
    Assoc(p, a / p, b);
  }

  // ---------- inverses ----------

  ghost predicate IsInverse(x: int, a: int, m: int) {
    0 <= x < m && Congruent(a * x, 1, m)
  }

  lemma {:induction false} Bezout(a: nat, b: nat) returns (s: int, t: int)
    ensures Gcd(a, b) == s * a + t * b
    decreases b
  {
    if b == 0 {
      s, t := 1, 0;
    } else {
      var q, r := a / b, a % b;
      var s', t' := Bezout(b, r);
      s, t := t', s' - t' * q;
      assert a == b * q + r;
      Distribute(b, s', t' * q);
      Distribute(t', a, b * q);
      Assoc(t', q, b);
    }
  }

  predicate Coprime(a: nat, b: nat) {
    Gcd(a, b) == 1
  }

  /** What is coprime to the modulus is invertible. */
  lemma CoprimeIsInvertible(a: nat, m: nat)
    requires m > 0 && Coprime(a, m)
    ensures exists x :: IsInverse(x, a, m)
  {
    var s, t := Bezout(a, m);
    var x, z := s % m, s / m;
    assert s == m * z + x;
    Distribute(a, s, m * z);
    Assoc(a, m, z);
    Distribute(m, -t, a * z);
    assert a * x == a * s - m * (a * z);
    assert a * s == s * a && m * -t == -(t * m);
    DividesIntro(m, a * x - 1, -t - a * z);
    assert IsInverse(x, a, m);
  }

  lemma DivisorNotLarger(d: nat, n: nat)
    requires Divides(d, n) && n > 0
    ensures 0 < d <= n
  {
    var k := Quotient(d, n);
    if d > n {
      SmallNotDivided(d, n);
    }
  }

  lemma DividesOne(d: nat)
    requires Divides(d, 1)
    ensures d == 1
  {
    DivisorNotLarger(d, 1);
  }

  /** A prime that does not divide m is coprime to it. */
  lemma PrimeIsCoprime(p: nat, m: nat)
    requires Prime(p) && !Divides(p, m)
    ensures Coprime(p, m)
  {
    var g := Gcd(p, m);
    GcdDivides(p, m);
    DivisorNotLarger(g, p);
    assert g == 1 || g == p;
  }

  /** What is coprime to m is coprime to every divisor of m. */
  lemma CoprimeToDivisor(a: nat, m: nat, l: nat)
    requires m > 0 && Coprime(a, m) && Divides(l, m)
    ensures Coprime(a, l)
  {
    DivisorNotLarger(l, m);
    var g := Gcd(a, l);
    GcdDivides(a, l);
    DividesTrans(g, l, m);
    GcdGreatest(a, m, g);
    DividesOne(g);
  }

  lemma InverseIsUnique(x: int, y: int, a: int, m: int)
    requires IsInverse(x, a, m) && IsInverse(y, a, m)
    ensures x == y
  {
    DividesMultiple(m, a * x - 1, y);
    DividesMultiple(m, a * y - 1, x);
    Distribute(y, a * x, 1);
    Distribute(x, a * y, 1);
    Assoc(a, x, y);
    Assoc(a, y, x);
    var u, v := (a * x - 1) * y, (a * y - 1) * x;
    DividesSum(m, u, v);
    DividesSum(m, v, u);
    assert u - v == x - y;
    if x > y {
      SmallNotDivided(m, x - y);
    } else if y > x {
      SmallNotDivided(m, y - x);
    }
  }

  /** Nothing but 1 is invertible modulo a multiple of itself. */
  lemma NotInvertible(e: int, m: int, x: int)
    requires e > 1 && Divides(e, m)
    ensures !IsInverse(x, e, m)
  {
    if IsInverse(x, e, m) {
      DividesTrans(e, m, e * x - 1);
      DividesIntro(e, e * x, x);
      DividesSum(e, e * x, e * x - 1);
      SmallNotDivided(e, 1);
    }
  }

  // ---------- Fermat ----------

  function Binom(n: nat, k: nat): nat {
    if k == 0 then 1 else if n == 0 then 0 else Binom(n - 1, k - 1) + Binom(n - 1, k)
  }

  /** Pascal's triangle ends on its diagonal. */
  lemma {:induction false} BinomBeyond(n: nat, k: nat)
    ensures k > n ==> Binom(n, k) == 0
    ensures k == n ==> Binom(n, k) == 1
  {
    if k > 0 && n > 0 {
      BinomBeyond(n - 1, k - 1);
      BinomBeyond(n - 1, k);
    }
  }

  lemma {:induction false} Absorption(n: nat, k: nat)
    requires n >= 1 && k >= 1
    ensures k * Binom(n, k) == n * Binom(n - 1, k - 1)
  {
    if n == 1 {
      BinomBeyond(0, k);
      if k > 1 {
        BinomBeyond(1, k);
      }
    } else if k == 1 {
      Absorption(n - 1, 1);
    } else {
      Absorption(n - 1, k);
      Absorption(n - 1, k - 1);
      var a, b := Binom(n - 1, k - 1), Binom(n - 1, k);
      var c, d := Binom(n - 2, k - 2), Binom(n - 2, k - 1);
      assert a == c + d && Binom(n, k) == a + b;
      Distribute(k, a, b);
      Distribute(a, k - 1, 1);
      Distribute(n - 1, c, d);
      Distribute(a, n - 1, 1);
    }
  }

  lemma PrimeDividesBinom(p: int, k: nat)
    requires Prime(p) && 0 < k < p
    ensures Divides(p, Binom(p, k))
  {
    Absorption(p, k);
    DividesIntro(p, k * Binom(p, k), Binom(p - 1, k - 1));
    EuclidSmall(p, k, Binom(p, k));
  }

  /** The first k+1 terms of the expansion of (x+1)^n. */
  function Expansion(n: nat, x: int, k: nat): int {
    Binom(n, k) * Pow(x, k) + (if k == 0 then 0 else Expansion(n, x, k - 1))
  }

  lemma {:induction false} ExpansionStep(n: nat, x: int, k: nat)
    requires k >= 1
    ensures Expansion(n + 1, x, k) == x * Expansion(n, x, k - 1) + Expansion(n, x, k)
  {
    var a, b, y := Binom(n, k - 1), Binom(n, k), Pow(x, k - 1);
    assert Binom(n + 1, k) == a + b && Pow(x, k) == x * y;
    Distribute(x * y, a, b);
    Assoc(a, x, y);
    if k == 1 {
      assert Expansion(n, x, 0) == a * y == 1;
      assert Expansion(n + 1, x, 0) == 1;
      assert Expansion(n, x, 1) == b * (x * y) + 1;
    } else {
      ExpansionStep(n, x, k - 1);
      Distribute(x, a * y, Expansion(n, x, k - 2));
    }
  }

  lemma {:induction false} BinomialTheorem(n: nat, x: int)
    ensures Expansion(n, x, n) == Pow(x + 1, n)
  {
    if n > 0 {
      BinomialTheorem(n - 1, x);
      ExpansionStep(n - 1, x, n);
      BinomBeyond(n - 1, n);
      assert Expansion(n - 1, x, n) == Expansion(n - 1, x, n - 1);
      Distribute(Expansion(n - 1, x, n - 1), x, 1);
    }
  }

  lemma {:induction false} InnerTermsVanish(p: int, x: int, k: nat)
    requires Prime(p) && k < p
    ensures Congruent(Expansion(p, x, k), 1, p)
  {
    if k == 0 {
      DividesIntro(p, 0, 0);
    } else {
      InnerTermsVanish(p, x, k - 1);
      PrimeDividesBinom(p, k);
      DividesMultiple(p, Binom(p, k), Pow(x, k));
      DividesSum(p, Expansion(p, x, k - 1) - 1, Binom(p, k) * Pow(x, k));
    }
  }

  /** Fermat: x^p = x modulo a prime p. */
  lemma {:induction false} Fermat(p: int, x: nat)
    requires Prime(p)
    ensures Congruent(Pow(x, p), x, p)
  {
    if x == 0 {
      assert Pow(0, p) == 0 * Pow(0, p - 1);
      DividesIntro(p, 0, 0);
    } else {
      var y := x - 1;
      Fermat(p, y);
      BinomialTheorem(p, y);
      InnerTermsVanish(p, y, p - 1);
      BinomBeyond(p, p);
      assert Pow(x, p) == Pow(y, p) + Expansion(p, y, p - 1);
      DividesSum(p, Pow(y, p) - y, Expansion(p, y, p - 1) - 1);
    }
  }

  lemma {:induction false} PowSum(x: int, m: nat, n: nat)
    ensures Pow(x, m + n) == Pow(x, m) * Pow(x, n)
  {
    if m > 0 {
      PowSum(x, m - 1, n);
    }
  }

  lemma {:induction false} PowProduct(x: int, m: nat, n: nat)
    ensures Pow(Pow(x, m), n) == Pow(x, m * n)
  {
    if n == 0 {
      assert m * n == 0;
    } else {
      PowProduct(x, m, n - 1);
      PowSum(x, m, m * (n - 1));
      assert m + m * (n - 1) == m * n;
    }
  }

  lemma FermatStep(p: int, x: nat, n: nat)
    requires Prime(p) && p > 1 && Congruent(Pow(x, n), x, p)
    ensures Congruent(Pow(x, n + (p - 1)), x, p)
  {
    Fermat(p, x);
    PowSum(x, n, p - 1);
    hide Prime, Pow, Divides;
    var y := Pow(x, p - 1);
    DividesMultiple(p, Pow(x, n) - x, y);
    Distribute(y, Pow(x, n), x);
    DividesSum(p, (Pow(x, n) - x) * y, x * y - x);
  }

  /** x^(1 + k(p-1)) = x modulo p, also for the multiples of p. */
  lemma {:induction false} FermatIterated(p: int, x: nat, k: nat)
    requires Prime(p)
    ensures k * (p - 1) >= 0
    ensures Congruent(Pow(x, 1 + k * (p - 1)), x, p)
  {
    assert p > 1;
    hide Prime;
    if k == 0 {
      assert Pow(x, 1) == x * Pow(x, 0);
      DividesIntro(p, 0, 0);
    } else {
      hide Pow, Congruent, Divides;
      FermatIterated(p, x, k - 1);
      Distribute(p - 1, k, 1);
      FermatStep(p, x, 1 + (k - 1) * (p - 1));
    }
  }

  /** Two distinct primes that divide m divide it together. */
  lemma CombinePrimes(p: int, q: int, m: int)
    requires Prime(p) && Prime(q) && p != q
    requires Divides(p, m) && Divides(q, m)
    ensures Divides(p * q, m)
  {
    var t := Quotient(q, m);
    EuclidLemma(p, q, t);
    PrimesDoNotDivide(p, q);
    var s := Quotient(p, t);
    Assoc(q, p, s);
    assert q * p == p * q;
    DividesIntro(p * q, m, s);
  }

  lemma PrimesDoNotDivide(p: int, q: int)
    requires Prime(p) && Prime(q) && p != q
    ensures !Divides(p, q)
  {
    if p > q {
      SmallNotDivided(p, q);
    }
  }
}
