/** The consistency check of an RSA secret key: what a key that passes it is good for, and
    exactly which keys pass. */
module RsaKeyCheck {
  import opened Common
  import opened NumberTheory

  /** The secret key as the check sees and changes it. */
  class SecretKey {
    var n: nat
    var e: nat
    var d: nat
    var p: nat
    var q: nat
    var u: nat

    constructor (n: nat, e: nat, d: nat, p: nat, q: nat, u: nat)
      ensures this.n == n && this.e == e && this.d == d && this.p == p && this.q == q && this.u == u
    {
      this.n, this.e, this.d, this.p, this.q, this.u := n, e, d, p, q, u;
    }
  }

  /** gcry_mpi_invm: the inverse if there is one; the result means nothing otherwise. */
  method Invm(a: nat, m: nat) returns (x: nat)
    requires m > 0
    ensures (exists y :: IsInverse(y, a, m)) ==> IsInverse(x, a, m)
  {
    if y :| 0 <= y < m && (a * y - 1) % m == 0 {
      DividesIsMod(m, a * y - 1);
      x := y;
    } else {
      forall y | IsInverse(y, a, m) ensures false {
        DividesIsMod(m, a * y - 1);
      }
      x := *;
    }
  }

  function Lcm(a: nat, b: nat): (l: nat)
    requires a > 0 && b > 0
  {
    a * b / Gcd(a, b)
  }

  /** The two quotients that make phi / gcd a common multiple. */
  lemma LcmIsCommonMultiple(a: nat, b: nat)
    requires a > 0 && b > 0
    ensures Lcm(a, b) > 0
    ensures Divides(a, Lcm(a, b)) && Divides(b, Lcm(a, b)) && Divides(Lcm(a, b), a * b)
  {
    var g := Gcd(a, b);
    GcdDivides(a, b);
    var i := Quotient(g, a);
    var j := Quotient(g, b);
    var l := a * j;
    Assoc(a, g, j);
    assert a * b == g * l;
    DivideExactly(g, l);
    assert Lcm(a, b) == l;
    Assoc(g, i, j);
    assert l == b * i;
    DividesIntro(a, l, j);
    DividesIntro(b, l, i);
    DividesIntro(l, a * b, g);
    if j <= 0 {
      ProductBound(g, j);
    }
    ProductBound(a, j);
  }

  lemma DivideExactly(g: int, l: int)
    requires g > 0
    ensures g * l / g == l
  {
    var q, r := g * l / g, g * l % g;
    MultipleMod(g, g * l, l);
    assert g * l == g * q + r;
    Distribute(g, l, q);
    ProductBound(g, l - q);
  }

  /** A common multiple of a and b is a multiple of their Lcm. */
  lemma LcmDividesCommonMultiples(a: nat, b: nat, m: int)
    requires a > 0 && b > 0 && Divides(a, m) && Divides(b, m)
    ensures Divides(Lcm(a, b), m)
  {
    // g = s*a + t*b, hence g*m = s*a*m + t*b*m is a multiple of a*b = g*l
    var g, l := Gcd(a, b), Lcm(a, b);
    var s, t := Bezout(a, b);
    var x := Quotient(a, m);
    var y := Quotient(b, m);
    GcdDivides(a, b);
    var j := Quotient(g, b);
    Assoc(a, g, j);
    DivideExactly(g, a * j);
    assert a * b == g * l;
    var w := s * y + t * x;
    assert g * m == (a * b) * w by {
      Distribute(m, s * a, t * b);
      Assoc(s * a, b, y);
      Assoc(a, b, s * y);
      Assoc(t * b, a, x);
      ProductsAgree(a, b, s, y, x, t, m);
      Distribute(a * b, s * y, t * x);
    }
    Assoc(g, l, w);
    CancelFactor(g, m, l * w);
    DividesIntro(l, m, w);
  }

  lemma ProductsAgree(a: int, b: int, s: int, y: int, x: int, t: int, m: int)
    requires m == a * x == b * y
    ensures (s * a) * m == (a * b) * (s * y)
    ensures (t * b) * m == (a * b) * (t * x)
  {
    Assoc(s * a, b, y);
    Assoc(a, s, b * y);
    Assoc(s, b, y);
    Assoc(a, b, s * y);
    Assoc(t * b, a, x);
    Assoc(b, t, a * x);
    Assoc(t, a, x);
    Assoc(b, a, t * x);
  }

  lemma CancelFactor(g: int, x: int, y: int)
    requires g > 0 && g * x == g * y
    ensures x == y
  {
    Distribute(g, x, y);
    ProductBound(g, x - y);
  }

  // ---------- what the check promises ----------

  /** The secret exponent belongs to the public one, modulo phi or modulo the universal
      exponent. */
  ghost predicate ExponentMatches(d: int, e: int, p: nat, q: nat)
    requires p > 1 && q > 1
  {
    || IsInverse(d, e, Phi(p, q))
    || IsInverse(d, e, Lcm(p - 1, q - 1))
  }

  function Phi(p: nat, q: nat): (phi: nat)
    requires p > 1 && q > 1
    ensures phi > 0
  {
    ProductBound(p - 1, q - 1);
    (p - 1) * (q - 1)
  }

  /** The inverses that the check computes exist. */
  predicate Determined(e: nat, p: nat, q: nat)
    requires p > 1 && q > 1
  {
    Coprime(p, q) && Coprime(e, Phi(p, q))
  }

  /** Exactly the keys that pass, in terms of the primes in ascending order. */
  ghost predicate Consistent(n: nat, e: nat, d: nat, p: nat, q: nat, u: nat)
    requires p > 1 && q > 1
  {
    && n == p * q
    && !Divides(e, p - 1)
    && !Divides(e, q - 1)
    && ExponentMatches(d, e, p, q)
    && IsInverse(u, p, q)
  }

  /** rsa_key_check.  The factors come out in ascending order, with u recomputed when they had
      to be swapped; the other parameters stay.  The factors and the exponent need not be
      prime: what the comparisons with inverses say depends only on what is coprime. */
  method Check(k: SecretKey) returns (ok: bool)
    requires k.p > 1 && k.q > 1 && k.e > 0
    modifies k
    ensures k.n == old(k.n) && k.e == old(k.e) && k.d == old(k.d)
    ensures k.p == Min(old(k.p), old(k.q)) && k.q == Max(old(k.p), old(k.q))
    ensures old(k.p <= k.q) ==> k.u == old(k.u)
    ensures old(k.p > k.q) && Coprime(k.p, k.q) ==> IsInverse(k.u, k.p, k.q)
    ensures ok ==> k.n == k.p * k.q && !Divides(k.e, k.p - 1) && !Divides(k.e, k.q - 1)
    ensures Determined(k.e, k.p, k.q) ==> (ok <==> Consistent(k.n, k.e, k.d, k.p, k.q, k.u))
    ensures Prime(k.p) && Prime(k.q) && k.p != k.q && Prime(k.e) ==>
              (ok <==> Consistent(k.n, k.e, k.d, k.p, k.q, k.u))
  {
    hide Consistent, IsInverse, Prime, Coprime, Determined, ExponentMatches;
    var errors := 0;
    var t := k.p * k.q;
    if t != k.n {
      errors := errors + 1;
    }
    if k.p > k.q {
      var tmp := k.p;
      k.p := k.q;
      k.q := tmp;
      k.u := Inverse(k.p, k.q);
    }
    t := k.p - 1;
    DividesIsMod(k.e, t);
    t := t % k.e;
    if t == 0 {
      errors := errors + 1;
    }
    t := k.q - 1;
    DividesIsMod(k.e, t);
    t := t % k.e;
    if t == 0 {
      errors := errors + 1;
    }
    var t1, t2 := k.p - 1, k.q - 1;
    assert t1 * t2 == Phi(k.p, k.q);
    var badExponent := ExponentError(k.d, k.e, t1, t2);
    if badExponent {
      errors := errors + 1;
    }
    t := Inverse(k.p, k.q);
    if t != k.u {
      errors := errors + 1;
    }
    ok := errors == 0;
    Outcome(k.n, k.e, k.d, k.p, k.q, k.u, badExponent, t);
  }

  /** gcry_mpi_invm, for coprime numbers. */
  method Inverse(a: nat, m: nat) returns (x: nat)
    requires m > 0
    ensures Coprime(a, m) ==> IsInverse(x, a, m)
  {
    hide IsInverse, Coprime;
    if Coprime(a, m) {
      CoprimeIsInvertible(a, m);
    }
    x := Invm(a, m);
  }

  /** The tests together, whatever the comparisons with meaningless inverses gave. */
  lemma Outcome(n: nat, e: nat, d: nat, p: nat, q: nat, u: nat, badExponent: bool, t: int)
    requires 1 < p <= q && e > 0
    requires Coprime(e, Phi(p, q)) ==>
               (badExponent <==> !(IsInverse(d, e, Phi(p, q)) || IsInverse(d, e, Lcm(p - 1, q - 1))))
    requires Coprime(p, q) ==> IsInverse(t, p, q)
    ensures
      var ok := n == p * q && !Divides(e, p - 1) && !Divides(e, q - 1) && !badExponent && t == u;
      && (Determined(e, p, q) ==> (ok <==> Consistent(n, e, d, p, q, u)))
      && (Prime(p) && Prime(q) && p != q && Prime(e) ==> (ok <==> Consistent(n, e, d, p, q, u)))
  {
    hide IsInverse, Prime, Coprime, Divides;
    if Coprime(p, q) {
      OnlyInverse(t, u, p, q);
    }
    if Prime(p) && Prime(q) && p != q && Prime(e) {
      PrimesDoNotDivide(p, q);
      PrimeIsCoprime(p, q);
      if !Divides(e, p - 1) && !Divides(e, q - 1) {
        assert Phi(p, q) == (p - 1) * (q - 1);
        PrimeExponentCoprime(e, p - 1, q - 1);
      }
    }
  }

  lemma PrimeExponentCoprime(e: nat, a: nat, b: nat)
    requires Prime(e) && !Divides(e, a) && !Divides(e, b) && a * b >= 0
    ensures Coprime(e, a * b)
  {
    if Divides(e, a * b) {
      EuclidLemma(e, a, b);
    }
    PrimeIsCoprime(e, a * b);
  }

  /** The test of the secret exponent: modulo phi first and then modulo phi / gcd. */
  method ExponentError(d: nat, e: nat, t1: nat, t2: nat) returns (bad: bool)
    requires t1 > 0 && t2 > 0 && t1 * t2 > 0
    ensures Coprime(e, t1 * t2) ==> (bad <==> !(IsInverse(d, e, t1 * t2) || IsInverse(d, e, Lcm(t1, t2))))
  {
    hide IsInverse, Coprime;
    var phi := t1 * t2;
    LcmIsCommonMultiple(t1, t2);
    if Coprime(e, phi) {
      CoprimeToDivisor(e, phi, Lcm(t1, t2));
    }
    bad := false;
    var t := Inverse(e, phi);
    if Coprime(e, phi) {
      OnlyInverse(t, d, e, phi);
    }
    if t != d {
      t := Gcd(t1, t2);
      t := phi / t;
      t := Inverse(e, t);
      if Coprime(e, phi) {
        OnlyInverse(t, d, e, Lcm(t1, t2));
      }
      bad := t != d;
    }
  }

  lemma OnlyInverse(t: int, x: int, a: int, m: int)
    requires IsInverse(t, a, m)
    ensures t == x <==> IsInverse(x, a, m)
  {
    if IsInverse(x, a, m) {
      InverseIsUnique(t, x, a, m);
    }
  }

  /** Either way of choosing d makes it the inverse of e modulo the universal exponent. */
  lemma ExponentModLcm(d: int, e: int, p: nat, q: nat)
    requires p > 1 && q > 1 && ExponentMatches(d, e, p, q)
    ensures Congruent(e * d, 1, Lcm(p - 1, q - 1))
  {
    LcmIsCommonMultiple(p - 1, q - 1);
    if IsInverse(d, e, (p - 1) * (q - 1)) {
      DividesTrans(Lcm(p - 1, q - 1), (p - 1) * (q - 1), e * d - 1);
    }
  }

  /** What the test that e divides neither p-1 nor q-1 protects: if it does, no secret exponent
      belongs to e at all. */
  lemma DivisorHasNoInverse(d: int, e: int, p: nat, q: nat)
    requires p > 1 && q > 1 && e > 1 && (Divides(e, p - 1) || Divides(e, q - 1))
    ensures !ExponentMatches(d, e, p, q)
  {
    LcmIsCommonMultiple(p - 1, q - 1);
    var l := Lcm(p - 1, q - 1);
    if Divides(e, p - 1) {
      DividesTrans(e, p - 1, l);
    } else {
      DividesTrans(e, q - 1, l);
    }
    DividesTrans(e, l, (p - 1) * (q - 1));
    NotInvertible(e, l, d);
    NotInvertible(e, (p - 1) * (q - 1), d);
  }

  /** A key whose exponents belong together decrypts what it encrypts, also with an exponent e
      that is not prime: (x^e)^d = x modulo n for every x. */
  lemma DecryptsWhatItEncrypts(n: nat, e: nat, d: nat, p: nat, q: nat, x: nat)
    requires Prime(p) && Prime(q) && p != q && n == p * q && ExponentMatches(d, e, p, q)
    ensures Congruent(Pow(Pow(x, e), d), x, n)
  {
    ExponentModLcm(d, e, p, q);
    LcmIsCommonMultiple(p - 1, q - 1);
    DividesTrans(p - 1, Lcm(p - 1, q - 1), e * d - 1);
    DividesTrans(q - 1, Lcm(p - 1, q - 1), e * d - 1);
    ExponentPositive(e, d, Max(p, q));
    assert e * d == d * e;
    ExponentPositive(d, e, Max(p, q));
    PowProduct(x, e, d);
    ModuloOnePrime(p, e, d, x);
    ModuloOnePrime(q, e, d, x);
    CombinePrimes(p, q, Pow(x, e * d) - x);
  }

  lemma ModuloOnePrime(p: nat, e: nat, d: nat, x: nat)
    requires Prime(p) && e > 0 && d > 0 && Divides(p - 1, e * d - 1)
    ensures e * d >= 0
    ensures Congruent(Pow(x, e * d), x, p)
  {
    var k := Quotient(p - 1, e * d - 1);
    ProductBound(e, d);
    ProductBound(p - 1, k);
    FermatIterated(p, x, k);
    assert k * (p - 1) == (p - 1) * k;
  }

  /** Only modulo 1 is 0 an inverse, and the larger prime is at least 3. */
  lemma ExponentPositive(e: int, d: nat, p: nat)
    requires p > 2 && Divides(p - 1, e * d - 1)
    ensures d > 0
  {
    if d == 0 {
      var k := Quotient(p - 1, e * d - 1);
      ProductBound(p - 1, k);
    }
  }

  /** One small key with all that the theorems ask for: 5 times 11, exponents 3 and 27. */
  lemma SmallKey(x: nat)
    ensures Prime(5) && Prime(11) && ExponentMatches(27, 3, 5, 11)
    ensures Congruent(Pow(Pow(x, 3), 27), x, 55)
  {
    SmallPrime(5);
    SmallPrime(11);
    DividesIsMod(40, 3 * 27 - 1);
    assert 3 * 27 == 27 * 3;
    DecryptsWhatItEncrypts(55, 3, 27, 5, 11, x);
  }

  lemma SmallPrime(p: nat)
    requires p == 5 || p == 11
    ensures Prime(p)
  {
    forall d | 1 < d < p ensures !Divides(d, p) {
      DividesIsMod(d, p);
      assert d == 2 || d == 3 || d == 4 || d == 5 || d == 6 || d == 7 || d == 8 || d == 9 || d == 10;
    }
  }
}
