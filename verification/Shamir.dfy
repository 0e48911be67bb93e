/** Secret sharing of amounts: any two different shares of one split reconstruct the same amount,
    the one that was split. */
module Shamir {

  /** The field order used for amounts (the scalar field of BN254). */
  const FIELD_ORDER := 21888242871839275222246405745257275088548364400416034343698204186575808495617

  datatype Share = Share(x: int, y: int)

  // ---------- modular inverse ----------

  /** Extended Euclid on (oldR, r) carrying the coefficients (oldS, s). */
  function Euclid(oldR: nat, r: nat, oldS: int, s: int): (nat, int)
    decreases r
  {
    if r == 0 then (oldR, oldS)
    else Euclid(r, oldR % r, s, oldS - (oldR / r) * s)
  }

  function ModInv(a: int, p: int): int
    requires p > 0
  {
    Euclid(a % p, p, 1, 0).1 % p
  }

  method ModInvLoop(a: int, p: int) returns (inverse: int)
    requires p > 0
    ensures inverse == ModInv(a, p)
  {
    var oldR: nat, r: nat := a % p, p;
    var oldS, s := 1, 0;
    while r != 0
      invariant Euclid(a % p, p, 1, 0) == Euclid(oldR, r, oldS, s)
      decreases r
    {
      var q := oldR / r;
      assert oldR - q * r == oldR % r;
      oldR, r := r, oldR - q * r;
      oldS, s := s, oldS - q * s;
    }
    inverse := oldS % p;
  }

  // ---------- splitting and reconstructing ----------

  /** Horner evaluation, reducing after every step. */
  function Eval(coeffs: seq<int>, x: int, p: int): int
    requires p > 0
  {
    if coeffs == [] then 0 else (Eval(coeffs[1..], x, p) * x + coeffs[0]) % p
  }

  /** The committee's split: threshold two, so one random coefficient besides the secret. */
  function Split(secret: int, coefficient: int, total: nat, p: int): seq<Share>
    requires p > 0
  {
    seq(total, i requires 0 <= i < total => Share(i + 1, Eval([secret % p, coefficient], i + 1, p)))
  }

  /** Numerator and denominator of the Lagrange factor of share i, over the first n shares. */
  function Factor(shares: seq<Share>, i: nat, n: nat, p: int): (int, int)
    requires i < |shares| && n <= |shares| && p > 0
  {
    if n == 0 then (1, 1)
    else
      var (num, den) := Factor(shares, i, n - 1, p);
      if i == n - 1 then (num, den)
      else (num * (-shares[n - 1].x % p) % p, den * (shares[i].x - shares[n - 1].x) % p)
  }

  function Interpolate(shares: seq<Share>, n: nat, p: int): int
    requires n <= |shares| && p > 0
  {
    if n == 0 then 0
    else
      var (num, den) := Factor(shares, n - 1, |shares|, p);
      (Interpolate(shares, n - 1, p) + shares[n - 1].y * (num * ModInv(den, p) % p) % p) % p
  }

  function Reconstruct(shares: seq<Share>, p: int): int
    requires p > 0
  {
    Interpolate(shares, |shares|, p)
  }

  method ReconstructLoop(shares: seq<Share>, p: int) returns (secret: int)
    requires p > 0
    ensures secret == Reconstruct(shares, p)
  {
    secret := 0;
    for i := 0 to |shares|
      invariant secret == Interpolate(shares, i, p)
    {
      var num, den := 1, 1;
      for j := 0 to |shares|
        invariant (num, den) == Factor(shares, i, j, p)
      {
        if i == j { continue; }
        num := num * (-shares[j].x % p) % p;
        den := den * (shares[i].x - shares[j].x) % p;
      }
      var inverse := ModInvLoop(den, p);
      secret := (secret + shares[i].y * (num * inverse % p) % p) % p;
    }
  }

  // ---------- congruences ----------

  ghost predicate Multiple(x: int, p: int) {
    exists k: int :: x == k * p
  }

  ghost predicate Cong(x: int, y: int, p: int) {
    Multiple(x - y, p)
  }

  lemma {:induction false} MultipleBy(x: int, k: int, p: int)
    requires x == k * p
    ensures Multiple(x, p)
  {
  }

  lemma {:induction false} CongMod(x: int, p: int)
    requires p > 0
    ensures Cong(x % p, x, p)
  {
    assert x % p - x == (-(x / p)) * p;
  }

  lemma {:induction false} CongSame(x: int, p: int)
    ensures Cong(x, x, p)
  {
    MultipleBy(x - x, 0, p);
  }

  lemma {:induction false} CongSum(x: int, y: int, u: int, v: int, p: int)
    requires Cong(x, y, p) && Cong(u, v, p)
    ensures Cong(x + u, y + v, p) && Cong(x - u, y - v, p)
  {
    var k :| x - y == k * p;
    var l :| u - v == l * p;
    MultipleBy(x + u - (y + v), k + l, p) by { assert (k + l) * p == k * p + l * p; }
    MultipleBy(x - u - (y - v), k - l, p) by { assert (k - l) * p == k * p - l * p; }
  }

  lemma {:induction false} CongScale(x: int, y: int, c: int, p: int)
    requires Cong(x, y, p)
    ensures Cong(c * x, c * y, p)
  {
    var k :| x - y == k * p;
    assert c * x - c * y == c * (x - y) == c * (k * p) == (c * k) * p;
  }

  lemma {:induction false} CongProduct(x: int, y: int, u: int, v: int, p: int)
    requires Cong(x, y, p) && Cong(u, v, p)
    ensures Cong(x * u, y * v, p)
  {
    CongScale(u, v, x, p);
    CongScale(x, y, v, p);
    CongTrans(x * u, x * v, y * v, p) by { assert v * x == x * v && v * y == y * v; }
  }

  lemma {:induction false} CongTrans(x: int, y: int, z: int, p: int)
    requires Cong(x, y, p) && Cong(y, z, p)
    ensures Cong(x, z, p)
  {
    var k :| x - y == k * p;
    var l :| y - z == l * p;
    MultipleBy(x - z, k + l, p) by { assert (k + l) * p == k * p + l * p; }
  }

  lemma {:induction false} CongSymmetric(x: int, y: int, p: int)
    requires Cong(x, y, p)
    ensures Cong(y, x, p)
  {
    var k :| x - y == k * p;
    MultipleBy(y - x, -k, p);
  }

  lemma {:induction false} ProductBounds(k: int, p: int)
    requires p > 0
    ensures k >= 1 ==> k * p >= p
    ensures k <= -1 ==> k * p <= -p
  {
    if k >= 1 {
      assert k * p == (k - 1) * p + p;
    } else if k <= -1 {
      assert k * p == (k + 1) * p - p;
    }
  }

  lemma {:induction false} CongReduced(x: int, y: int, p: int)
    requires p > 0 && 0 <= x < p && 0 <= y < p && Cong(x, y, p)
    ensures x == y
  {
    var k :| x - y == k * p;
    ProductBounds(k, p);
  }

  // ---------- correctness of the inverse ----------

  ghost predicate Divides(d: int, x: int) {
    Multiple(x, d)
  }

  ghost predicate Coprime(a: int, p: int) {
    forall d: int | d > 0 && Divides(d, a) && Divides(d, p) :: d == 1
  }

  lemma {:induction false} DividesStep(d: int, x: int, y: int, q: int)
    requires Divides(d, y) && Divides(d, x - q * y)
    ensures Divides(d, x)
  {
    var k :| y == k * d;
    var l :| x - q * y == l * d;
    MultipleBy(x, q * k + l, d) by { assert (q * k + l) * d == q * (k * d) + l * d; }
  }

  lemma {:induction false} CongStep(oldR: int, r: int, oldS: int, s: int, q: int, a: int, p: int)
    requires Cong(oldR, oldS * a, p) && Cong(r, s * a, p)
    ensures Cong(oldR - q * r, (oldS - q * s) * a, p)
  {
    CongScale(r, s * a, q, p);
    CongSum(oldR, oldS * a, q * r, q * (s * a), p);
    assert oldS * a - q * (s * a) == (oldS - q * s) * a;
  }

  lemma {:induction false} DividesZero(d: int)
    ensures Divides(d, 0)
  {
    MultipleBy(0, 0, d);
  }

  lemma {:induction false} DividesSelf(d: int)
    ensures Divides(d, d)
  {
    MultipleBy(d, 1, d);
  }

  /** Euclid ends at a common divisor of the start and keeps `oldR` congruent to `oldS * a`. */
  lemma {:induction false} EuclidInvariant(oldR: nat, r: nat, oldS: int, s: int, a: int, p: int)
    requires p > 0 && oldR + r > 0
    requires Cong(oldR, oldS * a, p) && Cong(r, s * a, p)
    ensures var (g, t) := Euclid(oldR, r, oldS, s);
            g > 0 && Cong(g, t * a, p) && Divides(g, oldR) && Divides(g, r)
    decreases r
  {
    if r == 0 {
      DividesSelf(oldR);
      DividesZero(oldR);
    } else {
      var q := oldR / r;
      assert oldR - q * r == oldR % r;
      CongStep(oldR, r, oldS, s, q, a, p);
      EuclidInvariant(r, oldR % r, s, oldS - q * s, a, p);
      DividesStep(Euclid(r, oldR % r, s, oldS - q * s).0, oldR, r, q);
    }
  }

  lemma {:induction false} DividesMod(d: int, a: int, p: int)
    requires p > 0 && Divides(d, a % p) && Divides(d, p)
    ensures Divides(d, a)
  {
    assert a - (a / p) * p == a % p;
    DividesStep(d, a, p, a / p);
  }

  lemma {:induction false} ModInvCorrect(a: int, p: int)
    requires p > 0 && Coprime(a, p)
    ensures Cong(ModInv(a, p) * a, 1, p)
  {
    CongMod(a, p);
    assert 1 * a == a;
    MultipleBy(p - 0 * a, 1, p);
    EuclidInvariant(a % p, p, 1, 0, a, p);
    var (g, t) := Euclid(a % p, p, 1, 0);
    DividesMod(g, a, p);
    assert g == 1;
    CongMod(t, p);
    CongScale(t % p, t, a, p);
    CongSymmetric(g, t * a, p);
    CongTrans((t % p) * a, t * a, g, p) by { assert a * (t % p) == (t % p) * a && a * t == t * a; }
  }

  // ---------- two shares give back the secret ----------

  /** The share lies on the line secret + coefficient * x, modulo p. */
  ghost predicate OnLine(sh: Share, secret: int, coefficient: int, p: int) {
    Cong(sh.y, secret + coefficient * sh.x, p)
  }

  lemma {:induction false} HornerTwo(secret: int, coefficient: int, x: int, p: int)
    requires p > 0
    ensures Eval([secret, coefficient], x, p) == ((coefficient % p) * x + secret) % p
  {
    assert [secret, coefficient][1..] == [coefficient] && [coefficient][1..] == [];
    assert Eval([coefficient], x, p) == (0 * x + coefficient) % p;
  }

  lemma {:induction false} SplitOnLine(secret: int, coefficient: int, total: nat, p: int, i: nat)
    requires p > 0 && i < total
    ensures OnLine(Split(secret, coefficient, total, p)[i], secret, coefficient, p)
  {
    var x := i + 1;
    HornerTwo(secret % p, coefficient, x, p);
    var inner := (coefficient % p) * x;
    CongMod(coefficient, p);
    CongSame(x, p);
    CongProduct(coefficient % p, coefficient, x, x, p);
    CongMod(secret, p);
    CongSum(inner, coefficient * x, secret % p, secret, p);
    CongMod(inner + secret % p, p);
    CongTrans((inner + secret % p) % p, inner + secret % p, coefficient * x + secret, p);
  }

  /** The second inverse is the negated first. */
  lemma {:induction false} OppositeInverse(d: int, u: int, v: int, p: int)
    requires Cong(u * d, 1, p) && Cong(v * -d, 1, p)
    ensures Cong(v, -u, p)
  {
    CongScale(u * d, 1, v, p);
    CongScale(v * -d, 1, u, p);
    assert v * (u * d) == -(u * (v * -d));
    CongSymmetric(v * (u * d), v * 1, p);
    CongSame(0, p);
    CongSum(0, 0, u * (v * -d), u * 1, p);
    CongTrans(v, v * (u * d), -u, p);
  }

  lemma {:induction false} LineValue(a: Share, b: Share, secret: int, c: int, u: int, p: int)
    requires OnLine(a, secret, c, p) && OnLine(b, secret, c, p) && Cong(u * (a.x - b.x), 1, p)
    ensures Cong(b.y * (-a.x * -u) + a.y * (-b.x * u), secret, p)
  {
    CongScale(b.y, secret + c * b.x, a.x * u, p);
    CongScale(a.y, secret + c * a.x, b.x * u, p);
    CongSum(a.x * u * b.y, a.x * u * (secret + c * b.x), b.x * u * a.y, b.x * u * (secret + c * a.x), p);
    assert b.y * (-a.x * -u) + a.y * (-b.x * u) == a.x * u * b.y - b.x * u * a.y;
    LineAlgebra(a.x, b.x, secret, c, u);
    CongScale(u * (a.x - b.x), 1, secret, p);
    CongTrans(a.x * u * b.y - b.x * u * a.y, secret * (u * (a.x - b.x)), secret * 1, p);
  }

  lemma {:induction false} LineAlgebra(x: int, z: int, secret: int, c: int, u: int)
    ensures x * u * (secret + c * z) - z * u * (secret + c * x) == secret * (u * (x - z))
  {
    assert x * u * (c * z) == z * u * (c * x);
  }

  lemma {:induction false} TermCong(y: int, num: int, den: int, n: int, u: int, p: int)
    requires p > 0 && Cong(num, n, p) && Cong(ModInv(den, p), u, p)
    ensures Cong(y * (num * ModInv(den, p) % p) % p, y * (n * u), p)
  {
    CongProduct(num, n, ModInv(den, p), u, p);
    var t := num * ModInv(den, p);
    CongMod(t, p);
    CongTrans(t % p, t, n * u, p);
    CongScale(t % p, n * u, y, p);
    CongMod(y * (t % p), p);
    CongTrans(y * (t % p) % p, y * (t % p), y * (n * u), p);
  }

  lemma {:induction false} CoprimeMod(a: int, p: int)
    requires p > 0 && Coprime(a, p)
    ensures Coprime(a % p, p) && Coprime(-a % p, p)
  {
    forall d: int | d > 0 && Divides(d, p) && (Divides(d, a % p) || Divides(d, -a % p)) ensures d == 1 {
      if Divides(d, a % p) {
        DividesMod(d, a, p);
      } else {
        DividesMod(d, -a, p);
        var k :| -a == k * d;
        MultipleBy(a, -k, d);
      }
    }
  }

  lemma {:induction false} ModTwice(x: int, p: int)
    requires p > 0
    ensures (1 * (x % p)) % p == x % p && (1 * x) % p == x % p
  {
    CongMod(x % p, p);
    CongReduced(x % p % p, x % p, p);
    assert 1 * x == x && 1 * (x % p) == x % p;
  }

  /** The factors of a two-share interpolation. */
  lemma {:induction false} TwoFactors(a: Share, b: Share, p: int)
    requires p > 0
    ensures Factor([a, b], 0, 2, p) == (-b.x % p, (a.x - b.x) % p)
    ensures Factor([a, b], 1, 2, p) == (-a.x % p, (b.x - a.x) % p)
  {
    ModTwice(-b.x, p);
    ModTwice(-a.x, p);
    ModTwice(a.x - b.x, p);
    ModTwice(b.x - a.x, p);
    assert Factor([a, b], 0, 1, p) == (1, 1);
    assert Factor([a, b], 1, 1, p) == (-a.x % p, (b.x - a.x) % p);
  }

  lemma {:induction false} InverseOfMod(d: int, p: int)
    requires p > 0 && Coprime(d, p)
    ensures Cong(ModInv(d % p, p) * d, 1, p)
  {
    CoprimeMod(d, p);
    ModInvCorrect(d % p, p);
    var v := ModInv(d % p, p);
    CongMod(d, p);
    CongScale(d % p, d, v, p);
    CongSymmetric(v * (d % p), v * d, p);
    CongTrans(v * d, v * (d % p), 1, p);
  }

  /** One summand of the interpolation, for positions negated `x` and differing by `d`. */
  ghost function Term(y: int, x: int, d: int, p: int): int
    requires p > 0
  {
    y * ((x % p) * ModInv(d % p, p) % p) % p
  }

  lemma {:induction false} TwoShareFormula(a: Share, b: Share, p: int)
    requires p > 0
    ensures Reconstruct([a, b], p) == (Term(a.y, -b.x, a.x - b.x, p) % p + Term(b.y, -a.x, b.x - a.x, p)) % p
  {
    TwoFactors(a, b, p);
    InterpolateStep([a, b], 0, -b.x, a.x - b.x, p);
    InterpolateStep([a, b], 1, -a.x, b.x - a.x, p);
  }

  lemma {:induction false} InterpolateStep(shares: seq<Share>, n: nat, x: int, d: int, p: int)
    requires p > 0 && n < |shares| && Factor(shares, n, |shares|, p) == (x % p, d % p)
    ensures Interpolate(shares, n + 1, p) == (Interpolate(shares, n, p) + Term(shares[n].y, x, d, p)) % p
  {
  }

  lemma {:induction false} ModOfSum(t: int, s: int, t': int, s': int, p: int)
    requires p > 0 && Cong(t, t', p) && Cong(s, s', p)
    ensures Cong((t % p + s) % p, t' + s', p)
  {
    CongMod(t, p);
    CongTrans(t % p, t, t', p);
    CongSum(t % p, t', s, s', p);
    CongMod(t % p + s, p);
    CongTrans((t % p + s) % p, t % p + s, t' + s', p);
  }

  lemma {:induction false} TermValue(y: int, x: int, d: int, u: int, p: int)
    requires p > 0 && Cong(ModInv(d % p, p), u, p)
    ensures Cong(Term(y, x, d, p), y * (x * u), p)
  {
    CongMod(x, p);
    TermCong(y, x % p, d % p, x, u, p);
  }

  /** Any two shares of one line, with an invertible difference of positions, give the secret. */
  lemma {:induction false} TwoSharesReconstruct(a: Share, b: Share, secret: int, c: int, p: int)
    requires p > 0 && Coprime(a.x - b.x, p)
    requires OnLine(a, secret, c, p) && OnLine(b, secret, c, p)
    ensures Reconstruct([a, b], p) == secret % p
  {
    var d := a.x - b.x;
    var u, r := ModInv(d % p, p), Reconstruct([a, b], p);
    InverseOfMod(d, p);
    CoprimeNegate(d, p);
    InverseOfMod(-d, p);
    OppositeInverse(d, u, ModInv(-d % p, p), p);
    CongSame(u, p);
    TermValue(a.y, -b.x, d, u, p);
    TermValue(b.y, -a.x, -d, -u, p);
    TwoShareFormula(a, b, p);
    ModOfSum(Term(a.y, -b.x, d, p), Term(b.y, -a.x, -d, p), a.y * (-b.x * u), b.y * (-a.x * -u), p);
    LineValue(a, b, secret, c, u, p);
    CongTrans(r, a.y * (-b.x * u) + b.y * (-a.x * -u), secret, p);
    CongMod(secret, p);
    CongSymmetric(secret % p, secret, p);
    CongTrans(r, secret, secret % p, p);
    CongReduced(r, secret % p, p);
  }

  lemma {:induction false} CoprimeNegate(a: int, p: int)
    requires Coprime(a, p)
    ensures Coprime(-a, p)
  {
    forall d: int | d > 0 && Divides(d, -a) && Divides(d, p) ensures d == 1 {
      var k :| -a == k * d;
      MultipleBy(a, -k, d);
    }
  }

  /** The positions of a committee of n nodes are pairwise invertible apart. */
  ghost predicate SeparatesPositions(p: int, n: nat) {
    p > 0 && forall d: int | 0 < d < n :: Coprime(d, p)
  }

  /** Any two different shares of a split into n reconstruct the secret that was split. */
  lemma {:induction false} AnyTwoSharesReconstruct(secret: int, coefficient: int, n: nat, i: nat, j: nat, p: int)
    requires SeparatesPositions(p, n) && i < n && j < n && i != j
    ensures var shares := Split(secret, coefficient, n, p); Reconstruct([shares[i], shares[j]], p) == secret % p
  {
    var shares := Split(secret, coefficient, n, p);
    SplitOnLine(secret, coefficient, n, p, i);
    SplitOnLine(secret, coefficient, n, p, j);
    if i < j {
      CoprimeNegate(j - i, p);
    }
    TwoSharesReconstruct(shares[i], shares[j], secret, coefficient, p);
  }

  ghost predicate Prime(p: int) {
    p > 1 && forall d: int | d > 1 && Divides(d, p) :: d == p
  }

  lemma {:induction false} DividesBound(d: int, x: int)
    requires d > 0 && x > 0 && Divides(d, x)
    ensures d <= x
  {
    var k :| x == k * d;
    ProductBounds(k, d);
  }

  lemma {:induction false} PrimeSeparates(p: int, n: nat)
    requires Prime(p) && n <= p
    ensures SeparatesPositions(p, n)
  {
    forall d: int | 0 < d < n ensures Coprime(d, p) {
      forall e: int | e > 0 && Divides(e, d) && Divides(e, p) ensures e == 1 {
        DividesBound(e, d);
      }
    }
  }

  lemma {:induction false} OddOrder()
    ensures !Divides(2, FIELD_ORDER)
  {
    forall k: int ensures FIELD_ORDER != k * 2 {
      assert FIELD_ORDER % 2 == 1 && (k * 2) % 2 == 0;
    }
  }

  /** The three-node committee needs only that the field order is odd. */
  lemma {:induction false} ThreeNodesSeparate()
    ensures SeparatesPositions(FIELD_ORDER, 3)
  {
    OddOrder();
    forall d: int | 0 < d < 3 ensures Coprime(d, FIELD_ORDER) {
      forall e: int | e > 0 && Divides(e, d) && Divides(e, FIELD_ORDER) ensures e == 1 {
        DividesBound(e, d);
      }
    }
  }

  /** Share i of a split stands at i + 1 on the line through the secret. */
  lemma {:induction false} SplitExact(secret: int, coefficient: int, total: nat, p: int, i: nat)
    requires p > 0 && i < total
    ensures |Split(secret, coefficient, total, p)| == total
    ensures Split(secret, coefficient, total, p)[i] == Share(i + 1, (secret + coefficient * (i + 1)) % p)
  {
    var y, line := Split(secret, coefficient, total, p)[i].y, secret + coefficient * (i + 1);
    SplitOnLine(secret, coefficient, total, p, i);
    CongMod(line, p);
    CongSymmetric(line % p, line, p);
    CongTrans(y, line, line % p, p);
    HornerTwo(secret % p, coefficient, i + 1, p);
    CongReduced(y, line % p, p);
  }

  /** The field order in hexadecimal, as the curve's parameters give it. */
  lemma {:induction false} FieldOrderInHex()
    ensures FIELD_ORDER == 0x30644e72_e131a029_b85045b6_8181585d_2833e848_79b97091_43e1f593_f0000001
  {
  }
}
