/**
 * Arithmetic modulo a prime, as the big-integer library's ModularArithmetic
 * performs it, and the facts about it the cryptographic protocols rest on.
 */
module ModularArithmetic {

  ghost predicate Prime(p: int) {
    p >= 2 && forall d :: 1 < d < p ==> p % d != 0
  }

  // ---- congruence ----

  ghost predicate Cong(a: int, b: int, p: int)
    requires p > 0
  {
    (a - b) % p == 0
  }

  lemma MulBound(k: int, p: int)
    requires p > 0
    ensures k >= 1 ==> k * p >= p
    ensures k <= -1 ==> k * p <= -p
  {
  }

  lemma MultipleMod(k: int, p: int)
    requires p > 0
    ensures (k * p) % p == 0
  {
    var q, r := (k * p) / p, (k * p) % p;
    assert (k - q) * p == r;
    MulBound(k - q, p);
  }

  // ---- products ----

  function Product(a: nat, b: nat): (r: nat)
    ensures r == a * b
  {
    assert a * b >= 0;
    a * b
  }

  lemma Distribute(a: int, b: int, m: int)
    ensures (a + b) * m == a * m + b * m && m * (a + b) == m * a + m * b
  {
  }

  lemma ProductOrder(a: int, b: int, m: nat)
    requires a <= b
    ensures a * m <= b * m && m * a <= m * b
    ensures a >= 0 ==> 0 <= a * m && 0 <= m * a
  {
  }

  // ---- quotients ----

  lemma ModBelow(a: nat, m: nat)
    requires m > 0
    ensures 0 <= a % m < m && (a % m == a <==> a < m)
  {
  }

  lemma FloorShift(q: nat, r: nat, m: nat)
    requires r < m
    ensures 0 <= q * m && (q * m + r) / m == q && (q * m + r) % m == r
  {
    ProductOrder(0, q, m);
    var n := q * m + r;
    assert n == (n / m) * m + n % m;
    Distribute(n / m, 0 - q, m);
    MulBound(n / m - q, m);
  }

  lemma QuotientBelow(a: nat, m: nat)
    requires m > 0
    ensures 0 <= a / m <= a && 0 <= (a / m) * m <= a
  {
    var q := a / m;
    assert a == q * m + a % m;
    if q > 0 { MulBound(m, q); }
    if q < 0 { MulBound(q, m); }
  }

  lemma ExactQuotient(a: nat, m: nat)
    requires m > 0
    ensures (a * m) / m == a
  {
    var q := (a * m) / m;
    assert (a - q) * m == (a * m) % m;
    MulBound(a - q, m);
  }

  lemma FloorSum(a: nat, b: nat, m: nat)
    requires m > 0
    ensures a / m + b / m <= (a + b) / m
  {
    var x, y, z := a / m, b / m, (a + b) / m;
    assert a == x * m + a % m && b == y * m + b % m && a + b == z * m + (a + b) % m;
    assert (x + y - z) * m == (a + b) % m - a % m - b % m;
    MulBound(x + y - z, m);
  }

  lemma FloorMonotone(a: nat, b: nat, m: nat)
    requires m > 0 && a <= b
    ensures 0 <= a / m <= b / m
  {
    FloorSum(a, b - a, m);
    FloorSum(0, a, m);
    MulBound(a / m, m);
    MulBound((b - a) / m, m);
  }

  // ---- cofactors ----

  /** A multiple of p, with its cofactor. */
  lemma Cofactor(x: int, p: int) returns (k: int)
    requires p > 0 && x % p == 0
    ensures x == k * p
  {
    k := x / p;
  }

  lemma CongFrom(a: int, b: int, k: int, p: int)
    requires p > 0 && a - b == k * p
    ensures Cong(a, b, p)
  {
    MultipleMod(k, p);
  }

  lemma CongMod(a: int, p: int)
    requires p > 0
    ensures Cong(a % p, a, p) && Cong(a, a % p, p)
  {
    CongFrom(a, a % p, a / p, p);
    CongFrom(a % p, a, -(a / p), p);
  }

  lemma CongSym(a: int, b: int, p: int)
    requires p > 0 && Cong(a, b, p)
    ensures Cong(b, a, p)
  {
    var k := Cofactor(a - b, p);
    CongFrom(b, a, -k, p);
  }

  lemma CongTrans(a: int, b: int, c: int, p: int)
    requires p > 0 && Cong(a, b, p) && Cong(b, c, p)
    ensures Cong(a, c, p)
  {
    var k := Cofactor(a - b, p);
    var l := Cofactor(b - c, p);
    assert a - c == (k + l) * p;
    CongFrom(a, c, k + l, p);
  }

  lemma CongAdd(a: int, b: int, c: int, d: int, p: int)
    requires p > 0 && Cong(a, b, p) && Cong(c, d, p)
    ensures Cong(a + c, b + d, p) && Cong(a - c, b - d, p)
  {
    var k := Cofactor(a - b, p);
    var l := Cofactor(c - d, p);
    assert (a + c) - (b + d) == (k + l) * p;
    CongFrom(a + c, b + d, k + l, p);
    assert (a - c) - (b - d) == (k - l) * p;
    CongFrom(a - c, b - d, k - l, p);
  }

  lemma CongMul(a: int, b: int, c: int, d: int, p: int)
    requires p > 0 && Cong(a, b, p) && Cong(c, d, p)
    ensures Cong(a * c, b * d, p)
  {
    var k := Cofactor(a - b, p);
    var l := Cofactor(c - d, p);
    assert a == b + k * p && c == d + l * p;
    assert a * c - b * d == (k * d + b * l + k * l * p) * p by {
      assert (b + k * p) * (d + l * p) == b * d + b * (l * p) + (k * p) * d + (k * p) * (l * p);
      assert b * (l * p) == (b * l) * p;
      assert (k * p) * d == (k * d) * p;
      assert (k * p) * (l * p) == (k * l * p) * p;
    }
    CongFrom(a * c, b * d, k * d + b * l + k * l * p, p);
  }

  /** Congruent residues are equal. */
  lemma CongResidues(a: int, b: int, p: int)
    requires p > 0 && Cong(a, b, p) && 0 <= a < p && 0 <= b < p
    ensures a == b
  {
    var k := Cofactor(a - b, p);
    MulBound(k, p);
  }

  lemma CongSameMod(a: int, b: int, p: int)
    requires p > 0
    ensures Cong(a, b, p) <==> a % p == b % p
  {
    CongMod(a, p);
    CongMod(b, p);
    if Cong(a, b, p) {
      CongTrans(a % p, a, b, p);
      CongTrans(a % p, b, b % p, p);
      CongResidues(a % p, b % p, p);
    }
    if a % p == b % p {
      CongTrans(a, a % p, b, p);
    }
  }

  // ---- the library's operations ----

  /** One conditional subtraction: reduced operands give a reduced sum. */
  function Add(a: int, b: int, p: int): int {
    if a + b >= p then a + b - p else a + b
  }

  /** The additive inverse. */
  function Inverse(a: int, p: int): int {
    if a == 0 then 0 else p - a
  }

  function Multiply(a: int, b: int, p: int): int
    requires p > 0
  {
    (a * b) % p
  }

  function Power(a: int, n: nat): int {
    if n == 0 then 1 else a * Power(a, n - 1)
  }

  function Exponentiate(a: int, n: nat, p: int): int
    requires p > 0
  {
    Power(a, n) % p
  }

  /** The multiplicative inverse modulo a prime; 0 when there is none. */
  function MultiplicativeInverse(a: int, p: int): int
    requires Prime(p)
  {
    if a % p == 0 then 0 else InverseOf(a % p, p)
  }

  function InverseOf(a: int, p: int): (x: int)
    requires Prime(p) && 0 < a < p
    ensures 0 <= x < p && (a * x) % p == 1
    decreases a
  {
    if a == 1 then 1
    else
      var y := InverseOf(p % a, p);
      InverseStep(a, p, y);
      (-(p / a) * y) % p
  }

  lemma InverseStep(a: int, p: int, y: int)
    requires p >= 2 && 1 < a < p
    requires ((p % a) * y) % p == 1
    ensures (a * ((-(p / a) * y) % p)) % p == 1
  {
    var q, r := p / a, p % a;
    var x := -q * y;
    assert r == p - q * a;
    assert a * x == r * y - y * p by {
      assert (p - q * a) * y == p * y - q * a * y;
    }
    CongFrom(a * x, r * y, -y, p);
    CongMod(x, p);
    assert Cong(a, a, p) by { CongFrom(a, a, 0, p); }
    CongMul(a, a, x % p, x, p);
    CongTrans(a * (x % p), a * x, r * y, p);
    CongSameMod(a * (x % p), r * y, p);
  }

  // ---- facts about them ----

  lemma AddCong(a: int, b: int, p: int)
    requires p > 0 && 0 <= a < p && 0 <= b < p
    ensures 0 <= Add(a, b, p) < p && Cong(Add(a, b, p), a + b, p)
  {
    CongFrom(Add(a, b, p), a + b, if a + b >= p then -1 else 0, p);
  }

  lemma InverseCong(a: int, p: int)
    requires p > 0 && 0 <= a < p
    ensures 0 <= Inverse(a, p) < p && Cong(Inverse(a, p), -a, p)
  {
    CongFrom(Inverse(a, p), -a, if a == 0 then 0 else 1, p);
  }

  lemma MultiplyCong(a: int, b: int, p: int)
    requires p > 0
    ensures 0 <= Multiply(a, b, p) < p && Cong(Multiply(a, b, p), a * b, p)
  {
    CongMod(a * b, p);
  }

  lemma InverseWorks(a: int, p: int)
    requires Prime(p) && a % p != 0
    ensures 0 <= MultiplicativeInverse(a, p) < p
    ensures Cong(a * MultiplicativeInverse(a, p), 1, p)
  {
    var x := MultiplicativeInverse(a, p);
    CongMod(a, p);
    assert Cong(x, x, p) by { CongFrom(x, x, 0, p); }
    CongMul(a, a % p, x, x, p);
    CongMod((a % p) * x, p);
    CongTrans(a * x, (a % p) * x, 1, p);
  }

  /** A prime that divides a product divides a factor. */
  lemma PrimeDivides(a: int, b: int, p: int)
    requires Prime(p) && (a * b) % p == 0
    ensures a % p == 0 || b % p == 0
  {
    if a % p != 0 {
      InverseWorks(a, p);
      var x := MultiplicativeInverse(a, p);
      assert Cong(b, b, p) by { CongFrom(b, b, 0, p); }
      CongMul(a * x, 1, b, b, p);
      assert Cong(x, x, p) by { CongFrom(x, x, 0, p); }
      CongMul(a * b, 0, x, x, p);
      assert a * x * b == a * b * x;
      CongSym(a * x * b, b, p);
      CongTrans(b, a * b * x, 0, p);
    }
  }

  /** Modulo a prime, nonzero factors can be cancelled. */
  lemma Cancel(a: int, b: int, c: int, p: int)
    requires Prime(p) && c % p != 0 && Cong(a * c, b * c, p)
    ensures Cong(a, b, p)
  {
    assert a * c - b * c == (a - b) * c;
    PrimeDivides(a - b, c, p);
  }

  // ---- powers ----

  lemma {:induction false} PowerAdd(a: int, m: nat, n: nat)
    ensures Power(a, m + n) == Power(a, m) * Power(a, n)
  {
    if m > 0 {
      PowerAdd(a, m - 1, n);
      assert Power(a, m + n) == a * Power(a, m - 1 + n);
      assert a * (Power(a, m - 1) * Power(a, n)) == (a * Power(a, m - 1)) * Power(a, n);
    }
  }

  lemma {:induction false} PowerMul(a: int, m: nat, n: nat)
    ensures 0 <= m * n
    ensures Power(a, m * n) == Power(Power(a, m), n)
    decreases n
  {
    if n == 0 {
      assert m * 0 == 0;
    } else {
      PowerMul(a, m, n - 1);
      assert m * n == m + m * (n - 1);
      PowerAdd(a, m, m * (n - 1));
    }
  }

  lemma {:induction false} PowerTimes(a: int, b: int, n: nat)
    ensures Power(a * b, n) == Power(a, n) * Power(b, n)
  {
    if n > 0 {
      PowerTimes(a, b, n - 1);
      var x, y := Power(a, n - 1), Power(b, n - 1);
      Regroup(a, b, x, y);
    }
  }

  lemma Regroup(a: int, b: int, x: int, y: int)
    ensures (a * b) * (x * y) == (a * x) * (b * y)
  {
    assert (a * b) * (x * y) == a * (b * (x * y));
    assert b * (x * y) == x * (b * y);
    assert a * (x * (b * y)) == (a * x) * (b * y);
  }

  lemma {:induction false} PowerCong(a: int, b: int, n: nat, p: int)
    requires p > 0 && Cong(a, b, p)
    ensures Cong(Power(a, n), Power(b, n), p)
  {
    if n == 0 {
      CongFrom(1, 1, 0, p);
    } else {
      PowerCong(a, b, n - 1, p);
      CongMul(a, b, Power(a, n - 1), Power(b, n - 1), p);
    }
  }

  lemma {:induction false} PowerUnit(a: int, n: nat, p: int)
    requires Prime(p) && a % p != 0
    ensures Power(a, n) % p != 0
  {
    if n > 0 {
      PowerUnit(a, n - 1, p);
      if (a * Power(a, n - 1)) % p == 0 {
        PrimeDivides(a, Power(a, n - 1), p);
      }
    }
  }
}
