/**
 * Splitting a key into shares and joining it again: Shamir's scheme over the
 * integers modulo a prime, with the library's modular operations.
 */
module ShamirSecrets {
  import opened ModularArithmetic
  import opened Polynomials

  /** A share: abscissa and value. */
  type Point = (int, int)

  /** A share of the polynomial `coef` at a reduced, nonzero abscissa. */
  ghost predicate IsShare(s: Point, coef: seq<int>, p: int)
    requires p > 0
  {
    0 < s.0 < p && 0 <= s.1 < p && Cong(s.1, Eval(coef, s.0), p)
  }

  ghost predicate Shares(split: seq<Point>, coef: seq<int>, p: int)
    requires p > 0
  {
    && (forall i :: 0 <= i < |split| ==> IsShare(split[i], coef, p))
    && (forall i, j :: 0 <= i < j < |split| ==> split[i].0 != split[j].0)
  }

  // ---- what calculate_secret computes ----

  /** The product of the negated abscissas of the first n points that differ from point i. */
  function Numerator(split: seq<Point>, i: nat, n: nat, p: int): int
    requires p > 0 && i < |split| && n <= |split|
  {
    if n == 0 then 1
    else if split[n - 1] == split[i] then Numerator(split, i, n - 1, p)
    else Multiply(Inverse(split[n - 1].0, p), Numerator(split, i, n - 1, p), p)
  }

  function Denominator(split: seq<Point>, i: nat, n: nat, p: int): int
    requires p > 0 && i < |split| && n <= |split|
  {
    if n == 0 then 1
    else if split[n - 1] == split[i] then Denominator(split, i, n - 1, p)
    else Multiply(Add(split[i].0, Inverse(split[n - 1].0, p), p), Denominator(split, i, n - 1, p), p)
  }

  function Term(split: seq<Point>, i: nat, p: int): int
    requires Prime(p) && i < |split|
  {
    Multiply(Multiply(MultiplicativeInverse(Denominator(split, i, |split|, p), p), Numerator(split, i, |split|, p), p),
             split[i].1, p)
  }

  function Reconstruct(split: seq<Point>, n: nat, p: int): int
    requires Prime(p) && n <= |split|
  {
    if n == 0 then 0 else Add(Term(split, n - 1, p), Reconstruct(split, n - 1, p), p)
  }

  // ---- why it is the secret ----

  function Abscissas(split: seq<Point>): (xs: seq<int>)
    ensures |xs| == |split| && forall i :: 0 <= i < |split| ==> xs[i] == split[i].0
  {
    seq(|split|, i requires 0 <= i < |split| => split[i].0)
  }

  function Values(split: seq<Point>): (ys: seq<int>)
    ensures |ys| == |split| && forall i :: 0 <= i < |split| ==> ys[i] == split[i].1
  {
    seq(|split|, i requires 0 <= i < |split| => split[i].1)
  }

  ghost predicate Reduced(split: seq<Point>, p: int) {
    && (forall i :: 0 <= i < |split| ==> 0 < split[i].0 < p && 0 <= split[i].1 < p)
    && (forall i, j :: 0 <= i < j < |split| ==> split[i].0 != split[j].0)
  }

  lemma AbscissasDistinct(split: seq<Point>, p: int)
    requires p > 0 && Reduced(split, p)
    ensures DistinctMod(Abscissas(split), p)
  {
    var xs := Abscissas(split);
    forall i, j | 0 <= i < j < |xs|
      ensures (xs[i] - xs[j]) % p != 0
    {
      ResiduesDiffer(xs[i], xs[j], p);
    }
  }

  lemma {:induction false} NumeratorIs(split: seq<Point>, i: nat, n: nat, p: int)
    requires p > 1 && Reduced(split, p) && i < |split| && n <= |split|
    ensures Cong(Numerator(split, i, n, p), ProductExcept(Abscissas(split), i, n, 0), p)
    decreases n
  {
    var xs := Abscissas(split);
    if n == 0 {
      CongFrom(1, 1, 0, p);
    } else {
      NumeratorIs(split, i, n - 1, p);
      if n - 1 != i {
        var a, r := Inverse(xs[n - 1], p), Numerator(split, i, n - 1, p);
        InverseCong(xs[n - 1], p);
        MultiplyCong(a, r, p);
        CongMul(a, 0 - xs[n - 1], r, ProductExcept(xs, i, n - 1, 0), p);
        CongTrans(Multiply(a, r, p), a * r, (0 - xs[n - 1]) * ProductExcept(xs, i, n - 1, 0), p);
      }
    }
  }

  lemma {:induction false} DenominatorIs(split: seq<Point>, i: nat, n: nat, p: int)
    requires p > 1 && Reduced(split, p) && i < |split| && n <= |split|
    ensures Cong(Denominator(split, i, n, p), ProductExcept(Abscissas(split), i, n, split[i].0), p)
    decreases n
  {
    var xs := Abscissas(split);
    if n == 0 {
      CongFrom(1, 1, 0, p);
    } else {
      DenominatorIs(split, i, n - 1, p);
      if n - 1 != i {
        var x, a, r := xs[i], Inverse(xs[n - 1], p), Denominator(split, i, n - 1, p);
        InverseCong(xs[n - 1], p);
        AddCong(x, a, p);
        CongFrom(x, x, 0, p);
        CongAdd(x, x, a, -xs[n - 1], p);
        CongTrans(Add(x, a, p), x + a, x - xs[n - 1], p);
        MultiplyCong(Add(x, a, p), r, p);
        CongMul(Add(x, a, p), x - xs[n - 1], r, ProductExcept(xs, i, n - 1, x), p);
        CongTrans(Multiply(Add(x, a, p), r, p), Add(x, a, p) * r, (x - xs[n - 1]) * ProductExcept(xs, i, n - 1, x), p);
      }
    }
  }

  /** The weight of share i: its value over its denominator. */
  function Weight(split: seq<Point>, i: nat, p: int): int
    requires Prime(p) && i < |split|
  {
    MultiplicativeInverse(Denominator(split, i, |split|, p), p) * split[i].1
  }

  function AllWeights(split: seq<Point>, p: int): (ws: seq<int>)
    requires Prime(p)
    ensures |ws| == |split| && forall i :: 0 <= i < |split| ==> ws[i] == Weight(split, i, p)
  {
    seq(|split|, i requires 0 <= i < |split| => Weight(split, i, p))
  }

  /** The weights make the Lagrange combination pass through the shares. */
  lemma WeightsInterpolate(split: seq<Point>, p: int)
    requires Prime(p) && Reduced(split, p)
    ensures Weights(Abscissas(split), Values(split), AllWeights(split, p), p)
  {
    var xs, ws := Abscissas(split), AllWeights(split, p);
    AbscissasDistinct(split, p);
    forall i | 0 <= i < |split|
      ensures Cong(ws[i] * ProductExcept(xs, i, |xs|, xs[i]), split[i].1, p)
    {
      WeightInterpolates(split, i, p);
    }
  }

  lemma WeightInterpolates(split: seq<Point>, i: nat, p: int)
    requires Prime(p) && Reduced(split, p) && i < |split| && DistinctMod(Abscissas(split), p)
    ensures Cong(Weight(split, i, p) * ProductExcept(Abscissas(split), i, |split|, split[i].0), split[i].1, p)
  {
    var d, e := Denominator(split, i, |split|, p), ProductExcept(Abscissas(split), i, |split|, split[i].0);
    DenominatorIs(split, i, |split|, p);
    ProductAtOwn(Abscissas(split), i, |split|, p);
    CongSameMod(d, e, p);
    InverseWorks(d, p);
    DivideBack(d, e, MultiplicativeInverse(d, p), split[i].1, p);
  }

  lemma DivideBack(d: int, e: int, v: int, y: int, p: int)
    requires p > 0 && Cong(d, e, p) && Cong(d * v, 1, p)
    ensures Cong((v * y) * e, y, p)
  {
    CongSym(d, e, p);
    CongFrom(v, v, 0, p);
    CongMul(e, d, v, v, p);
    CongTrans(e * v, d * v, 1, p);
    CongFrom(y, y, 0, p);
    CongMul(e * v, 1, y, y, p);
    assert (e * v) * y == (v * y) * e;
  }

  lemma TimesBoth(v: int, m: int, n: int, y: int, p: int)
    requires p > 0 && Cong(m, n, p)
    ensures 0 <= Multiply(Multiply(v, m, p), y, p) < p
    ensures Cong(Multiply(Multiply(v, m, p), y, p), (v * y) * n, p)
  {
    CongFrom(v, v, 0, p);
    CongFrom(y, y, 0, p);
    MultiplyCong(v, m, p);
    CongMul(v, v, m, n, p);
    CongTrans(Multiply(v, m, p), v * m, v * n, p);
    MultiplyCong(Multiply(v, m, p), y, p);
    CongMul(Multiply(v, m, p), v * n, y, y, p);
    CongTrans(Multiply(Multiply(v, m, p), y, p), Multiply(v, m, p) * y, (v * n) * y, p);
    assert (v * n) * y == (v * y) * n;
  }

  lemma TermIs(split: seq<Point>, i: nat, p: int)
    requires Prime(p) && Reduced(split, p) && i < |split|
    ensures 0 <= Term(split, i, p) < p
    ensures Cong(Term(split, i, p), Weight(split, i, p) * ProductExcept(Abscissas(split), i, |split|, 0), p)
  {
    NumeratorIs(split, i, |split|, p);
    TimesBoth(MultiplicativeInverse(Denominator(split, i, |split|, p), p), Numerator(split, i, |split|, p),
              ProductExcept(Abscissas(split), i, |split|, 0), split[i].1, p);
  }

  lemma {:induction false} ReconstructIs(split: seq<Point>, n: nat, p: int)
    requires Prime(p) && Reduced(split, p) && n <= |split|
    ensures 0 <= Reconstruct(split, n, p) < p
    ensures Cong(Reconstruct(split, n, p), CombinationAt(Abscissas(split), AllWeights(split, p), n, 0), p)
    decreases n
  {
    if n == 0 {
      CongFrom(0, 0, 0, p);
    } else {
      var xs, ws := Abscissas(split), AllWeights(split, p);
      ReconstructIs(split, n - 1, p);
      TermIs(split, n - 1, p);
      var t, r := Term(split, n - 1, p), Reconstruct(split, n - 1, p);
      AddCong(t, r, p);
      CongAdd(t, ws[n - 1] * ProductExcept(xs, n - 1, |xs|, 0), r, CombinationAt(xs, ws, n - 1, 0), p);
      CongTrans(Add(t, r, p), t + r, CombinationAt(xs, ws, n, 0), p);
    }
  }

  /**
   * Any `|coef|` or more distinct shares, in any order, give back the constant
   * coefficient of the polynomial they lie on.
   */
  lemma EnoughSharesRecover(split: seq<Point>, coef: seq<int>, p: int)
    requires Prime(p) && 0 < |coef| <= |split| && 0 <= coef[0] < p
    requires Shares(split, coef, p)
    ensures Reconstruct(split, |split|, p) == coef[0]
  {
    var xs, ys, ws := Abscissas(split), Values(split), AllWeights(split, p);
    AbscissasDistinct(split, p);
    WeightsInterpolate(split, p);
    InterpolationUnique(coef, xs, ys, ws, 0, p);
    ReconstructIs(split, |split|, p);
    assert Eval(coef, 0) == coef[0];
    CongTrans(Reconstruct(split, |split|, p), CombinationAt(xs, ws, |split|, 0), coef[0], p);
    CongResidues(Reconstruct(split, |split|, p), coef[0], p);
  }

  // ---- below the quorum ----

  /** Adding multiples of p to coefficients does not change shares. */
  lemma {:induction false} EvalReduced(c: seq<int>, d: seq<int>, x: int, p: int)
    requires p > 0 && |c| == |d|
    requires forall i :: 0 <= i < |c| ==> Cong(c[i], d[i], p)
    ensures Cong(Eval(c, x), Eval(d, x), p)
    decreases |c|
  {
    if c == [] {
      CongFrom(0, 0, 0, p);
    } else {
      EvalReduced(c[1..], d[1..], x, p);
      CongFrom(x, x, 0, p);
      CongMul(x, x, Eval(c[1..], x), Eval(d[1..], x), p);
      CongAdd(c[0], d[0], x * Eval(c[1..], x), x * Eval(d[1..], x), p);
    }
  }

  /** The coefficients calculate_split can draw: the secret, then numbers from 1 to p. */
  ghost predicate Drawable(coef: seq<int>, secret: int, p: int) {
    |coef| > 0 && coef[0] == secret && forall i :: 1 <= i < |coef| ==> 1 <= coef[i] <= p
  }

  /**
   * One share short of the quorum, every secret is still possible: some polynomial
   * that could have been drawn for it has exactly these shares.
   */
  lemma TooFewSharesFitAnySecret(split: seq<Point>, secret: int, p: int) returns (coef: seq<int>)
    requires Prime(p) && Reduced(split, p) && 0 <= secret < p
    ensures |coef| == |split| + 1 && Drawable(coef, secret, p)
    ensures Shares(split, coef, p)
  {
    var xs, ys := [0] + Abscissas(split), [secret] + Values(split);
    ZeroDistinct(split, p);
    var c := Fit(xs, ys, p);
    assert Eval(c, 0) == c[0];
    assert xs[0] == 0 && ys[0] == secret;
    coef := [secret] + seq(|split|, i requires 0 <= i < |split| => Drawn(c[i + 1], p));
    forall i | 0 <= i < |coef|
      ensures Cong(coef[i], c[i], p)
      ensures i > 0 ==> 1 <= coef[i] <= p
    {
      if i == 0 { CongSym(c[0], secret, p); } else { DrawnCong(c[i], p); }
    }
    forall i | 0 <= i < |split|
      ensures IsShare(split[i], coef, p)
    {
      assert xs[i + 1] == split[i].0 && ys[i + 1] == split[i].1;
      EvalReduced(coef, c, split[i].0, p);
      CongTrans(Eval(coef, split[i].0), Eval(c, split[i].0), split[i].1, p);
      CongSym(Eval(coef, split[i].0), split[i].1, p);
    }
  }

  lemma ZeroDistinct(split: seq<Point>, p: int)
    requires Prime(p) && Reduced(split, p)
    ensures DistinctMod([0] + Abscissas(split), p)
  {
    var xs := [0] + Abscissas(split);
    forall i, j | 0 <= i < j < |xs|
      ensures (xs[i] - xs[j]) % p != 0
    {
      assert xs[j] == split[j - 1].0;
      assert i > 0 ==> xs[i] == split[i - 1].0;
      ResiduesDiffer(xs[i], xs[j], p);
    }
  }

  lemma ResiduesDiffer(a: int, b: int, p: int)
    requires p > 0 && 0 <= a < p && 0 <= b < p && a != b
    ensures (a - b) % p != 0
  {
    if Cong(a, b, p) {
      CongResidues(a, b, p);
    }
  }

  /** A polynomial through the given points, with one coefficient a point. */
  lemma Fit(xs: seq<int>, ys: seq<int>, p: int) returns (c: seq<int>)
    requires Prime(p) && DistinctMod(xs, p) && |xs| == |ys|
    ensures |c| == |xs|
    ensures forall k :: 0 <= k < |xs| ==> Cong(Eval(c, xs[k]), ys[k], p)
  {
    var ws := FitWeights(xs, ys, p);
    var l := Combination(xs, ws, |xs|);
    c := seq(|xs|, i requires 0 <= i < |xs| => if i < |l| then l[i] else 0);
    forall k | 0 <= k < |xs|
      ensures Cong(Eval(c, xs[k]), ys[k], p)
    {
      Interpolates(xs, ys, ws, k, p);
      EvalPadded(l, c, xs[k]);
    }
  }

  /** The representative of a residue between 1 and p. */
  function Drawn(a: int, p: int): int
    requires p > 0
  {
    if a % p == 0 then p else a % p
  }

  lemma DrawnCong(a: int, p: int)
    requires p > 0
    ensures 1 <= Drawn(a, p) <= p && Cong(Drawn(a, p), a, p)
  {
    CongMod(a, p);
    if a % p == 0 {
      CongFrom(p, a % p, 1, p);
      CongTrans(p, a % p, a, p);
    }
  }

  lemma {:induction false} EvalPadded(c: seq<int>, d: seq<int>, x: int)
    requires |c| <= |d|
    requires forall i :: 0 <= i < |d| ==> d[i] == if i < |c| then c[i] else 0
    ensures Eval(c, x) == Eval(d, x)
    decreases |d|
  {
    if d != [] {
      EvalPadded(if c == [] then [] else c[1..], d[1..], x);
      assert x * 0 == 0;
    }
  }

  lemma FitWeights(xs: seq<int>, ys: seq<int>, p: int) returns (ws: seq<int>)
    requires Prime(p) && DistinctMod(xs, p) && |xs| == |ys|
    ensures Weights(xs, ys, ws, p)
  {
    ws := seq(|xs|, i requires 0 <= i < |xs| => FitWeight(xs, ys, i, p));
    forall i | 0 <= i < |xs|
      ensures Cong(ws[i] * ProductExcept(xs, i, |xs|, xs[i]), ys[i], p)
    {
      var e := ProductExcept(xs, i, |xs|, xs[i]);
      ProductAtOwn(xs, i, |xs|, p);
      InverseWorks(e, p);
      var v := MultiplicativeInverse(e, p);
      CongFrom(ys[i], ys[i], 0, p);
      CongMul(e * v, 1, ys[i], ys[i], p);
      assert (e * v) * ys[i] == (v * ys[i]) * e;
    }
  }

  function FitWeight(xs: seq<int>, ys: seq<int>, i: nat, p: int): int
    requires Prime(p) && i < |xs| && |xs| == |ys|
  {
    MultiplicativeInverse(ProductExcept(xs, i, |xs|, xs[i]), p) * ys[i]
  }

  // ---- the class ----

  class ShamirSecret {
    const quorum: nat
    const shares: nat
    const order: int
    var secret: int
    var split: seq<Point>

    /** Two 16-bit counts; the order is a prime far above them. */
    ghost predicate Valid() reads this {
      Prime(order) && shares < order
    }

    /** A secret to be split. */
    constructor (quorum: nat, shares: nat, secret: int, order: int)
      requires Prime(order) && shares < order
      ensures Valid() && split == []
      ensures this.quorum == quorum && this.shares == shares && this.secret == secret && this.order == order
    {
      this.quorum, this.shares, this.secret, this.order := quorum, shares, secret, order;
      split := [];
    }

    method AddPoint(s: Point)
      modifies this
      ensures split == old(split) + [s] && secret == old(secret)
    {
      split := split + [s];
    }

    method Resolvable() returns (enough: bool)
      ensures enough == (|split| >= quorum)
    {
      enough := |split| >= quorum;
    }

    /** Draws a polynomial for the secret and lists its values at 1, 2, ..., shares. */
    method CalculateSplit() returns (ghost coef: seq<int>)
      requires Valid() && 0 <= secret < order
      modifies this
      ensures Valid() && secret == old(secret)
      ensures |coef| == (if quorum > 1 then quorum else 1) && Drawable(coef, secret, order)
      ensures |split| == shares && Shares(split, coef, order)
      ensures forall k :: 0 <= k < shares ==> split[k].0 == k + 1
    {
      split := [];
      var coefs := [secret];
      var i := 1;
      while i < quorum
        invariant 1 <= i && |coefs| == i && (i <= quorum || i == 1)
        invariant Drawable(coefs, secret, order)
      {
        var a: int :| 1 <= a <= order;
        coefs := coefs + [a];
        i := i + 1;
      }
      coef := coefs;
      var x := 1;
      while x <= shares
        modifies this`split
        invariant 1 <= x <= shares + 1
        invariant |split| == x - 1
        invariant forall k :: 0 <= k < |split| ==> split[k].0 == k + 1 && IsShare(split[k], coefs, order)
      {
        var y := ValueAt(coefs, x);
        split := split + [(x, y)];
        x := x + 1;
      }
    }

    /** The inner loop of calculate_split: the terms are added one by one. */
    method ValueAt(coefs: seq<int>, x: int) returns (y: int)
      requires Valid() && |coefs| > 0 && 0 <= coefs[0] < order
      ensures 0 <= y < order && Cong(y, Eval(coefs, x), order)
    {
      y := coefs[0];
      var i := 1;
      assert Power(x, 0) == 1 && Partial(coefs, x, 0) == 0;
      CongFrom(y, Partial(coefs, x, 1), 0, order);
      while i < |coefs|
        invariant 1 <= i <= |coefs|
        invariant 0 <= y < order && Cong(y, Partial(coefs, x, i), order)
      {
        var t := Multiply(coefs[i], Exponentiate(x, i, order), order);
        PartialStep(coefs, x, i, t, y, order);
        y := Add(y, t, order);
        i := i + 1;
      }
      PartialIsEval(coefs, x);
    }

    /** Lagrange interpolation at zero over all points of `split`. */
    method CalculateSecret()
      requires Valid()
      modifies this
      ensures Valid() && split == old(split)
      ensures secret == Reconstruct(split, |split|, order)
    {
      var res := 0;
      var i := 0;
      while i < |split|
        invariant 0 <= i <= |split| && res == Reconstruct(split, i, order)
      {
        var numerator, denominator := 1, 1;
        var j := 0;
        while j < |split|
          invariant 0 <= j <= |split|
          invariant numerator == Numerator(split, i, j, order)
          invariant denominator == Denominator(split, i, j, order)
        {
          if split[j] != split[i] {
            var next := Inverse(split[j].0, order);
            numerator := Multiply(next, numerator, order);
            denominator := Multiply(Add(split[i].0, next, order), denominator, order);
          }
          j := j + 1;
        }
        res := Add(Multiply(Multiply(MultiplicativeInverse(denominator, order), numerator, order), split[i].1, order),
                   res, order);
        i := i + 1;
      }
      secret := res;
    }
  }

  /** c[0] + c[1] x + ... up to the term before n. */
  function Partial(c: seq<int>, x: int, n: nat): int
    requires n <= |c|
  {
    if n == 0 then 0 else Partial(c, x, n - 1) + c[n - 1] * Power(x, n - 1)
  }

  lemma PartialStep(c: seq<int>, x: int, i: nat, t: int, y: int, p: int)
    requires p > 0 && i < |c| && 0 <= y < p && Cong(y, Partial(c, x, i), p)
    requires t == Multiply(c[i], Exponentiate(x, i, p), p)
    ensures 0 <= Add(y, t, p) < p && Cong(Add(y, t, p), Partial(c, x, i + 1), p)
  {
    var e := Exponentiate(x, i, p);
    CongMod(Power(x, i), p);
    CongFrom(c[i], c[i], 0, p);
    CongMul(c[i], c[i], e, Power(x, i), p);
    MultiplyCong(c[i], e, p);
    CongTrans(t, c[i] * e, c[i] * Power(x, i), p);
    AddCong(y, t, p);
    CongAdd(y, Partial(c, x, i), t, c[i] * Power(x, i), p);
    CongTrans(Add(y, t, p), y + t, Partial(c, x, i + 1), p);
  }

  /** Adding powers term by term evaluates the polynomial. */
  lemma {:induction false} PartialIsEval(c: seq<int>, x: int)
    ensures Partial(c, x, |c|) == Eval(c, x)
    decreases |c|
  {
    if c != [] {
      PartialIsEval(c[1..], x);
      PartialShift(c, x, |c|);
    }
  }

  lemma {:induction false} PartialShift(c: seq<int>, x: int, n: nat)
    requires 0 < n <= |c|
    ensures Partial(c, x, n) == c[0] + x * Partial(c[1..], x, n - 1)
    decreases n
  {
    if n == 1 {
      assert Power(x, 0) == 1 && Partial(c, x, 0) == 0 && x * 0 == 0;
      assert Partial(c, x, 1) == c[0] * 1;
    } else {
      PartialShift(c, x, n - 1);
      var a, b, w := c[n - 1], Partial(c[1..], x, n - 2), Power(x, n - 2);
      assert c[1..][n - 2] == a;
      assert x * (b + a * w) == x * b + a * (x * w) by {
        assert x * (b + a * w) == x * b + x * (a * w);
        assert x * (a * w) == a * (x * w);
      }
    }
  }

  /** Splitting a secret and joining any shares that are enough to resolve it gives it back. */
  method SplitThenJoin(quorum: nat, shares: nat, secret: int, order: int, chosen: seq<nat>) returns (enough: bool, joined: int)
    requires Prime(order) && shares < order && 0 <= secret < order
    requires forall i :: 0 <= i < |chosen| ==> 1 <= chosen[i] <= shares
    requires forall i, j :: 0 <= i < j < |chosen| ==> chosen[i] != chosen[j]
    ensures enough <==> |chosen| >= quorum
    ensures enough && |chosen| >= 1 ==> joined == secret
  {
    var s := new ShamirSecret(quorum, shares, secret, order);
    ghost var coef := s.CalculateSplit();
    label Splitted:
    var r := new ShamirSecret(quorum, shares, 0, order);
    var k := 0;
    while k < |chosen|
      modifies r
      invariant 0 <= k <= |chosen| && |r.split| == k
      invariant forall i :: 0 <= i < k ==> r.split[i] == s.split[chosen[i] - 1]
      invariant s.split == old@Splitted(s.split)
    {
      r.AddPoint(s.split[chosen[k] - 1]);
      k := k + 1;
    }
    enough := r.Resolvable();
    joined := 0;
    if enough && |chosen| >= 1 {
      r.CalculateSecret();
      EnoughSharesRecover(r.split, coef, order);
      joined := r.secret;
    }
  }
}
