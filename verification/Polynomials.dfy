/** Polynomials by their coefficients: evaluation, roots modulo a prime, and interpolation. */
module Polynomials {
  import opened ModularArithmetic

  /** c[0] + c[1] x + c[2] x^2 + ... */
  function Eval(c: seq<int>, x: int): int {
    if c == [] then 0 else c[0] + x * Eval(c[1..], x)
  }

  // ---- a polynomial with more roots than its degree vanishes ----

  /** The quotient of c(x) - c(r) by x - r. */
  function Quotient(c: seq<int>, r: int): seq<int> {
    if |c| <= 1 then [] else [Eval(c[1..], r)] + Quotient(c[1..], r)
  }

  lemma {:induction false} Division(c: seq<int>, r: int, t: int)
    ensures Eval(c, t) == Eval(c, r) + (t - r) * Eval(Quotient(c, r), t)
    ensures |Quotient(c, r)| == if c == [] then 0 else |c| - 1
    decreases |c|
  {
    if |c| <= 1 {
      if c != [] {
        assert c[1..] == [];
      }
    } else {
      var d := c[1..];
      Division(d, r, t);
      var q := Quotient(d, r);
      assert Quotient(c, r)[1..] == q;
      DivisionStep(t, r, Eval(d, r), Eval(q, t));
    }
  }

  lemma DivisionStep(t: int, r: int, e: int, f: int)
    ensures t * (e + (t - r) * f) == r * e + (t - r) * (e + t * f)
  {
    assert t * (e + (t - r) * f) == t * e + t * ((t - r) * f);
    assert t * ((t - r) * f) == (t - r) * (t * f);
    assert (t - r) * (e + t * f) == (t - r) * e + (t - r) * (t * f);
    assert (t - r) * e == t * e - r * e;
  }

  ghost predicate DistinctMod(xs: seq<int>, p: int)
    requires p > 0
  {
    forall i, j :: 0 <= i < j < |xs| ==> (xs[i] - xs[j]) % p != 0
  }

  lemma {:induction false} RootsVanish(c: seq<int>, xs: seq<int>, t: int, p: int)
    requires Prime(p) && |c| <= |xs| && DistinctMod(xs, p)
    requires forall i :: 0 <= i < |xs| ==> Eval(c, xs[i]) % p == 0
    ensures Eval(c, t) % p == 0
    decreases |c|
  {
    if c != [] {
      var n := |xs| - 1;
      var r := xs[n];
      var q := Quotient(c, r);
      forall i | 0 <= i < n
        ensures Eval(q, xs[..n][i]) % p == 0
      {
        QuotientRoot(c, xs[i], r, p);
      }
      Division(c, r, t);
      RootsVanish(q, xs[..n], t, p);
      assert Cong(Eval(q, t), 0, p) && Cong(Eval(c, r), 0, p);
      assert Cong(t - r, t - r, p) by { CongFrom(t - r, t - r, 0, p); }
      CongMul(t - r, t - r, Eval(q, t), 0, p);
      CongAdd(Eval(c, r), 0, (t - r) * Eval(q, t), (t - r) * 0, p);
    }
  }

  lemma QuotientRoot(c: seq<int>, x: int, r: int, p: int)
    requires Prime(p) && (x - r) % p != 0
    requires Eval(c, x) % p == 0 && Eval(c, r) % p == 0
    ensures Eval(Quotient(c, r), x) % p == 0
  {
    Division(c, r, x);
    CancelFactor(Eval(c, x), Eval(c, r), x - r, Eval(Quotient(c, r), x), p);
  }

  lemma CancelFactor(a: int, b: int, d: int, q: int, p: int)
    requires Prime(p) && d % p != 0 && a % p == 0 && b % p == 0
    requires a == b + d * q
    ensures q % p == 0
  {
    assert Cong(a, 0, p) && Cong(b, 0, p);
    CongAdd(a, 0, b, 0, p);
    PrimeDivides(d, q, p);
  }

  // ---- building polynomials ----

  function Plus(c: seq<int>, d: seq<int>): (r: seq<int>)
    ensures |r| == if |c| > |d| then |c| else |d|
  {
    if c == [] then d
    else if d == [] then c
    else [c[0] + d[0]] + Plus(c[1..], d[1..])
  }

  function Scale(k: int, c: seq<int>): (r: seq<int>)
    ensures |r| == |c|
  {
    if c == [] then [] else [k * c[0]] + Scale(k, c[1..])
  }

  /** (x - a) c(x) */
  function TimesLinear(c: seq<int>, a: int): (r: seq<int>)
    ensures |r| == |c| + 1
  {
    Plus([0] + c, Scale(-a, c))
  }

  lemma {:induction false} EvalPlus(c: seq<int>, d: seq<int>, t: int)
    ensures Eval(Plus(c, d), t) == Eval(c, t) + Eval(d, t)
    decreases |c|
  {
    if c != [] && d != [] {
      EvalPlus(c[1..], d[1..], t);
      assert Plus(c, d)[1..] == Plus(c[1..], d[1..]);
      assert t * (Eval(c[1..], t) + Eval(d[1..], t)) == t * Eval(c[1..], t) + t * Eval(d[1..], t);
    }
  }

  lemma {:induction false} EvalScale(k: int, c: seq<int>, t: int)
    ensures Eval(Scale(k, c), t) == k * Eval(c, t)
    decreases |c|
  {
    if c == [] {
      assert k * 0 == 0;
    } else {
      EvalScale(k, c[1..], t);
      assert Scale(k, c)[1..] == Scale(k, c[1..]);
      var e := Eval(c[1..], t);
      assert k * (c[0] + t * e) == k * c[0] + t * (k * e) by {
        assert k * (c[0] + t * e) == k * c[0] + k * (t * e);
        assert k * (t * e) == t * (k * e);
      }
    }
  }

  lemma EvalDifference(c: seq<int>, d: seq<int>, t: int)
    ensures Eval(Plus(c, Scale(-1, d)), t) == Eval(c, t) - Eval(d, t)
  {
    EvalPlus(c, Scale(-1, d), t);
    EvalScale(-1, d, t);
  }

  lemma EvalTimesLinear(c: seq<int>, a: int, t: int)
    ensures Eval(TimesLinear(c, a), t) == (t - a) * Eval(c, t)
  {
    EvalPlus([0] + c, Scale(-a, c), t);
    EvalScale(-a, c, t);
    assert ([0] + c)[1..] == c;
    assert (t - a) * Eval(c, t) == t * Eval(c, t) + -a * Eval(c, t);
  }

  // ---- the Lagrange basis ----

  /** The product of t - xs[j] over j < n other than i. */
  function ProductExcept(xs: seq<int>, i: nat, n: nat, t: int): int
    requires n <= |xs|
  {
    if n == 0 then 1
    else if n - 1 == i then ProductExcept(xs, i, n - 1, t)
    else (t - xs[n - 1]) * ProductExcept(xs, i, n - 1, t)
  }

  function Basis(xs: seq<int>, i: nat, n: nat): (c: seq<int>)
    requires n <= |xs|
    ensures |c| == if i < n then n else n + 1
  {
    if n == 0 then [1]
    else if n - 1 == i then Basis(xs, i, n - 1)
    else TimesLinear(Basis(xs, i, n - 1), xs[n - 1])
  }

  lemma {:induction false} EvalBasis(xs: seq<int>, i: nat, n: nat, t: int)
    requires n <= |xs|
    ensures Eval(Basis(xs, i, n), t) == ProductExcept(xs, i, n, t)
    decreases n
  {
    if n == 0 {
      assert [1][1..] == [];
    } else {
      EvalBasis(xs, i, n - 1, t);
      if n - 1 != i {
        EvalTimesLinear(Basis(xs, i, n - 1), xs[n - 1], t);
      }
    }
  }

  /** At another node the basis polynomial vanishes. */
  lemma {:induction false} ProductAtOther(xs: seq<int>, i: nat, m: nat, n: nat)
    requires m < n <= |xs| && m != i
    ensures ProductExcept(xs, i, n, xs[m]) == 0
    decreases n
  {
    if n - 1 != m {
      ProductAtOther(xs, i, m, n - 1);
    } else {
      assert (xs[m] - xs[n - 1]) * ProductExcept(xs, i, n - 1, xs[m]) == 0;
    }
  }

  /** At its own node it does not vanish modulo a prime. */
  lemma {:induction false} ProductAtOwn(xs: seq<int>, i: nat, n: nat, p: int)
    requires Prime(p) && DistinctMod(xs, p) && i < |xs| && n <= |xs|
    ensures ProductExcept(xs, i, n, xs[i]) % p != 0
    decreases n
  {
    if n > 0 {
      ProductAtOwn(xs, i, n - 1, p);
      if n - 1 != i {
        var d, e := xs[i] - xs[n - 1], ProductExcept(xs, i, n - 1, xs[i]);
        DifferenceUnit(xs, i, n - 1, p);
        if (d * e) % p == 0 {
          PrimeDivides(d, e, p);
        }
      }
    }
  }

  lemma DifferenceUnit(xs: seq<int>, i: nat, j: nat, p: int)
    requires Prime(p) && DistinctMod(xs, p) && i < |xs| && j < |xs| && i != j
    ensures (xs[i] - xs[j]) % p != 0
  {
    if i > j && (xs[i] - xs[j]) % p == 0 {
      CongSym(xs[i], xs[j], p);
    }
  }

  /** The sum of ws[i] times the i-th basis polynomial, over i < m. */
  function Combination(xs: seq<int>, ws: seq<int>, m: nat): (c: seq<int>)
    requires m <= |ws| == |xs|
    ensures |c| <= |xs|
  {
    if m == 0 then []
    else Plus(Combination(xs, ws, m - 1), Scale(ws[m - 1], Basis(xs, m - 1, |xs|)))
  }

  function CombinationAt(xs: seq<int>, ws: seq<int>, m: nat, t: int): int
    requires m <= |ws| == |xs|
  {
    if m == 0 then 0
    else CombinationAt(xs, ws, m - 1, t) + ws[m - 1] * ProductExcept(xs, m - 1, |xs|, t)
  }

  lemma {:induction false} EvalCombination(xs: seq<int>, ws: seq<int>, m: nat, t: int)
    requires m <= |ws| == |xs|
    ensures Eval(Combination(xs, ws, m), t) == CombinationAt(xs, ws, m, t)
    decreases m
  {
    if m > 0 {
      EvalCombination(xs, ws, m - 1, t);
      EvalTerm(xs, ws[m - 1], m - 1, t);
      EvalPlus(Combination(xs, ws, m - 1), Scale(ws[m - 1], Basis(xs, m - 1, |xs|)), t);
    }
  }

  lemma EvalTerm(xs: seq<int>, w: int, i: nat, t: int)
    ensures Eval(Scale(w, Basis(xs, i, |xs|)), t) == w * ProductExcept(xs, i, |xs|, t)
  {
    EvalScale(w, Basis(xs, i, |xs|), t);
    EvalBasis(xs, i, |xs|, t);
  }

  /** At node k only the k-th term is left. */
  lemma {:induction false} CombinationAtNode(xs: seq<int>, ws: seq<int>, m: nat, k: nat)
    requires m <= |ws| == |xs| && k < |xs|
    ensures CombinationAt(xs, ws, m, xs[k]) == if k < m then ws[k] * ProductExcept(xs, k, |xs|, xs[k]) else 0
    decreases m
  {
    if m > 0 {
      CombinationAtNode(xs, ws, m - 1, k);
      if m - 1 != k {
        ProductAtOther(xs, m - 1, k, |xs|);
        assert ws[m - 1] * 0 == 0;
      }
    }
  }

  /** The weights that make the combination pass through the points (xs[i], ys[i]) modulo p. */
  ghost predicate Weights(xs: seq<int>, ys: seq<int>, ws: seq<int>, p: int)
    requires p > 0
  {
    && |xs| == |ys| == |ws|
    && forall i :: 0 <= i < |xs| ==> Cong(ws[i] * ProductExcept(xs, i, |xs|, xs[i]), ys[i], p)
  }

  lemma Interpolates(xs: seq<int>, ys: seq<int>, ws: seq<int>, k: nat, p: int)
    requires p > 0 && Weights(xs, ys, ws, p) && k < |xs|
    ensures Cong(Eval(Combination(xs, ws, |xs|), xs[k]), ys[k], p)
  {
    EvalCombination(xs, ws, |xs|, xs[k]);
    CombinationAtNode(xs, ws, |xs|, k);
  }

  /**
   * A polynomial with at most as many coefficients as there are nodes agrees
   * everywhere with the combination through its values at the nodes.
   */
  lemma InterpolationUnique(c: seq<int>, xs: seq<int>, ys: seq<int>, ws: seq<int>, t: int, p: int)
    requires Prime(p) && DistinctMod(xs, p) && |c| <= |xs|
    requires Weights(xs, ys, ws, p)
    requires forall i :: 0 <= i < |xs| ==> Cong(ys[i], Eval(c, xs[i]), p)
    ensures Cong(CombinationAt(xs, ws, |xs|, t), Eval(c, t), p)
  {
    var d := Difference(c, xs, ws);
    forall i | 0 <= i < |xs|
      ensures Eval(d, xs[i]) % p == 0
    {
      DifferenceRoot(c, xs, ys, ws, i, p);
    }
    VanishingDifference(c, xs, ws, t, p);
  }

  lemma VanishingDifference(c: seq<int>, xs: seq<int>, ws: seq<int>, t: int, p: int)
    requires Prime(p) && DistinctMod(xs, p) && |c| <= |xs| == |ws|
    requires forall i :: 0 <= i < |xs| ==> Eval(Difference(c, xs, ws), xs[i]) % p == 0
    ensures Cong(CombinationAt(xs, ws, |xs|, t), Eval(c, t), p)
  {
    RootsVanish(Difference(c, xs, ws), xs, t, p);
    EvalDifference(Combination(xs, ws, |xs|), c, t);
    EvalCombination(xs, ws, |xs|, t);
  }

  function Difference(c: seq<int>, xs: seq<int>, ws: seq<int>): (d: seq<int>)
    requires |ws| == |xs|
    ensures |c| <= |xs| ==> |d| <= |xs|
  {
    Plus(Combination(xs, ws, |xs|), Scale(-1, c))
  }

  lemma DifferenceRoot(c: seq<int>, xs: seq<int>, ys: seq<int>, ws: seq<int>, i: nat, p: int)
    requires p > 0 && Weights(xs, ys, ws, p) && i < |xs| && Cong(ys[i], Eval(c, xs[i]), p)
    ensures Eval(Difference(c, xs, ws), xs[i]) % p == 0
  {
    var l := Combination(xs, ws, |xs|);
    Interpolates(xs, ys, ws, i, p);
    CongTrans(Eval(l, xs[i]), ys[i], Eval(c, xs[i]), p);
    EvalDifference(l, c, xs[i]);
  }
}
