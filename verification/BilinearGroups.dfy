/**
 * A bilinear pairing between abstract groups: a commutative group of finite exponent,
 * a target monoid, and a map that is a homomorphism in each argument.
 */
module BilinearGroups {

  datatype Pairing<!G(!new), !T(!new)> = Pairing(
    order: nat,
    mul: (G, G) -> G,
    one: G,
    targetMul: (T, T) -> T,
    targetOne: T,
    e: (G, G) -> T)
  {
    function Pow(a: G, n: nat): G {
      if n == 0 then one else mul(Pow(a, n - 1), a)
    }

    function TargetPow(t: T, n: nat): T {
      if n == 0 then targetOne else targetMul(TargetPow(t, n - 1), t)
    }

    /** The product of the first n bases, each to its exponent. */
    function Product(bases: seq<G>, exponents: seq<nat>, n: nat): G
      requires n <= |bases| && n <= |exponents|
    {
      if n == 0 then one else mul(Product(bases, exponents, n - 1), Pow(bases[n - 1], exponents[n - 1]))
    }

    // ---- the laws, one predicate each so that a proof names the instance it uses ----

    ghost predicate Associative(a: G, b: G, c: G) { mul(mul(a, b), c) == mul(a, mul(b, c)) }

    ghost predicate Commutative(a: G, b: G) { mul(a, b) == mul(b, a) }

    ghost predicate Neutral(a: G) { mul(one, a) == a && mul(a, one) == a }

    ghost predicate FiniteOrder(a: G) { Pow(a, order) == one }

    ghost predicate Left(a: G, b: G, c: G) { e(mul(a, b), c) == targetMul(e(a, c), e(b, c)) }

    ghost predicate Right(a: G, b: G, c: G) { e(a, mul(b, c)) == targetMul(e(a, b), e(a, c)) }

    ghost predicate Units(a: G) { e(one, a) == targetOne && e(a, one) == targetOne }

    ghost predicate Laws() {
      && order > 0
      && (forall a, b, c :: Associative(a, b, c))
      && (forall a, b :: Commutative(a, b))
      && (forall a :: Neutral(a))
      && (forall a :: FiniteOrder(a))
      && (forall a, b, c :: Left(a, b, c))
      && (forall a, b, c :: Right(a, b, c))
      && (forall a :: Units(a))
    }

    lemma Interchange(a: G, b: G, c: G, d: G)
      requires Laws()
      ensures mul(mul(a, b), mul(c, d)) == mul(mul(a, c), mul(b, d))
    {
      assert Associative(a, b, mul(c, d)) && Associative(b, c, d) && Commutative(b, c);
      assert Associative(c, b, d) && Associative(a, c, mul(b, d));
    }

    lemma {:induction false} PowAdd(a: G, m: nat, n: nat)
      requires Laws()
      ensures Pow(a, m + n) == mul(Pow(a, m), Pow(a, n))
      decreases n
    {
      if n == 0 {
        assert Neutral(Pow(a, m));
      } else {
        PowAdd(a, m, n - 1);
        assert Associative(Pow(a, m), Pow(a, n - 1), a);
      }
    }

    lemma {:induction false} PowTimes(a: G, b: G, n: nat)
      requires Laws()
      ensures Pow(mul(a, b), n) == mul(Pow(a, n), Pow(b, n))
    {
      if n == 0 {
        assert Neutral(one);
      } else {
        PowTimes(a, b, n - 1);
        Interchange(Pow(a, n - 1), Pow(b, n - 1), a, b);
      }
    }

    lemma {:induction false} PowMul(a: G, m: nat, n: nat)
      requires Laws()
      ensures 0 <= m * n
      ensures Pow(Pow(a, m), n) == Pow(a, m * n)
      decreases n
    {
      if n == 0 {
        assert m * n == 0;
      } else {
        PowMul(a, m, n - 1);
        assert m * n == m * (n - 1) + m;
        PowAdd(a, m * (n - 1), m);
      }
    }

    lemma {:induction false} PowOne(n: nat)
      requires Laws()
      ensures Pow(one, n) == one
    {
      if n > 0 {
        PowOne(n - 1);
        assert Neutral(one);
      }
    }

    /** Exponents matter only modulo the order. */
    lemma PowMod(a: G, n: nat)
      requires Laws()
      ensures Pow(a, n % order) == Pow(a, n)
    {
      var q, r := n / order, n % order;
      assert n == order * q + r;
      PowAdd(a, order * q, r);
      PowMul(a, order, q);
      assert FiniteOrder(a);
      PowOne(q);
      assert Neutral(Pow(a, r));
    }

    lemma {:induction false} PairingPower(a: G, b: G, n: nat)
      requires Laws()
      ensures e(Pow(a, n), b) == TargetPow(e(a, b), n)
      ensures e(a, Pow(b, n)) == TargetPow(e(a, b), n)
    {
      if n == 0 {
        assert Units(a) && Units(b);
      } else {
        PairingPower(a, b, n - 1);
        assert Left(Pow(a, n - 1), a, b) && Right(a, Pow(b, n - 1), b);
      }
    }

    /** An exponent moves from one side of the pairing to the other. */
    lemma MoveExponent(a: G, b: G, n: nat)
      requires Laws()
      ensures e(Pow(a, n), b) == e(a, Pow(b, n))
    {
      PairingPower(a, b, n);
    }
  }

  /** The laws can be met, by a pairing that is not constant: the group of order two. */
  function OrderTwo(): Pairing<bool, bool> {
    Pairing(2, (a: bool, b: bool) => a != b, false, (a: bool, b: bool) => a != b, false, (a: bool, b: bool) => a && b)
  }

  lemma LawsCanBeMet()
    ensures OrderTwo().Laws() && OrderTwo().e(true, true) != OrderTwo().targetOne
  {
    var p := OrderTwo();
    forall a ensures p.FiniteOrder(a) {
      assert p.Pow(a, 2) == p.mul(p.mul(p.Pow(a, 0), a), a) by {
        assert p.Pow(a, 1) == p.mul(p.Pow(a, 0), a);
      }
    }
  }
}
