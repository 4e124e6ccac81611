/**
 * El Gamal encryption of key shares, and the proof that a share was re-encrypted
 * faithfully for its buyer.
 *
 * The group is given by a prime modulus and a generator; random draws are arbitrary
 * numbers of their range, and the hash is an arbitrary function.
 */
module ElGamal {
  import opened ModularArithmetic

  /** 2^256: a half of a message takes 32 bytes, a group element 64. */
  const HALF: int := 0x1_0000_0000_0000_0000_0000_0000_0000_0000_0000_0000_0000_0000_0000_0000_0000_0000

  type Point = (nat, nat)

  datatype Ciphertext = Ciphertext(C1: nat, D1: nat)

  datatype DeliveryProof = DeliveryProof(G1: nat, G2: nat, G3: nat, s: nat, r: nat)

  type Hash = (Ciphertext, Ciphertext, nat, nat, nat, nat, nat) -> nat

  datatype Group = Group(modulus: nat, generator: nat) {
    /** A prime of at most 512 bits, and a nonzero generator. */
    ghost predicate Valid() {
      Prime(modulus) && modulus <= HALF * HALF && generator % modulus != 0
    }

    function Exp(a: nat, n: nat): (r: nat)
      requires Prime(modulus)
      ensures 0 <= r < modulus
    {
      Exponentiate(a, n, modulus)
    }

    function Mul(a: nat, b: nat): (r: nat)
      requires Prime(modulus)
      ensures 0 <= r < modulus
    {
      Multiply(a, b, modulus)
    }

    function Inv(a: nat): (r: nat)
      requires Prime(modulus)
      ensures 0 <= r < modulus
    {
      if a % modulus != 0 then InverseWorks(a, modulus); MultiplicativeInverse(a, modulus) else 0
    }

    function PublicKey(privateKey: nat): nat
      requires Prime(modulus)
    {
      Exp(generator, privateKey)
    }
  }

  /** Both halves are cut to 32 bytes and put side by side. */
  function Pack(m: Point): nat {
    (m.0 % HALF) * HALF + m.1 % HALF
  }

  function Unpack(n: nat): Point {
    ((n / HALF) % HALF, n % HALF)
  }

  lemma PackUnpack(n: nat)
    requires n < HALF * HALF
    ensures Pack(Unpack(n)) == n
  {
    assert n / HALF < HALF;
  }

  lemma TwoDigits(q: nat, r: nat, h: nat)
    requires q < h && r < h
    ensures q * h + r < h * h
  {
    Distribute(h, 0 - q, h);
    MulBound(h - q, h);
  }

  lemma UnpackPack(m: Point)
    requires m.0 < HALF && m.1 < HALF
    ensures Unpack(Pack(m)) == m && Pack(m) < HALF * HALF
  {
    ModBelow(m.0, HALF);
    ModBelow(m.1, HALF);
    TwoDigits(m.0, m.1, HALF);
    FloorShift(m.0, m.1, HALF);
  }

  // ---- encryption ----

  function Encrypt(g: Group, m: Point, publicKey: nat, randomizer: nat): Ciphertext
    requires g.Valid()
  {
    Ciphertext(g.Mul(Pack(m), g.Exp(publicKey, randomizer)), g.Exp(g.generator, randomizer))
  }

  /** The number a ciphertext hides, before it is cut into its halves. */
  function Plain(g: Group, c: Ciphertext, privateKey: nat): (n: nat)
    requires g.Valid()
    ensures n < g.modulus
  {
    g.Mul(c.C1, g.Inv(g.Exp(c.D1, privateKey)))
  }

  function Decrypt(g: Group, c: Ciphertext, privateKey: nat): Point
    requires g.Valid()
  {
    Unpack(Plain(g, c, privateKey))
  }

  /** A ciphertext of the message under the key, for a draw that may have been made. */
  ghost predicate EncryptionOf(g: Group, c: Ciphertext, m: Point, publicKey: nat)
    requires g.Valid()
  {
    exists randomizer: nat :: 1 <= randomizer <= g.modulus - 1 && c == Encrypt(g, m, publicKey, randomizer)
  }

  method ElGamalEncrypt(g: Group, message: Point, publicKey: nat) returns (result: Ciphertext)
    requires g.Valid()
    ensures EncryptionOf(g, result, message, publicKey)
  {
    var randomizer: nat :| 1 <= randomizer <= g.modulus - 1;
    var m := Pack(message);
    var d1 := g.Exp(g.generator, randomizer);
    result := Ciphertext(g.Mul(m, g.Exp(publicKey, randomizer)), d1);
    assert result == Encrypt(g, message, publicKey, randomizer);
  }

  method ElGamalDecrypt(g: Group, input: Ciphertext, privateKey: nat) returns (plaintext: Point)
    requires g.Valid()
    ensures plaintext == Decrypt(g, input, privateKey)
  {
    var s := g.Exp(input.D1, privateKey);
    var m := g.Mul(input.C1, g.Inv(s));
    plaintext := Unpack(m);
  }

  // ---- congruence helpers ----

  lemma Refl(a: int, p: int)
    requires p > 0
    ensures Cong(a, a, p)
  {
    CongFrom(a, a, 0, p);
  }

  lemma TimesCong(a: int, b: int, c: int, p: int)
    requires p > 0 && Cong(a, b, p)
    ensures Cong(a * c, b * c, p)
  {
    Refl(c, p);
    CongMul(a, b, c, c, p);
  }

  /** Multiplying by a unit does not change whether two numbers are congruent. */
  lemma UnitIff(a: int, b: int, c: int, p: int)
    requires Prime(p) && c % p != 0
    ensures Cong(a * c, b * c, p) <==> Cong(a, b, p)
  {
    if Cong(a, b, p) { TimesCong(a, b, c, p); }
    if Cong(a * c, b * c, p) { Cancel(a, b, c, p); }
  }

  lemma CongIff(a: int, a': int, b: int, b': int, p: int)
    requires p > 0 && Cong(a, a', p) && Cong(b, b', p)
    ensures Cong(a, b, p) <==> Cong(a', b', p)
  {
    CongSameMod(a, a', p);
    CongSameMod(b, b', p);
    CongSameMod(a, b, p);
    CongSameMod(a', b', p);
  }

  lemma ZeroCong(a: int, p: int)
    requires p > 0
    ensures Cong(a, 0, p) <==> a % p == 0
  {
  }

  // ---- the round trip ----

  /** Decrypting an encryption gives the packed message modulo the group's modulus. */
  lemma PlainOfEncrypt(g: Group, m: Point, privateKey: nat, randomizer: nat)
    requires g.Valid()
    ensures Plain(g, Encrypt(g, m, g.PublicKey(privateKey), randomizer), privateKey) == Pack(m) % g.modulus
  {
    var p := g.modulus;
    var k := g.PublicKey(privateKey);
    var c := Encrypt(g, m, k, randomizer);
    // both shared secrets are the generator to the product of the exponents
    SharedSecret(g, privateKey, randomizer);
    var a, b := g.Exp(k, randomizer), g.Exp(c.D1, privateKey);
    assert a == b;
    SharedUnit(g, privateKey, randomizer);
    InverseWorks(b, p);
    var v := g.Inv(b);
    MultiplyCong(Pack(m), a, p);
    Undone(c.C1, Pack(m), a, v, p);
    CongSameMod(c.C1 * v, Pack(m), p);
  }

  /** What was multiplied by a number is undone by its inverse. */
  lemma Undone(c: int, m: int, a: int, v: int, p: int)
    requires p > 0 && Cong(c, m * a, p) && Cong(a * v, 1, p)
    ensures Cong(c * v, m, p)
  {
    TimesCong(c, m * a, v, p);
    TimesCong(a * v, 1, m, p);
    Regroup(m, a, v);
    CongTrans(c * v, (m * a) * v, m, p);
  }

  lemma Regroup(m: int, a: int, v: int)
    ensures (m * a) * v == (a * v) * m
  {
  }

  lemma SharedSecret(g: Group, x: nat, y: nat)
    requires g.Valid()
    ensures g.Exp(g.Exp(g.generator, x), y) == g.Exp(g.Exp(g.generator, y), x)
  {
    ExpExp(g, g.generator, x, y);
    ExpExp(g, g.generator, y, x);
    assert x * y == y * x;
  }

  lemma ExpExp(g: Group, a: nat, x: nat, y: nat)
    requires g.Valid()
    ensures 0 <= x * y
    ensures g.Exp(g.Exp(a, x), y) == g.Exp(a, x * y)
  {
    var p := g.modulus;
    CongMod(Power(a, x), p);
    PowerCong(g.Exp(a, x), Power(a, x), y, p);
    PowerMul(a, x, y);
    CongSameMod(Power(g.Exp(a, x), y), Power(a, x * y), p);
  }

  lemma SharedUnit(g: Group, x: nat, y: nat)
    requires g.Valid()
    ensures g.Exp(g.Exp(g.generator, y), x) % g.modulus != 0
  {
    ExpUnit(g, g.generator, y);
    ExpUnit(g, g.Exp(g.generator, y), x);
  }

  lemma ExpUnit(g: Group, a: nat, x: nat)
    requires g.Valid() && a % g.modulus != 0
    ensures g.Exp(a, x) % g.modulus != 0
  {
    PowerUnit(a, x, g.modulus);
    CongMod(Power(a, x), g.modulus);
    CongSameMod(g.Exp(a, x), Power(a, x), g.modulus);
  }

  lemma UnpackBound(n: nat)
    ensures Unpack(n).0 < HALF && Unpack(n).1 < HALF
  {
  }

  lemma UnpackReduced(m: Point, p: nat)
    requires 0 < p <= HALF * HALF && m.0 < HALF && m.1 < HALF
    ensures Unpack(Pack(m) % p) == m <==> Pack(m) < p
  {
    var a := Pack(m);
    UnpackPack(m);
    UnpackReducedNumber(a, p);
  }

  lemma UnpackReducedNumber(a: nat, p: nat)
    requires 0 < p <= HALF * HALF && a < HALF * HALF
    ensures Unpack(a % p) == Unpack(a) <==> a < p
  {
    ModBelow(a, p);
    PackUnpack(a);
    PackUnpack(a % p);
  }

  /**
   * The round trip returns the message exactly when both halves fit in 32 bytes and
   * the packed message is below the modulus.
   */
  lemma RoundTripExactly(g: Group, m: Point, privateKey: nat, randomizer: nat)
    requires g.Valid()
    ensures Decrypt(g, Encrypt(g, m, g.PublicKey(privateKey), randomizer), privateKey) == m
            <==> m.0 < HALF && m.1 < HALF && Pack(m) < g.modulus
  {
    PlainOfEncrypt(g, m, privateKey, randomizer);
    if m.0 < HALF && m.1 < HALF {
      UnpackReduced(m, g.modulus);
    } else {
      UnpackBound(Pack(m) % g.modulus);
    }
  }

  // ---- the delivery proof ----

  /** The draws of encrypt_with_proof. */
  datatype Draws = Draws(randomizer: nat, b1: nat, b2: nat) {
    predicate Valid() {
      randomizer >= 1 && b1 >= 1 && b2 >= 1
    }
  }

  /** Commitments: made before the challenge is known. */
  function Commit3(g: Group, incoming: Ciphertext, destinationKey: nat, d: Draws): nat
    requires g.Valid()
  {
    g.Mul(g.Exp(incoming.D1, d.b1), g.Inv(g.Exp(destinationKey, d.b2)))
  }

  function Challenge(g: Group, hash: Hash, message: Point, privateKey: nat, destinationKey: nat, incoming: Ciphertext, d: Draws): nat
    requires g.Valid()
  {
    hash(incoming, Encrypt(g, message, destinationKey, d.randomizer), g.PublicKey(privateKey), destinationKey,
         g.Exp(g.generator, d.b1), g.Exp(g.generator, d.b2), Commit3(g, incoming, destinationKey, d))
  }

  function ProofOf(g: Group, hash: Hash, message: Point, privateKey: nat, destinationKey: nat, incoming: Ciphertext, d: Draws): DeliveryProof
    requires g.Valid()
  {
    var x := Challenge(g, hash, message, privateKey, destinationKey, incoming, d);
    DeliveryProof(g.Exp(g.generator, d.b1), g.Exp(g.generator, d.b2), Commit3(g, incoming, destinationKey, d),
                  privateKey * x + d.b1, d.randomizer * x + d.b2)
  }

  /** A re-encryption and its proof, for draws that may have been made. */
  ghost predicate ProvenReencryption(g: Group, hash: Hash, message: Point, privateKey: nat, destinationKey: nat,
                                     incoming: Ciphertext, outgoing: Ciphertext, proof: DeliveryProof)
    requires g.Valid()
  {
    exists d: Draws :: d.Valid()
      && outgoing == Encrypt(g, message, destinationKey, d.randomizer)
      && proof == ProofOf(g, hash, message, privateKey, destinationKey, incoming, d)
  }

  method EncryptWithProof(g: Group, hash: Hash, message: Point, privateKey: nat, destinationKey: nat,
                          incoming: Ciphertext, subgroupOrder: nat)
    returns (outgoing: Ciphertext, proof: DeliveryProof)
    requires g.Valid() && subgroupOrder >= 2
    ensures ProvenReencryption(g, hash, message, privateKey, destinationKey, incoming, outgoing, proof)
  {
    var randomizer: nat :| 1 <= randomizer <= g.modulus - 1;
    var b1: nat :| 1 <= b1 <= subgroupOrder - 1;
    var b2: nat :| 1 <= b2 <= subgroupOrder - 1;
    var d := Draws(randomizer, b1, b2);
    outgoing, proof := EncryptWithDraws(g, hash, message, privateKey, destinationKey, incoming, d);
    ProvenBy(g, hash, message, privateKey, destinationKey, incoming, outgoing, proof, d);
  }

  method EncryptWithDraws(g: Group, hash: Hash, message: Point, privateKey: nat, destinationKey: nat, incoming: Ciphertext, d: Draws)
    returns (outgoing: Ciphertext, proof: DeliveryProof)
    requires g.Valid() && d.Valid()
    ensures outgoing == Encrypt(g, message, destinationKey, d.randomizer)
    ensures proof == ProofOf(g, hash, message, privateKey, destinationKey, incoming, d)
  {
    var m := Pack(message);
    outgoing := Ciphertext(g.Mul(m, g.Exp(destinationKey, d.randomizer)), g.Exp(g.generator, d.randomizer));
    var myPublic := g.Exp(g.generator, privateKey);
    var g1, g2 := g.Exp(g.generator, d.b1), g.Exp(g.generator, d.b2);
    var g3 := g.Mul(g.Exp(incoming.D1, d.b1), g.Inv(g.Exp(destinationKey, d.b2)));
    var x := hash(incoming, outgoing, myPublic, destinationKey, g1, g2, g3);
    proof := DeliveryProof(g1, g2, g3, privateKey * x + d.b1, d.randomizer * x + d.b2);
  }

  lemma ProvenBy(g: Group, hash: Hash, message: Point, privateKey: nat, destinationKey: nat,
                 incoming: Ciphertext, outgoing: Ciphertext, proof: DeliveryProof, d: Draws)
    requires g.Valid() && d.Valid() && outgoing == Encrypt(g, message, destinationKey, d.randomizer)
    requires proof == ProofOf(g, hash, message, privateKey, destinationKey, incoming, d)
    ensures ProvenReencryption(g, hash, message, privateKey, destinationKey, incoming, outgoing, proof)
  {
  }

  /** The left side of the last check: everything but the commitment. */
  function Third(g: Group, first: Ciphertext, second: Ciphertext, secondKey: nat, x: nat, s: nat, r: nat): nat
    requires g.Valid()
  {
    var c2v := g.Exp(second.C1, x);
    var c1v := g.Inv(g.Exp(first.C1, x));
    var d1v := g.Exp(first.D1, s);
    var r2v := g.Exp(secondKey, r);
    g.Mul(g.Mul(g.Mul(c2v, c1v), d1v), g.Inv(r2v))
  }

  predicate VerifyDeliveryProof(g: Group, hash: Hash, proof: DeliveryProof, first: Ciphertext, second: Ciphertext,
                                firstKey: nat, secondKey: nat)
    requires g.Valid()
  {
    var x := hash(first, second, firstKey, secondKey, proof.G1, proof.G2, proof.G3);
    && g.Exp(g.generator, proof.s) == g.Mul(g.Exp(firstKey, x), proof.G1)
    && g.Exp(g.generator, proof.r) == g.Mul(g.Exp(second.D1, x), proof.G2)
    && Third(g, first, second, secondKey, x, proof.s, proof.r) == proof.G3
  }

  /** A response opens its commitment: base^(e x + b) is (base^e)^x times base^b. */
  lemma ResponseOpens(g: Group, base: nat, e: nat, x: nat, b: nat)
    requires g.Valid()
    ensures 0 <= e * x
    ensures g.Exp(base, e * x + b) == g.Mul(g.Exp(g.Exp(base, e), x), g.Exp(base, b))
  {
    var p := g.modulus;
    ExpExp(g, base, e, x);
    PowerAdd(base, e * x, b);
    CongMod(Power(base, e * x), p);
    CongMod(Power(base, b), p);
    CongMul(g.Exp(base, e * x), Power(base, e * x), g.Exp(base, b), Power(base, b), p);
    CongSameMod(g.Exp(base, e * x) * g.Exp(base, b), Power(base, e * x) * Power(base, b), p);
  }

  /** The first two checks accept every proof that is built for the challenge. */
  lemma CommitmentsOpen(g: Group, privateKey: nat, x: nat, b: nat)
    requires g.Valid()
    ensures 0 <= privateKey * x
    ensures g.Exp(g.generator, privateKey * x + b) == g.Mul(g.Exp(g.PublicKey(privateKey), x), g.Exp(g.generator, b))
  {
    ResponseOpens(g, g.generator, privateKey, x, b);
  }

  lemma Product4(g: Group, a: nat, b: nat, c: nat, d: nat)
    requires g.Valid()
    ensures Cong(g.Mul(g.Mul(g.Mul(a, b), c), d), a * b * c * d, g.modulus)
  {
    var p := g.modulus;
    var ab, abc := g.Mul(a, b), g.Mul(g.Mul(a, b), c);
    MultiplyCong(a, b, p);
    TimesCong(ab, a * b, c, p);
    MultiplyCong(ab, c, p);
    CongTrans(abc, ab * c, a * b * c, p);
    TimesCong(abc, a * b * c, d, p);
    MultiplyCong(abc, d, p);
    CongTrans(g.Mul(abc, d), abc * d, a * b * c * d, p);
  }

  lemma Shuffle(mx: int, kr: int, u: int, ekx: int, db: int)
    ensures (mx * kr) * u * (ekx * db) == ((mx * ekx) * u * db) * kr
  {
    assert (mx * kr) * u * (ekx * db) == mx * (kr * (u * (ekx * db)));
    assert kr * (u * (ekx * db)) == (u * (ekx * db)) * kr;
    assert mx * (u * (ekx * db)) == (mx * ekx) * u * db;
  }

  /**
   * Cancelling the shared secrets of the second key, what is left of the last check
   * speaks of the first ciphertext alone.
   */
  lemma StripUnits(p: int, c2x: int, u: int, ds: int, ir: int, Kr: int, db: int, ib: int, kr: int, kb: int, mx: int, ekx: int)
    requires Prime(p) && Kr % p != 0 && kr % p != 0
    requires Cong(Kr * ir, 1, p) && Cong(kb * ib, 1, p) && Cong(Kr, kr * kb, p)
    requires Cong(ds, ekx * db, p) && Cong(c2x, mx * kr, p)
    ensures Cong(c2x * u * ds * ir, db * ib, p) <==> Cong((mx * ekx) * u * db, db, p)
  {
    UnitIff(c2x * u * ds * ir, db * ib, Kr, p);
    StripLeft(p, c2x, u, ds, ir, Kr, db, kr, mx, ekx);
    StripRight(p, Kr, db, ib, kr, kb);
    CongIff((c2x * u * ds * ir) * Kr, ((mx * ekx) * u * db) * kr, (db * ib) * Kr, db * kr, p);
    UnitIff((mx * ekx) * u * db, db, kr, p);
  }

  lemma StripLeft(p: int, c2x: int, u: int, ds: int, ir: int, Kr: int, db: int, kr: int, mx: int, ekx: int)
    requires p > 0 && Cong(Kr * ir, 1, p) && Cong(ds, ekx * db, p) && Cong(c2x, mx * kr, p)
    ensures Cong((c2x * u * ds * ir) * Kr, ((mx * ekx) * u * db) * kr, p)
  {
    var w := c2x * u * ds;
    TimesCong(Kr * ir, 1, w, p);
    assert (Kr * ir) * w == (w * ir) * Kr;
    TimesCong(c2x, mx * kr, u, p);
    CongMul(c2x * u, (mx * kr) * u, ds, ekx * db, p);
    Shuffle(mx, kr, u, ekx, db);
    CongTrans((w * ir) * Kr, w, ((mx * ekx) * u * db) * kr, p);
  }

  lemma StripRight(p: int, Kr: int, db: int, ib: int, kr: int, kb: int)
    requires p > 0 && Cong(kb * ib, 1, p) && Cong(Kr, kr * kb, p)
    ensures Cong((db * ib) * Kr, db * kr, p)
  {
    TimesCong(Kr, kr * kb, db * ib, p);
    assert Kr * (db * ib) == (db * ib) * Kr;
    TimesCong(kb * ib, 1, db * kr, p);
    assert (kr * kb) * (db * ib) == (kb * ib) * (db * kr) by {
      assert (kr * kb) * (db * ib) == kr * (kb * (db * ib));
      assert kb * (db * ib) == (kb * ib) * db;
      assert kr * ((kb * ib) * db) == (kb * ib) * (db * kr);
    }
    CongTrans((db * ib) * Kr, (kr * kb) * (db * ib), db * kr, p);
  }

  /**
   * With E the first shared secret, C the first ciphertext and m E == C, what is left of
   * the last check holds unless C has no inverse although one was needed.
   */
  lemma CoreCheck(p: int, m: int, E: int, C: int, x: nat, u: int, db: int)
    requires Prime(p) && Cong(m * E, C, p)
    requires Power(C, x) % p != 0 ==> Cong(Power(C, x) * u, 1, p)
    requires Power(C, x) % p == 0 ==> u == 0
    ensures Cong((Power(m, x) * Power(E, x)) * u * db, db, p) <==> Power(C, x) % p != 0 || db % p == 0
  {
    var mx, ex, cx := Power(m, x), Power(E, x), Power(C, x);
    if cx % p != 0 {
      PowerTimes(m, E, x);
      PowerCong(m * E, C, x, p);
      TimesCong(mx * ex, cx, u, p);
      CongTrans((mx * ex) * u, cx * u, 1, p);
      TimesCong((mx * ex) * u, 1, db, p);
    } else {
      assert (mx * ex) * u == 0;
      ZeroCong(db, p);
      CongSameMod(0, db, p);
    }
  }

  lemma PowerZero(a: int, n: nat, p: int)
    requires Prime(p) && a % p == 0 && n > 0
    ensures Power(a, n) % p == 0
  {
    var k := Cofactor(a, p);
    assert Power(a, n) == (k * Power(a, n - 1)) * p;
    MultipleMod(k * Power(a, n - 1), p);
  }

  lemma PowerUnitIff(a: int, n: nat, p: int)
    requires Prime(p)
    ensures Power(a, n) % p != 0 <==> n == 0 || a % p != 0
  {
    if a % p != 0 {
      PowerUnit(a, n, p);
    } else if n > 0 {
      PowerZero(a, n, p);
    }
  }

  lemma ExpPower(g: Group, a: nat, n: nat)
    requires g.Valid()
    ensures Cong(g.Exp(a, n), Power(a, n), g.modulus)
    ensures g.Exp(a, n) % g.modulus == Power(a, n) % g.modulus
  {
    CongMod(Power(a, n), g.modulus);
    CongSameMod(g.Exp(a, n), Power(a, n), g.modulus);
  }

  /** What Inv gives: an inverse where there is one, and otherwise 0. */
  lemma InvWorks(g: Group, a: nat)
    requires g.Valid()
    ensures a % g.modulus != 0 ==> Cong(a * g.Inv(a), 1, g.modulus)
    ensures a % g.modulus == 0 ==> g.Inv(a) == 0
  {
    if a % g.modulus != 0 {
      InverseWorks(a, g.modulus);
    }
  }

  lemma CongCongr(a: int, b: int, c: int, d: int, p: int)
    requires p > 0 && Cong(a, c, p) && Cong(b, d, p) && 0 <= a < p && 0 <= b < p
    ensures a == b <==> Cong(c, d, p)
  {
    CongIff(a, c, b, d, p);
    if Cong(a, b, p) {
      CongResidues(a, b, p);
    } else if a == b {
      Refl(a, p);
    }
  }

  lemma ReplaceFactor(e: int, w: int, a: int, b: int, b': int, p: int)
    requires p > 0 && Cong(e, w, p) && Cong(w, a * b, p) && Cong(b', b, p)
    ensures Cong(e, a * b', p)
  {
    CongSym(b', b, p);
    Refl(a, p);
    CongMul(a, a, b, b', p);
    CongTrans(e, w, a * b, p);
    CongTrans(e, a * b, a * b', p);
  }

  /** The second ciphertext to the challenge: the message and the second shared secret apart. */
  lemma SecondPower(g: Group, m: nat, key: nat, r: nat, x: nat)
    requires g.Valid()
    ensures 0 <= r * x
    ensures Cong(g.Exp(g.Mul(m, g.Exp(key, r)), x), Power(m, x) * g.Exp(key, r * x), g.modulus)
  {
    var p := g.modulus;
    var k := g.Exp(key, r);
    var c2 := g.Mul(m, k);
    ExpPower(g, c2, x);
    MultiplyCong(m, k, p);
    PowerCong(c2, m * k, x, p);
    PowerTimes(m, k, x);
    ExpExp(g, key, r, x);
    ExpPower(g, k, x);
    ReplaceFactor(g.Exp(c2, x), Power(c2, x), Power(m, x), Power(k, x), g.Exp(k, x), p);
  }

  /** The first D1 to the response: the shared secret's power and the commitment apart. */
  lemma FirstPower(g: Group, D: nat, k: nat, x: nat, b: nat)
    requires g.Valid()
    ensures 0 <= k * x
    ensures Cong(g.Exp(D, k * x + b), Power(g.Exp(D, k), x) * g.Exp(D, b), g.modulus)
  {
    var p := g.modulus;
    ResponseOpens(g, D, k, x, b);
    var e := g.Exp(g.Exp(D, k), x);
    MultiplyCong(e, g.Exp(D, b), p);
    ExpPower(g, g.Exp(D, k), x);
    TimesCong(e, Power(g.Exp(D, k), x), g.Exp(D, b), p);
    CongTrans(g.Exp(D, k * x + b), e * g.Exp(D, b), Power(g.Exp(D, k), x) * g.Exp(D, b), p);
  }

  /** The second key to the response, and its parts. */
  lemma KeyPower(g: Group, key: nat, r: nat, x: nat, b: nat)
    requires g.Valid() && key % g.modulus != 0
    ensures 0 <= r * x
    ensures Cong(g.Exp(key, r * x + b), g.Exp(key, r * x) * g.Exp(key, b), g.modulus)
    ensures g.Exp(key, r * x + b) % g.modulus != 0 && g.Exp(key, r * x) % g.modulus != 0 && g.Exp(key, b) % g.modulus != 0
  {
    ResponseOpens(g, key, r, x, b);
    ExpExp(g, key, r, x);
    MultiplyCong(g.Exp(key, r * x), g.Exp(key, b), g.modulus);
    ExpUnit(g, key, r * x + b);
    ExpUnit(g, key, r * x);
    ExpUnit(g, key, b);
  }

  /** A plain text times its shared secret is the ciphertext, if the shared secret is a unit. */
  lemma PlainTimesSecret(g: Group, c: Ciphertext, k: nat)
    requires g.Valid() && c.D1 % g.modulus != 0
    ensures Cong(Plain(g, c, k) * g.Exp(c.D1, k), c.C1, g.modulus)
  {
    var p := g.modulus;
    var e := g.Exp(c.D1, k);
    ExpUnit(g, c.D1, k);
    InvWorks(g, e);
    MultiplyCong(c.C1, g.Inv(e), p);
    assert e * g.Inv(e) == g.Inv(e) * e;
    Undone(Plain(g, c, k), c.C1, g.Inv(e), e, p);
  }

  /** The last check, for the decryption m of the first ciphertext. */
  lemma ThirdCheck(g: Group, c: Ciphertext, k: nat, key: nat, d: Draws, x: nat)
    requires g.Valid() && d.Valid() && key % g.modulus != 0
    ensures 0 <= k * x && 0 <= d.randomizer * x
    ensures var m := Plain(g, c, k);
            var second := Ciphertext(g.Mul(m, g.Exp(key, d.randomizer)), g.Exp(g.generator, d.randomizer));
            Third(g, c, second, key, x, k * x + d.b1, d.randomizer * x + d.b2) == Commit3(g, c, key, d)
            <==> x == 0 || c.C1 % g.modulus != 0 || c.D1 % g.modulus == 0
  {
    var p := g.modulus;
    var m, E := Plain(g, c, k), g.Exp(c.D1, k);
    var C2 := g.Mul(m, g.Exp(key, d.randomizer));
    SecondPower(g, m, key, d.randomizer, x);
    FirstPower(g, c.D1, k, x, d.b1);
    KeyPower(g, key, d.randomizer, x, d.b2);
    var s, r := k * x + d.b1, d.randomizer * x + d.b2;
    var second := Ciphertext(C2, g.Exp(g.generator, d.randomizer));
    var c2x, u, ds, Kr := g.Exp(C2, x), g.Inv(g.Exp(c.C1, x)), g.Exp(c.D1, s), g.Exp(key, r);
    var db, kr, kb := g.Exp(c.D1, d.b1), g.Exp(key, d.randomizer * x), g.Exp(key, d.b2);
    InvWorks(g, Kr);
    InvWorks(g, kb);
    StripUnits(p, c2x, u, ds, g.Inv(Kr), Kr, db, g.Inv(kb), kr, kb, Power(m, x), Power(E, x));
    Product4(g, c2x, u, ds, g.Inv(Kr));
    MultiplyCong(db, g.Inv(kb), p);
    CongCongr(Third(g, c, second, key, x, s, r), Commit3(g, c, key, d),
              c2x * u * ds * g.Inv(Kr), db * g.Inv(kb), p);
    CoreCase(g, c, k, x, d.b1);
  }

  lemma CoreCase(g: Group, c: Ciphertext, k: nat, x: nat, b1: nat)
    requires g.Valid() && b1 >= 1
    ensures Cong((Power(Plain(g, c, k), x) * Power(g.Exp(c.D1, k), x)) * g.Inv(g.Exp(c.C1, x)) * g.Exp(c.D1, b1), g.Exp(c.D1, b1), g.modulus)
            <==> x == 0 || c.C1 % g.modulus != 0 || c.D1 % g.modulus == 0
  {
    var p := g.modulus;
    var u, db := g.Inv(g.Exp(c.C1, x)), g.Exp(c.D1, b1);
    ExpPower(g, c.D1, b1);
    PowerUnitIff(c.D1, b1, p);
    if c.D1 % p == 0 {
      var w := (Power(Plain(g, c, k), x) * Power(g.Exp(c.D1, k), x)) * u;
      assert db == 0;
      assert w * db == 0;
      Refl(0, p);
    } else {
      PlainTimesSecret(g, c, k);
      ExpPower(g, c.C1, x);
      InvWorks(g, g.Exp(c.C1, x));
      PowerUnitIff(c.C1, x, p);
      if Power(c.C1, x) % p != 0 {
        var e := g.Exp(c.C1, x);
        CongSym(e, Power(c.C1, x), p);
        TimesCong(Power(c.C1, x), e, u, p);
        CongTrans(Power(c.C1, x) * u, e * u, 1, p);
      }
      CoreCheck(p, Plain(g, c, k), g.Exp(c.D1, k), c.C1, x, u, db);
    }
  }

  /**
   * Completeness of the delivery proof. If the message is the decryption of the incoming
   * ciphertext, its proof is accepted, for every hash and all draws, exactly when
   * the challenge is 0, or the incoming C1 is a unit, or the incoming D1 is not one: the
   * verifier inverts C1^x, which does not exist for the all-zero message.
   */
  lemma DeliveryProofExactly(g: Group, hash: Hash, privateKey: nat, destinationKey: nat, incoming: Ciphertext, d: Draws)
    requires g.Valid() && d.Valid() && destinationKey % g.modulus != 0
    ensures var message := Decrypt(g, incoming, privateKey);
            var proof := ProofOf(g, hash, message, privateKey, destinationKey, incoming, d);
            var x := Challenge(g, hash, message, privateKey, destinationKey, incoming, d);
            VerifyDeliveryProof(g, hash, proof, incoming, Encrypt(g, message, destinationKey, d.randomizer),
                                g.PublicKey(privateKey), destinationKey)
            <==> x == 0 || incoming.C1 % g.modulus != 0 || incoming.D1 % g.modulus == 0
  {
    var message := Decrypt(g, incoming, privateKey);
    var x := Challenge(g, hash, message, privateKey, destinationKey, incoming, d);
    var n := Plain(g, incoming, privateKey);
    PackUnpack(n);
    CommitmentsOpen(g, privateKey, x, d.b1);
    CommitmentsOpen(g, d.randomizer, x, d.b2);
    ThirdCheck(g, incoming, privateKey, destinationKey, d, x);
  }

  /** The input at which completeness fails: the proof for the zero message is accepted for the challenge 0 alone. */
  lemma ZeroMessageRefused(g: Group, hash: Hash, seederKey: nat, buyerKey: nat, randomizer: nat, d: Draws)
    requires g.Valid() && d.Valid()
    ensures var incoming := Encrypt(g, (0, 0), g.PublicKey(seederKey), randomizer);
            var message := Decrypt(g, incoming, seederKey);
            var proof := ProofOf(g, hash, message, seederKey, g.PublicKey(buyerKey), incoming, d);
            && message == (0, 0)
            && (VerifyDeliveryProof(g, hash, proof, incoming, Encrypt(g, message, g.PublicKey(buyerKey), d.randomizer),
                                    g.PublicKey(seederKey), g.PublicKey(buyerKey))
                <==> Challenge(g, hash, message, seederKey, g.PublicKey(buyerKey), incoming, d) == 0)
  {
    var incoming := Encrypt(g, (0, 0), g.PublicKey(seederKey), randomizer);
    ZeroCiphertext(g, seederKey, randomizer);
    ExpUnit(g, g.generator, buyerKey);
    DeliveryProofExactly(g, hash, seederKey, g.PublicKey(buyerKey), incoming, d);
  }

  lemma ZeroCiphertext(g: Group, seederKey: nat, randomizer: nat)
    requires g.Valid()
    ensures var c := Encrypt(g, (0, 0), g.PublicKey(seederKey), randomizer);
            c.C1 == 0 && c.D1 % g.modulus != 0 && Decrypt(g, c, seederKey) == (0, 0)
  {
    ExpUnit(g, g.generator, randomizer);
    ZeroTimes(g, g.Exp(g.PublicKey(seederKey), randomizer));
    var c := Encrypt(g, (0, 0), g.PublicKey(seederKey), randomizer);
    assert Pack((0, 0)) == 0 && Unpack(0) == (0, 0);
    ZeroTimes(g, g.Inv(g.Exp(c.D1, seederKey)));
  }

  lemma ZeroTimes(g: Group, a: nat)
    requires g.Valid()
    ensures g.Mul(0, a) == 0
  {
    ZeroProduct(a, g.modulus);
  }

  lemma ZeroProduct(a: nat, p: nat)
    requires p > 0
    ensures Multiply(0, a, p) == 0
  {
    assert 0 * a == 0;
    ModBelow(0, p);
  }

  /** What was re-encrypted for the buyer decrypts under the buyer's key to the seeder's message. */
  lemma BuyerRecovers(g: Group, privateKey: nat, buyerKey: nat, incoming: Ciphertext, randomizer: nat)
    requires g.Valid()
    ensures var message := Decrypt(g, incoming, privateKey);
            Decrypt(g, Encrypt(g, message, g.PublicKey(buyerKey), randomizer), buyerKey) == message
  {
    var message := Decrypt(g, incoming, privateKey);
    PackUnpack(Plain(g, incoming, privateKey));
    UnpackBound(Plain(g, incoming, privateKey));
    RoundTripExactly(g, message, buyerKey, randomizer);
  }

  /**
   * The author encrypts a share for a seeder, the seeder decrypts it and re-encrypts it
   * with a proof for the buyer: the proof is accepted and the buyer reads the share,
   * for every share but zero.
   */
  method Deliver(g: Group, hash: Hash, share: Point, seederKey: nat, buyerKey: nat, subgroupOrder: nat)
    returns (accepted: bool, received: Point)
    requires g.Valid() && subgroupOrder >= 2
    requires share.0 < HALF && share.1 < HALF && 0 < Pack(share) < g.modulus
    ensures accepted && received == share
  {
    var incoming := ElGamalEncrypt(g, share, g.PublicKey(seederKey));
    var message := ElGamalDecrypt(g, incoming, seederKey);
    var outgoing, proof := EncryptWithProof(g, hash, message, seederKey, g.PublicKey(buyerKey), incoming, subgroupOrder);
    accepted := VerifyDeliveryProof(g, hash, proof, incoming, outgoing, g.PublicKey(seederKey), g.PublicKey(buyerKey));
    received := ElGamalDecrypt(g, outgoing, buyerKey);
    ShareDecrypted(g, share, seederKey, incoming);
    ProofAccepted(g, hash, seederKey, buyerKey, incoming, outgoing, proof);
  }

  lemma ShareDecrypted(g: Group, share: Point, seederKey: nat, incoming: Ciphertext)
    requires g.Valid() && share.0 < HALF && share.1 < HALF && 0 < Pack(share) < g.modulus
    requires EncryptionOf(g, incoming, share, g.PublicKey(seederKey))
    ensures Decrypt(g, incoming, seederKey) == share && incoming.C1 % g.modulus != 0
  {
    var r: nat :| 1 <= r <= g.modulus - 1 && incoming == Encrypt(g, share, g.PublicKey(seederKey), r);
    RoundTripExactly(g, share, seederKey, r);
    EncryptionUnit(g, share, seederKey, r);
  }

  lemma ProofAccepted(g: Group, hash: Hash, seederKey: nat, buyerKey: nat, incoming: Ciphertext, outgoing: Ciphertext, proof: DeliveryProof)
    requires g.Valid() && incoming.C1 % g.modulus != 0
    requires ProvenReencryption(g, hash, Decrypt(g, incoming, seederKey), seederKey, g.PublicKey(buyerKey), incoming, outgoing, proof)
    ensures VerifyDeliveryProof(g, hash, proof, incoming, outgoing, g.PublicKey(seederKey), g.PublicKey(buyerKey))
    ensures Decrypt(g, outgoing, buyerKey) == Decrypt(g, incoming, seederKey)
  {
    var message := Decrypt(g, incoming, seederKey);
    var d: Draws :| d.Valid() && outgoing == Encrypt(g, message, g.PublicKey(buyerKey), d.randomizer)
      && proof == ProofOf(g, hash, message, seederKey, g.PublicKey(buyerKey), incoming, d);
    ExpUnit(g, g.generator, buyerKey);
    DeliveryProofExactly(g, hash, seederKey, g.PublicKey(buyerKey), incoming, d);
    BuyerRecovers(g, seederKey, buyerKey, incoming, d.randomizer);
  }

  lemma UnitProduct(a: nat, b: nat, p: int)
    requires Prime(p) && 0 < a < p && b % p != 0
    ensures Multiply(a, b, p) % p != 0
  {
    ModBelow(a, p);
    MultiplyCong(a, b, p);
    CongSameMod(Multiply(a, b, p), a * b, p);
    if (a * b) % p == 0 {
      PrimeDivides(a, b, p);
    }
  }

  lemma EncryptionUnit(g: Group, m: Point, k: nat, randomizer: nat)
    requires g.Valid() && 0 < Pack(m) < g.modulus
    ensures Encrypt(g, m, g.PublicKey(k), randomizer).C1 % g.modulus != 0
  {
    var p := g.modulus;
    ExpUnit(g, g.generator, k);
    ExpUnit(g, g.PublicKey(k), randomizer);
    UnitProduct(Pack(m), g.Exp(g.PublicKey(k), randomizer), p);
  }
}
