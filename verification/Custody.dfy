/**
 * Proof of custody: the author signs the blocks of a file, a seeder answers a query about
 * a few of them with one group element and one number a sector, and a miner checks the
 * answer without the file.
 */
module Custody {
  import opened Wrappers
  import opened BilinearGroups
  import opened CustodyReaders

  const MAX_QUERY: nat := 16
  const THREADS: nat := 4

  /**
   * What the parties share: the pairing, its generator, the elements drawn from the seed of
   * the content, the hash of a block's index, and the draws of a query.
   */
  datatype Setup<!G(!new), !T(!new)> = Setup(
    pairing: Pairing<G, T>,
    generator: G,
    u: nat -> G,
    indexHash: nat -> G,
    digest: nat -> nat,
    coefficient: nat -> nat)
  {
    ghost predicate Valid() { pairing.Laws() }

    function Us(sectors: nat): (us: seq<G>)
      ensures |us| == sectors && forall j :: 0 <= j < sectors ==> us[j] == u(j)
    {
      seq(sectors, j requires 0 <= j < sectors => u(j))
    }
  }

  // ---- numbers of a file ----

  /** The bytes of a number, least significant first. */
  function Number(bytes: seq<byte>): nat {
    if |bytes| == 0 then 0 else bytes[0] + 256 * Number(bytes[1..])
  }

  lemma {:induction false} NumberOfZeros(bytes: seq<byte>)
    requires forall k :: 0 <= k < |bytes| ==> bytes[k] == 0
    ensures Number(bytes) == 0
  {
    if |bytes| > 0 { NumberOfZeros(bytes[1..]); }
  }

  /** The numbers of a block as the signer reads them. */
  function SignedRow(file: File, i: nat, sectors: nat): (row: seq<nat>)
    ensures |row| == sectors
  {
    var block := GetData(file, i, sectors);
    seq(sectors, j requires 0 <= j < sectors => SliceMeansPosition(j, sectors); Number(Slice(block, j)))
  }

  /** The numbers of a block as the prover reads them. */
  function ProvedRow(file: File, i: nat, sectors: nat): (row: seq<nat>)
    ensures |row| == sectors
  {
    seq(sectors, j requires 0 <= j < sectors => Number(GetM(file, i, j, sectors)))
  }

  lemma SameRows(file: File, i: nat, sectors: nat)
    requires SameBlock(file, i, sectors)
    ensures SignedRow(file, i, sectors) == ProvedRow(file, i, sectors)
  {
    forall j: nat | j < sectors
      ensures SignedRow(file, i, sectors)[j] == ProvedRow(file, i, sectors)[j]
    {
      SliceMeansPosition(j, sectors);
    }
  }

  // ---- the author: signatures ----

  function SignatureOf<G(!new), T(!new)>(s: Setup<G, T>, k: nat, row: seq<nat>, privateKey: nat): G {
    var p := s.pairing;
    p.Pow(p.mul(p.Product(s.Us(|row|), row, |row|), s.indexHash(k)), privateKey)
  }

  function SignatureAt<G(!new), T(!new)>(s: Setup<G, T>, file: File, sectors: nat, privateKey: nat, k: nat): G {
    SignatureOf(s, k, SignedRow(file, k, sectors), privateKey)
  }

  /** The signatures of every block. */
  ghost function Signatures<G(!new), T(!new)>(s: Setup<G, T>, file: File, n: nat, sectors: nat, privateKey: nat): (r: seq<G>)
    ensures |r| == n && forall k :: 0 <= k < n ==> r[k] == SignatureAt(s, file, sectors, privateKey, k)
  {
    seq(n, k requires 0 <= k < n => SignatureAt(s, file, sectors, privateKey, k))
  }

  method GetSigma<G(!new), T(!new)>(s: Setup<G, T>, idx: nat, m: seq<nat>, u: seq<G>, privateKey: nat, out: array<G>)
    requires s.Valid() && idx < out.Length && |m| > 0 && u == s.Us(|m|)
    modifies out
    ensures forall k :: 0 <= k < out.Length && k != idx ==> out[k] == old(out[k])
    ensures out[idx] == SignatureOf(s, idx, m, privateKey)
  {
    var p := s.pairing;
    out[idx] := p.Pow(u[0], m[0]);
    assert p.Neutral(p.Pow(u[0], m[0]));
    assert p.Product(u, m, 1) == p.mul(p.Product(u, m, 0), p.Pow(u[0], m[0]));
    var j := 1;
    while j < |m|
      invariant 1 <= j <= |m|
      invariant out[idx] == p.Product(u, m, j)
      invariant forall k :: 0 <= k < out.Length && k != idx ==> out[k] == old(out[k])
    {
      out[idx] := p.mul(out[idx], p.Pow(u[j], m[j]));
      j := j + 1;
    }
    out[idx] := p.mul(out[idx], s.indexHash(idx));
    out[idx] := p.Pow(out[idx], privateKey);
  }

  ghost predicate SignedUpTo<G(!new), T(!new)>(s: Setup<G, T>, file: File, sectors: nat, privateKey: nat, sigmas: seq<G>, n: nat) {
    n <= |sigmas| && forall k :: 0 <= k < n ==> sigmas[k] == SignatureAt(s, file, sectors, privateKey, k)
  }

  lemma SignedOneMore<G(!new), T(!new)>(s: Setup<G, T>, file: File, sectors: nat, privateKey: nat, before: seq<G>, after: seq<G>, n: nat)
    requires SignedUpTo(s, file, sectors, privateKey, before, n) && |before| == |after| && n < |after|
    requires forall k :: 0 <= k < |after| && k != n ==> after[k] == before[k]
    requires after[n] == SignatureAt(s, file, sectors, privateKey, n)
    ensures SignedUpTo(s, file, sectors, privateKey, after, n + 1)
  {
  }

  /** Blocks are handed out four at a time; here the batch runs in order. */
  method GetSigmas<G(!new), T(!new)>(s: Setup<G, T>, file: File, n: nat, sectors: nat, privateKey: nat) returns (sigmas: array<G>)
    requires s.Valid() && sectors > 0
    ensures fresh(sigmas) && sigmas[..] == Signatures(s, file, n, sectors, privateKey)
  {
    sigmas := new G[n](_ => s.pairing.one);
    var u := s.Us(sectors);
    var i := 0;
    while i < n
      invariant 0 <= i
      invariant SignedUpTo(s, file, sectors, privateKey, sigmas[..], if i < n then i else n)
    {
      var iterations := if n - i < THREADS then n - i else THREADS;
      var k := 0;
      while k < iterations
        invariant 0 <= k <= iterations
        invariant SignedUpTo(s, file, sectors, privateKey, sigmas[..], i + k)
      {
        ghost var before := sigmas[..];
        GetSigma(s, i + k, SignedRow(file, i + k, sectors), u, privateKey, sigmas);
        SignedOneMore(s, file, sectors, privateKey, before, sigmas[..], i + k);
        k := k + 1;
      }
      i := i + THREADS;
    }
  }

  // ---- the query ----

  function GetNumberOfQuery(blocks: nat): (q: nat)
    ensures q <= MAX_QUERY && q <= blocks && (q < MAX_QUERY ==> q == blocks)
  {
    if blocks > MAX_QUERY then MAX_QUERY else blocks
  }

  function QueryIndex<G(!new), T(!new)>(s: Setup<G, T>, seed: nat, q: nat, n: nat, i: nat): (k: nat)
    requires i < q <= n
    ensures k < n
  {
    if q < MAX_QUERY then i else s.digest(seed + i) % n
  }

  /** The blocks a query asks for: all of a short content, and otherwise sixteen drawn ones. */
  function Indices<G(!new), T(!new)>(s: Setup<G, T>, seed: nat, n: nat): (r: seq<nat>)
    ensures |r| == GetNumberOfQuery(n) && forall i :: 0 <= i < |r| ==> r[i] < n
  {
    seq(GetNumberOfQuery(n), i requires 0 <= i < GetNumberOfQuery(n) => QueryIndex(s, seed, GetNumberOfQuery(n), n, i))
  }

  /** The coefficients, in the field of exponents. */
  function Coefficients<G(!new), T(!new)>(s: Setup<G, T>, seed: nat, n: nat): (r: seq<nat>)
    requires s.pairing.order > 0
    ensures |r| == GetNumberOfQuery(n) && forall i :: 0 <= i < |r| ==> r[i] < s.pairing.order
  {
    seq(GetNumberOfQuery(n), i requires 0 <= i < GetNumberOfQuery(n) => s.coefficient(seed + i) % s.pairing.order)
  }

  method GenerateQueryFromSeed<G(!new), T(!new)>(s: Setup<G, T>, seed: nat, n: nat)
    returns (indices: seq<nat>, v: seq<nat>)
    requires s.Valid()
    ensures indices == Indices(s, seed, n) && v == Coefficients(s, seed, n)
  {
    var q := GetNumberOfQuery(n);
    indices, v := [], [];
    for i := 0 to q
      invariant indices == Indices(s, seed, n)[..i] && v == Coefficients(s, seed, n)[..i]
    {
      indices := indices + [QueryIndex(s, seed, q, n, i)];
      v := v + [s.coefficient(seed + i) % s.pairing.order];
    }
  }

  // ---- the seeder: the answer ----

  /** A draw times a number, in the field of exponents. */
  function Scaled(v: nat, m: nat, order: nat): (r: nat)
    requires order > 0
    ensures r < order
  {
    assert v * m >= 0;
    (v * m) % order
  }

  /** The combination of one column of the queried rows, in the field of exponents. */
  function Mu(rows: seq<seq<nat>>, v: seq<nat>, j: nat, q: nat, order: nat): (r: nat)
    requires order > 0 && q <= |rows| && q <= |v| && forall i :: 0 <= i < q ==> j < |rows[i]|
    ensures r < order
  {
    if q == 0 then 0 else (Mu(rows, v, j, q - 1, order) + Scaled(v[q - 1], rows[q - 1][j], order)) % order
  }

  ghost function Rows(file: File, indices: seq<nat>, sectors: nat): (rows: seq<seq<nat>>)
    ensures |rows| == |indices| && forall i :: 0 <= i < |rows| ==> rows[i] == ProvedRow(file, indices[i], sectors) && |rows[i]| == sectors
  {
    seq(|indices|, i requires 0 <= i < |indices| => ProvedRow(file, indices[i], sectors))
  }

  ghost function Mus(rows: seq<seq<nat>>, v: seq<nat>, sectors: nat, q: nat, order: nat): (r: seq<nat>)
    requires order > 0 && q <= |rows| && q <= |v| && forall i :: 0 <= i < q ==> |rows[i]| == sectors
    ensures |r| == sectors
  {
    seq(sectors, j requires 0 <= j < sectors => Mu(rows, v, j, q, order))
  }

  method ComputeMu<G(!new), T(!new)>(s: Setup<G, T>, file: File, indices: seq<nat>, v: seq<nat>, sectors: nat)
    returns (mu: seq<nat>)
    requires s.Valid() && |indices| == |v|
    ensures mu == Mus(Rows(file, indices, sectors), v, sectors, |v|, s.pairing.order)
  {
    ghost var order := s.pairing.order;
    ghost var rows := Rows(file, indices, sectors);
    mu := [];
    for j := 0 to sectors
      invariant |mu| == j
      invariant forall k :: 0 <= k < j ==> mu[k] == Mu(rows, v, k, |v|, order)
    {
      var sum := Column(file, indices, v, j, sectors, s.pairing.order);
      mu := mu + [sum];
    }
    ColumnsAre(mu, rows, v, sectors, order);
  }

  lemma ColumnsAre(mu: seq<nat>, rows: seq<seq<nat>>, v: seq<nat>, sectors: nat, order: nat)
    requires order > 0 && |rows| == |v| && |mu| == sectors && forall i :: 0 <= i < |v| ==> |rows[i]| == sectors
    requires forall k :: 0 <= k < sectors ==> mu[k] == Mu(rows, v, k, |v|, order)
    ensures mu == Mus(rows, v, sectors, |v|, order)
  {
  }

  method Column(file: File, indices: seq<nat>, v: seq<nat>, j: nat, sectors: nat, order: nat) returns (sum: nat)
    requires order > 0 && |indices| == |v| && j < sectors
    ensures sum == Mu(Rows(file, indices, sectors), v, j, |v|, order)
  {
    ghost var rows := Rows(file, indices, sectors);
    sum := 0;
    for i := 0 to |v|
      invariant sum == Mu(rows, v, j, i, order)
    {
      var m := ReadNumber(file, indices[i], j, sectors);
      sum := AddTerm(rows, v, i, j, m, sum, order);
    }
  }

  method ReadNumber(file: File, i: nat, j: nat, sectors: nat) returns (m: nat)
    requires j < sectors
    ensures m == ProvedRow(file, i, sectors)[j]
  {
    m := Number(GetM(file, i, j, sectors));
  }

  /** The first term sets the sum, the others are added to it. */
  method AddTerm(ghost rows: seq<seq<nat>>, v: seq<nat>, i: nat, j: nat, m: nat, sum: nat, order: nat) returns (next: nat)
    requires order > 0 && i < |rows| && i < |v| && (forall k :: 0 <= k <= i ==> j < |rows[k]|) && rows[i][j] == m
    requires sum == Mu(rows, v, j, i, order)
    ensures next == Mu(rows, v, j, i + 1, order)
  {
    var temp := Scaled(v[i], m, order);
    next := if i > 0 then (sum + temp) % order else temp;
  }

  function Picked<G>(sigmas: seq<G>, indices: seq<nat>): (r: seq<G>)
    requires forall i :: 0 <= i < |indices| ==> indices[i] < |sigmas|
    ensures |r| == |indices| && forall i :: 0 <= i < |r| ==> r[i] == sigmas[indices[i]]
  {
    seq(|indices|, i requires 0 <= i < |indices| => sigmas[indices[i]])
  }

  method ComputeSigma<G(!new), T(!new)>(s: Setup<G, T>, sigmas: seq<G>, indices: seq<nat>, v: seq<nat>) returns (sigma: G)
    requires s.Valid() && |indices| == |v|
    requires forall i :: 0 <= i < |indices| ==> indices[i] < |sigmas|
    ensures sigma == s.pairing.Product(Picked(sigmas, indices), v, |v|)
  {
    var p := s.pairing;
    sigma := p.one;
    for i := 0 to |v|
      invariant sigma == p.Product(Picked(sigmas, indices), v, i)
    {
      sigma := p.mul(sigma, p.Pow(sigmas[indices[i]], v[i]));
    }
  }

  // ---- the miner: verification ----

  function Hashes<G(!new), T(!new)>(s: Setup<G, T>, indices: seq<nat>): (r: seq<G>)
    ensures |r| == |indices| && forall i :: 0 <= i < |r| ==> r[i] == s.indexHash(indices[i])
  {
    seq(|indices|, i requires 0 <= i < |indices| => s.indexHash(indices[i]))
  }

  ghost predicate Verifies<G(!new), T(!new)>(s: Setup<G, T>, sigma: G, indices: seq<nat>, v: seq<nat>, mu: seq<nat>, publicKey: G)
    requires |indices| == |v|
  {
    var p := s.pairing;
    var left := p.mul(p.Product(Hashes(s, indices), v, |v|), p.Product(s.Us(|mu|), mu, |mu|));
    p.e(sigma, s.generator) == p.e(left, publicKey)
  }

  method Verify<G(!new), T(==, !new)>(s: Setup<G, T>, sigma: G, indices: seq<nat>, v: seq<nat>, u: seq<G>, mu: seq<nat>, publicKey: G)
    returns (accepted: bool)
    requires s.Valid() && |indices| == |v| && u == s.Us(|mu|)
    ensures accepted <==> Verifies(s, sigma, indices, v, mu, publicKey)
  {
    var p := s.pairing;
    var res1 := p.e(sigma, s.generator);
    var multi1 := p.one;
    for i := 0 to |v|
      invariant multi1 == p.Product(Hashes(s, indices), v, i)
    {
      var temp := p.Pow(s.indexHash(indices[i]), v[i]);
      assert p.Neutral(temp);
      multi1 := if i > 0 then p.mul(multi1, temp) else temp;
    }
    var multi2 := p.one;
    for i := 0 to |mu|
      invariant multi2 == p.Product(u, mu, i)
    {
      var temp := p.Pow(u[i], mu[i]);
      assert p.Neutral(temp);
      multi2 := if i > 0 then p.mul(multi2, temp) else temp;
    }
    var left2 := p.mul(multi1, multi2);
    accepted := res1 == p.e(left2, publicKey);
  }

  method VerifyByMiner<G(!new), T(==, !new)>(s: Setup<G, T>, n: nat, publicKey: G, sigma: G, mus: seq<nat>, seed: nat)
    returns (accepted: bool)
    requires s.Valid()
    ensures accepted <==> Verifies(s, sigma, Indices(s, seed, n), Coefficients(s, seed, n), mus, publicKey)
  {
    var u := s.Us(|mus|);
    var indices, v := GenerateQueryFromSeed(s, seed, n);
    accepted := Verify(s, sigma, indices, v, u, mus, publicKey);
  }

  method CreateCustodyData<G(!new), T(!new)>(s: Setup<G, T>, file: File, privateKey: nat, sectors: nat)
    returns (n: nat, publicKey: G, sigmas: seq<G>)
    requires s.Valid() && sectors > 0
    ensures n == GetN(|file|, sectors)
    ensures publicKey == s.pairing.Pow(s.generator, privateKey)
    ensures sigmas == Signatures(s, file, n, sectors, privateKey)
  {
    publicKey := s.pairing.Pow(s.generator, privateKey);
    n := GetN(|file|, sectors);
    var a := GetSigmas(s, file, n, sectors, privateKey);
    sigmas := a[..];
  }

  datatype Proof<G> = Proof(sigma: G, mus: seq<nat>)

  /** The sector count is guessed from the number of blocks: 20 first, then 100. */
  function SectorsFor(length: nat, n: nat): Option<nat> {
    if GetN(length, SECTORS) == n then Some(SECTORS)
    else if GetN(length, SECTORS_BIG) == n then Some(SECTORS_BIG)
    else None
  }

  /** The answer to a query, by the numbers that the prover reads. */
  ghost function ProofFor<G(!new), T(!new)>(s: Setup<G, T>, file: File, sigmas: seq<G>, sectors: nat, indices: seq<nat>, v: seq<nat>): Proof<G>
    requires s.Valid() && |indices| == |v| && forall i :: 0 <= i < |indices| ==> indices[i] < |sigmas|
  {
    Proof(s.pairing.Product(Picked(sigmas, indices), v, |v|),
          Mus(Rows(file, indices, sectors), v, sectors, |v|, s.pairing.order))
  }

  /** The prover checks its own proof with the miner's method. */
  method CreateProofOfCustody<G(!new), T(==, !new)>(s: Setup<G, T>, file: File, n: nat, publicKey: G, sigmas: seq<G>, seed: nat)
    returns (result: Option<(Proof<G>, bool)>)
    requires s.Valid() && |sigmas| == n
    ensures result.None? <==> SectorsFor(|file|, n).None?
    ensures result.Some? ==>
      var sectors := SectorsFor(|file|, n).value;
      var indices, v := Indices(s, seed, n), Coefficients(s, seed, n);
      && result.value.0 == ProofFor(s, file, sigmas, sectors, indices, v)
      && (result.value.1 <==> Verifies(s, result.value.0.sigma, indices, v, result.value.0.mus, publicKey))
  {
    var guess := SectorsFor(|file|, n);
    if guess.None? {
      return None;
    }
    var indices, v := GenerateQueryFromSeed(s, seed, n);
    var mu := ComputeMu(s, file, indices, v, guess.value);
    var sigma := ComputeSigma(s, sigmas, indices, v);
    var accepted := VerifyByMiner(s, n, publicKey, sigma, mu, seed);
    result := Some((Proof(sigma, mu), accepted));
  }

  // ---- completeness ----

  /** Adding a multiple of a row to the exponents multiplies the product by a power of the row's product. */
  lemma {:induction false} AddRow<G(!new), T(!new)>(p: Pairing<G, T>, us: seq<G>, a: seq<nat>, b: seq<nat>, c: seq<nat>, v: nat, n: nat)
    requires p.Laws() && n <= |us| && n <= |a| && n <= |b| && n <= |c|
    requires forall j :: 0 <= j < n ==> c[j] == (a[j] + (v * b[j]) % p.order) % p.order
    ensures p.Product(us, c, n) == p.mul(p.Product(us, a, n), p.Pow(p.Product(us, b, n), v))
  {
    if n == 0 {
      p.PowOne(v);
      assert p.Neutral(p.one);
    } else {
      var u, x, y := us[n - 1], a[n - 1], b[n - 1];
      AddRow(p, us, a, b, c, v, n - 1);
      AddEntry(p, u, x, y, v);
      p.Interchange(p.Product(us, a, n - 1), p.Pow(p.Product(us, b, n - 1), v), p.Pow(u, x), p.Pow(p.Pow(u, y), v));
      p.PowTimes(p.Product(us, b, n - 1), p.Pow(u, y), v);
    }
  }

  lemma AddEntry<G(!new), T(!new)>(p: Pairing<G, T>, u: G, x: nat, y: nat, v: nat)
    requires p.Laws()
    ensures 0 <= v * y
    ensures p.Pow(u, (x + (v * y) % p.order) % p.order) == p.mul(p.Pow(u, x), p.Pow(p.Pow(u, y), v))
  {
    p.PowMul(u, y, v);
    assert y * v == v * y;
    p.PowMod(u, x + (v * y) % p.order);
    p.PowAdd(u, x, (v * y) % p.order);
    p.PowMod(u, v * y);
  }

  /**
   * The swap of the double product: the signatures of the queried blocks, combined by block,
   * are the hashes and the seed's elements combined by block and by sector.
   */
  lemma {:induction false} Swap<G(!new), T(!new)>(s: Setup<G, T>, sigmas: seq<G>, hashes: seq<G>, rows: seq<seq<nat>>, v: seq<nat>, sectors: nat, privateKey: nat, q: nat)
    requires s.Valid() && q <= |sigmas| && q <= |hashes| && q <= |rows| && q <= |v|
    requires forall i :: 0 <= i < q ==> |rows[i]| == sectors
    requires forall i :: 0 <= i < q ==>
      sigmas[i] == s.pairing.Pow(s.pairing.mul(s.pairing.Product(s.Us(sectors), rows[i], sectors), hashes[i]), privateKey)
    ensures var p := s.pairing;
      p.Product(sigmas, v, q)
      == p.Pow(p.mul(p.Product(hashes, v, q), p.Product(s.Us(sectors), Mus(rows, v, sectors, q, p.order), sectors)), privateKey)
  {
    var p, us := s.pairing, s.Us(sectors);
    var mus := Mus(rows, v, sectors, q, p.order);
    if q == 0 {
      ZeroExponents(p, us, mus, sectors);
      p.PowOne(privateKey);
      assert p.Neutral(p.one);
    } else {
      var mus' := Mus(rows, v, sectors, q - 1, p.order);
      Swap(s, sigmas, hashes, rows, v, sectors, privateKey, q - 1);
      AddRow(p, us, mus', rows[q - 1], mus, v[q - 1], sectors);
      SwapStep(p, p.Product(hashes, v, q - 1), p.Product(us, mus', sectors), hashes[q - 1],
               p.Product(us, rows[q - 1], sectors), v[q - 1], privateKey);
    }
  }

  lemma SwapStep<G(!new), T(!new)>(p: Pairing<G, T>, hs: G, ms: G, h: G, row: G, v: nat, k: nat)
    requires p.Laws()
    ensures p.mul(p.Pow(p.mul(hs, ms), k), p.Pow(p.Pow(p.mul(row, h), k), v))
         == p.Pow(p.mul(p.mul(hs, p.Pow(h, v)), p.mul(ms, p.Pow(row, v))), k)
  {
    p.PowMul(p.mul(row, h), k, v);
    p.PowMul(p.mul(row, h), v, k);
    assert k * v == v * k;
    p.PowTimes(p.mul(hs, ms), p.Pow(p.mul(row, h), v), k);
    assert p.Commutative(row, h);
    p.PowTimes(h, row, v);
    p.Interchange(hs, ms, p.Pow(h, v), p.Pow(row, v));
  }

  lemma {:induction false} ZeroExponents<G(!new), T(!new)>(p: Pairing<G, T>, us: seq<G>, es: seq<nat>, n: nat)
    requires p.Laws() && n <= |us| && n <= |es|
    requires forall j :: 0 <= j < n ==> es[j] == 0
    ensures p.Product(us, es, n) == p.one
  {
    if n > 0 {
      ZeroExponents(p, us, es, n - 1);
      assert p.Neutral(p.one);
    }
  }

  /** The miner accepts an answer that is computed from the rows the author signed. */
  lemma SignedRowsVerify<G(!new), T(!new)>(s: Setup<G, T>, file: File, sigmas: seq<G>, sectors: nat, indices: seq<nat>, v: seq<nat>, privateKey: nat)
    requires s.Valid() && |indices| == |v|
    requires forall i :: 0 <= i < |indices| ==> indices[i] < |sigmas|
    requires forall i :: 0 <= i < |indices| ==>
      sigmas[indices[i]] == SignatureOf(s, indices[i], ProvedRow(file, indices[i], sectors), privateKey)
    ensures var proof := ProofFor(s, file, sigmas, sectors, indices, v);
      Verifies(s, proof.sigma, indices, v, proof.mus, s.pairing.Pow(s.generator, privateKey))
  {
    var p := s.pairing;
    var rows := Rows(file, indices, sectors);
    Swap(s, Picked(sigmas, indices), Hashes(s, indices), rows, v, sectors, privateKey, |v|);
    var mus := Mus(rows, v, sectors, |v|, p.order);
    p.MoveExponent(p.mul(p.Product(Hashes(s, indices), v, |v|), p.Product(s.Us(sectors), mus, sectors)), s.generator, privateKey);
  }

  /** The guess of the sector count is wrong only for a content of at most one small block. */
  lemma SectorsGuess(length: nat, sectors: nat)
    requires sectors == SECTORS || sectors == SECTORS_BIG
    ensures SectorsFor(length, GetN(length, sectors)).Some?
    ensures SectorsFor(length, GetN(length, sectors)) == Some(sectors)
            <==> sectors == SECTORS || length > SIZE * SECTORS
  {
  }

  lemma {:induction false} TrailingZeros<G(!new), T(!new)>(p: Pairing<G, T>, us: seq<G>, es: seq<nat>, us': seq<G>, es': seq<nat>, m: nat, n: nat)
    requires p.Laws() && m <= n <= |us| && n <= |es| && m <= |us'| && m <= |es'|
    requires forall j :: 0 <= j < m ==> us[j] == us'[j] && es[j] == es'[j]
    requires forall j :: m <= j < n ==> es[j] == 0
    ensures p.Product(us, es, n) == p.Product(us', es', m)
    decreases n
  {
    if n > m {
      TrailingZeros(p, us, es, us', es', m, n - 1);
      assert p.Neutral(p.Product(us', es', m));
    } else if n > 0 {
      TrailingZeros(p, us, es, us', es', m - 1, n - 1);
    }
  }

  /** The first block of a short content has the same signature for both sector counts. */
  lemma ShortContent<G(!new), T(!new)>(s: Setup<G, T>, file: File, privateKey: nat)
    requires s.Valid() && |file| <= SIZE * SECTORS
    ensures SignatureOf(s, 0, SignedRow(file, 0, SECTORS_BIG), privateKey)
         == SignatureOf(s, 0, SignedRow(file, 0, SECTORS), privateKey)
  {
    var a, b := SignedRow(file, 0, SECTORS), SignedRow(file, 0, SECTORS_BIG);
    forall j: nat | j < SECTORS_BIG
      ensures if j < SECTORS then b[j] == a[j] else b[j] == 0
    {
      ShortNumber(file, j);
    }
    TrailingZeros(s.pairing, s.Us(SECTORS_BIG), b, s.Us(SECTORS), a, SECTORS, SECTORS_BIG);
  }

  lemma ShortNumber(file: File, j: nat)
    requires |file| <= SIZE * SECTORS && j < SECTORS_BIG
    ensures j < SECTORS ==> SignedRow(file, 0, SECTORS_BIG)[j] == SignedRow(file, 0, SECTORS)[j]
    ensures j >= SECTORS ==> SignedRow(file, 0, SECTORS_BIG)[j] == 0
  {
    SliceMeansPosition(j, SECTORS_BIG);
    var big := Slice(GetData(file, 0, SECTORS_BIG), j);
    forall k: nat | k < SIZE ensures big[k] == Padded(file, SIZE * j + k) {
      DataByte(file, 0, SECTORS_BIG, SIZE * j + k);
    }
    if j < SECTORS {
      SliceMeansPosition(j, SECTORS);
      var small := Slice(GetData(file, 0, SECTORS), j);
      forall k: nat | k < SIZE ensures small[k] == Padded(file, SIZE * j + k) {
        DataByte(file, 0, SECTORS, SIZE * j + k);
      }
      assert small == big;
    } else {
      NumberOfZeros(big);
    }
  }

  /**
   * Completeness. A seeder that holds the author's file and signatures answers every query so
   * that the miner accepts, whichever sector count the author chose and whatever the prover
   * guesses, if no queried block's positions run past 2^32.
   */
  lemma Completeness<G(!new), T(!new)>(s: Setup<G, T>, file: File, privateKey: nat, sectors: nat, indices: seq<nat>, v: seq<nat>)
    requires s.Valid() && (sectors == SECTORS || sectors == SECTORS_BIG) && |indices| == |v|
    requires forall i :: 0 <= i < |indices| ==> indices[i] < GetN(|file|, sectors) && !Straddles(indices[i], sectors)
    ensures var n := GetN(|file|, sectors);
      && SectorsFor(|file|, n).Some?
      && var proof := ProofFor(s, file, Signatures(s, file, n, sectors, privateKey), SectorsFor(|file|, n).value, indices, v);
         Verifies(s, proof.sigma, indices, v, proof.mus, s.pairing.Pow(s.generator, privateKey))
  {
    var n := GetN(|file|, sectors);
    SectorsGuess(|file|, sectors);
    var guess := SectorsFor(|file|, n).value;
    var sigmas := Signatures(s, file, n, sectors, privateKey);
    forall i | 0 <= i < |indices|
      ensures sigmas[indices[i]] == SignatureOf(s, indices[i], ProvedRow(file, indices[i], guess), privateKey)
    {
      ProvedAsSigned(s, file, privateKey, sectors, indices[i]);
    }
    SignedRowsVerify(s, file, sigmas, guess, indices, v, privateKey);
  }

  /** The prover's row, for the sector count it guesses, has the author's signature. */
  lemma ProvedAsSigned<G(!new), T(!new)>(s: Setup<G, T>, file: File, privateKey: nat, sectors: nat, k: nat)
    requires s.Valid() && (sectors == SECTORS || sectors == SECTORS_BIG)
    requires k < GetN(|file|, sectors) && !Straddles(k, sectors)
    ensures var guess := SectorsFor(|file|, GetN(|file|, sectors));
      guess.Some? && SignatureAt(s, file, sectors, privateKey, k) == SignatureOf(s, k, ProvedRow(file, k, guess.value), privateKey)
  {
    SectorsGuess(|file|, sectors);
    if SectorsFor(|file|, GetN(|file|, sectors)) == Some(sectors) {
      InsideAgrees(file, k, sectors);
      SameRows(file, k, sectors);
    } else {
      WrongGuess(|file|, sectors, k);
      ShortContent(s, file, privateKey);
      InsideAgrees(file, 0, SECTORS);
      SameRows(file, 0, SECTORS);
    }
  }

  lemma WrongGuess(length: nat, sectors: nat, k: nat)
    requires (sectors == SECTORS || sectors == SECTORS_BIG) && k < GetN(length, sectors)
    requires SectorsFor(length, GetN(length, sectors)) != Some(sectors)
    ensures sectors == SECTORS_BIG && length <= SIZE * SECTORS && k == 0
    ensures SectorsFor(length, GetN(length, sectors)) == Some(SECTORS) && !Straddles(0, SECTORS)
  {
    SectorsGuess(length, sectors);
  }

  /** Custody data made for a content within the bound, then a proof of it, for any seed. */
  method SignThenProve<G(!new), T(==, !new)>(s: Setup<G, T>, file: File, privateKey: nat, sectors: nat, seed: nat) returns (accepted: bool)
    requires s.Valid() && (sectors == SECTORS || sectors == SECTORS_BIG)
    requires |file| <= if sectors == SECTORS then 4294967040 else 4294966400
    ensures accepted
  {
    var n, publicKey, sigmas := CreateCustodyData(s, file, privateKey, sectors);
    var result := CreateProofOfCustody(s, file, n, publicKey, sigmas, seed);
    ReadersAgreeBelowBound(|file|, sectors);
    Completeness(s, file, privateKey, sectors, Indices(s, seed, n), Coefficients(s, seed, n));
    accepted := result.value.1;
  }
}
