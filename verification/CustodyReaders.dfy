/**
 * The two ways a content file is read: whole blocks when it is signed, single numbers
 * when a proof is made. Positions are computed in 32-bit unsigned arithmetic.
 */
module CustodyReaders {
  import opened ModularArithmetic

  /** Bytes of a number in the field. */
  const SIZE: nat := 16
  const SECTORS: nat := 20
  const SECTORS_BIG: nat := 100

  const U32: nat := 0x1_0000_0000

  type byte = x: int | 0 <= x < 256

  type File = seq<byte>

  function Zeros(n: nat): (r: seq<byte>)
    ensures |r| == n && forall k :: 0 <= k < n ==> r[k] == 0
  {
    seq(n, _ => 0)
  }

  /** The number of blocks: a partial last block counts. */
  function GetN(length: nat, sectors: nat): (n: nat)
    requires sectors > 0
    ensures n == 0 <==> length == 0
    ensures n > 0 ==> SIZE * sectors * (n - 1) < length
    ensures length <= SIZE * sectors * n
  {
    Blocks(length, SIZE * sectors)
  }

  function Blocks(length: nat, size: nat): (n: nat)
    requires size > 0
    ensures n == 0 <==> length == 0
    ensures n > 0 ==> size * (n - 1) < length
    ensures length <= size * n
  {
    CeilBounds(length, size);
    if length % size != 0 then length / size + 1 else length / size
  }

  lemma CeilBounds(length: nat, size: nat)
    requires size > 0
    ensures 0 <= length / size && size * (length / size) <= length < size * (length / size + 1)
    ensures length % size == 0 <==> size * (length / size) == length
    ensures length > 0 && size * (length / size) == length ==> length / size > 0 && size * (length / size - 1) < length
    ensures length == 0 ==> length / size == 0
  {
    var n := length / size;
    assert length == size * n + length % size;
    Distribute(n, 1, size);
    Distribute(n, -1, size);
    if n < 0 { MulBound(n, size); }
    if n == 0 { assert size * n == 0; }
  }

  /** A whole block, zero-padded past the end of the file. */
  function GetData(file: File, i: nat, sectors: nat): (r: seq<byte>)
    ensures |r| == SIZE * sectors
  {
    var size := SIZE * sectors;
    var position := (size * i) % U32;
    var at := if position <= |file| then position else |file|;
    if |file| > at + size then
      file[at..at + size]
    else
      file[at..] + Zeros(size - (|file| - at))
  }

  /** One number of a block, zero-padded past the end of the file. */
  function GetM(file: File, i: nat, j: nat, sectors: nat): (r: seq<byte>)
    ensures |r| == SIZE
  {
    var position := (SIZE * (j + sectors * i)) % U32;
    if |file| < position then
      Zeros(SIZE)
    else if |file| < position + SIZE then
      file[position..] + Zeros(SIZE - (|file| - position))
    else
      file[position..position + SIZE]
  }

  // ---- what both read ----

  /** The file as if it went on with zeros. */
  function Padded(file: File, position: nat): byte {
    if position < |file| then file[position] else 0
  }

  /** Number j of a block that GetData has read. */
  function Slice(block: seq<byte>, j: nat): (r: seq<byte>)
    requires SIZE * (j + 1) <= |block|
    ensures |r| == SIZE
  {
    block[SIZE * j..SIZE * (j + 1)]
  }

  lemma DataByte(file: File, i: nat, sectors: nat, k: nat)
    requires k < SIZE * sectors
    ensures GetData(file, i, sectors)[k] == Padded(file, (SIZE * sectors * i) % U32 + k)
  {
  }

  lemma NumberByte(file: File, i: nat, j: nat, sectors: nat, k: nat)
    requires k < SIZE
    ensures GetM(file, i, j, sectors)[k] == Padded(file, (SIZE * (j + sectors * i)) % U32 + k)
  {
  }

  /** Whether the reader of numbers and the reader of blocks see the same block. */
  predicate SameBlock(file: File, i: nat, sectors: nat) {
    forall j: nat :: j < sectors ==> GetM(file, i, j, sectors) == Slice(GetData(file, i, sectors), j)
  }

  /** Whether a block's positions, cut to 32 bits, run past 2^32. */
  predicate Straddles(i: nat, sectors: nat) {
    (SIZE * sectors * i) % U32 + SIZE * sectors > U32
  }

  lemma Offset(i: nat, j: nat, sectors: nat)
    ensures SIZE * (j + sectors * i) == SIZE * sectors * i + SIZE * j
  {
    assert SIZE * (sectors * i) == SIZE * sectors * i;
  }

  lemma ModAdd(a: nat, b: nat, m: nat)
    requires m > 0 && b < m
    ensures (a + b) % m == if a % m + b < m then a % m + b else a % m + b - m
  {
    var q, r := a / m, a % m;
    if r + b < m {
      RemainderIs(a + b, q, r + b, m);
    } else {
      Distribute(q, 1, m);
      RemainderIs(a + b, q + 1, r + b - m, m);
    }
  }

  lemma RemainderIs(n: nat, q: nat, r: nat, m: nat)
    requires r < m && n == q * m + r
    ensures n % m == r
  {
    FloorShift(q, r, m);
  }

  lemma SliceMeansPosition(j: nat, sectors: nat)
    requires j < sectors
    ensures SIZE * (j + 1) <= SIZE * sectors
  {
  }

  /** Where a number of a block is read: its offset from the block's start, or from 2^32 on, from the file's start. */
  lemma NumberPosition(i: nat, j: nat, sectors: nat)
    requires SIZE * j < U32
    ensures var start := (SIZE * sectors * i) % U32;
            (SIZE * (j + sectors * i)) % U32 == if start + SIZE * j < U32 then start + SIZE * j else start + SIZE * j - U32
  {
    Offset(i, j, sectors);
    ModAdd(SIZE * sectors * i, SIZE * j, U32);
  }

  lemma NumberAgrees(file: File, i: nat, j: nat, sectors: nat)
    requires SIZE * (j + 1) <= SIZE * sectors
    requires (SIZE * (j + sectors * i)) % U32 == (SIZE * sectors * i) % U32 + SIZE * j
    ensures GetM(file, i, j, sectors) == Slice(GetData(file, i, sectors), j)
  {
    var m, slice := GetM(file, i, j, sectors), Slice(GetData(file, i, sectors), j);
    forall k: nat | k < SIZE ensures m[k] == slice[k] {
      NumberByte(file, i, j, sectors, k);
      DataByte(file, i, sectors, SIZE * j + k);
    }
  }

  lemma InsideAgrees(file: File, i: nat, sectors: nat)
    requires SIZE * sectors <= U32 && !Straddles(i, sectors)
    ensures SameBlock(file, i, sectors)
  {
    forall j: nat | j < sectors
      ensures GetM(file, i, j, sectors) == Slice(GetData(file, i, sectors), j)
    {
      SliceMeansPosition(j, sectors);
      NumberPosition(i, j, sectors);
      NumberAgrees(file, i, j, sectors);
    }
  }

  /** A file that starts with ones and is zero from there. */
  function Marked(length: nat): (f: File)
    ensures |f| == length
  {
    seq(length, k => if k < SIZE then 1 else 0)
  }

  /** Where a block straddles, some file shows it: the number at 2^32 is read from the file's start. */
  lemma StraddleDisagrees(length: nat, i: nat, sectors: nat)
    requires SIZE * sectors <= U32 && Straddles(i, sectors) && SIZE * sectors * i < length
    ensures !SameBlock(Marked(length), i, sectors)
  {
    var file := Marked(length);
    var j := StraddlingNumber(i, sectors);
    NumberByte(file, i, j, sectors, 0);
    DataByte(file, i, sectors, SIZE * j);
    assert Slice(GetData(file, i, sectors), j)[0] == Padded(file, U32) == 0;
    BelowStart(SIZE * sectors * i);
    assert GetM(file, i, j, sectors)[0] == Padded(file, 0) == 1;
  }

  /** The number of a straddling block whose position is 2^32, cut to 0. */
  lemma StraddlingNumber(i: nat, sectors: nat) returns (j: nat)
    requires SIZE * sectors <= U32 && Straddles(i, sectors)
    ensures j < sectors && SIZE * (j + 1) <= SIZE * sectors
    ensures (SIZE * sectors * i) % U32 + SIZE * j == U32
    ensures (SIZE * (j + sectors * i)) % U32 == 0
  {
    var start := (SIZE * sectors * i) % U32;
    Sixteenth(sectors * i);
    assert SIZE * (sectors * i) == SIZE * sectors * i;
    j := ExactQuotient(start);
    SliceMeansPosition(j, sectors);
    NumberPosition(i, j, sectors);
  }

  lemma ExactQuotient(start: nat) returns (j: nat)
    requires start < U32 && start % SIZE == 0
    ensures SIZE * j == U32 - start
  {
    j := (U32 - start) / SIZE;
  }

  lemma Sixteenth(n: nat)
    ensures ((SIZE * n) % U32) % SIZE == 0
  {
    var q := (SIZE * n) / U32;
    assert (SIZE * n) % U32 == SIZE * n - q * U32 == SIZE * (n - q * 0x1000_0000);
  }

  lemma BelowStart(n: nat)
    ensures n % U32 <= n
  {
  }

  /**
   * The two readers agree on a block for every file of a length exactly when the block does
   * not straddle a multiple of 2^32.
   */
  lemma ReadersAgreeExactly(length: nat, i: nat, sectors: nat)
    requires SIZE * sectors <= U32 && SIZE * sectors * i < length
    ensures (forall file: File | |file| == length :: SameBlock(file, i, sectors)) <==> !Straddles(i, sectors)
  {
    if Straddles(i, sectors) {
      StraddleDisagrees(length, i, sectors);
      assert |Marked(length)| == length;
    } else {
      forall file: File | |file| == length ensures SameBlock(file, i, sectors) {
        InsideAgrees(file, i, sectors);
      }
    }
  }

  /** No block straddles exactly when all of them end by 2^32, for block sizes that do not divide it. */
  lemma StraddleFreeExactly(n: nat, sectors: nat)
    requires 0 < SIZE * sectors <= U32 && U32 % (SIZE * sectors) != 0
    ensures (forall i: nat :: i < n ==> !Straddles(i, sectors)) <==> SIZE * sectors * n <= U32
  {
    var size := SIZE * sectors;
    if size * n <= U32 {
      forall i: nat | i < n ensures !Straddles(i, sectors) {
        assert size * (i + 1) <= size * n by { ProductOrder(i + 1, n, size); }
        assert size * (i + 1) == size * i + size;
        ModBelow(size * i, U32);
      }
    } else {
      var i := U32 / size;
      CeilBounds(U32, size);
      assert size * (i + 1) == size * i + size;
      if i >= n { ProductOrder(n, i, size); }
      ModBelow(size * i, U32);
      assert Straddles(i, sectors);
    }
  }

  /** A content of up to 4 GiB less a bit over one block is read alike by both. */
  lemma ReadersAgreeBelowBound(length: nat, sectors: nat)
    requires sectors == SECTORS || sectors == SECTORS_BIG
    ensures (forall i: nat :: i < GetN(length, sectors) ==> !Straddles(i, sectors))
            <==> length <= if sectors == SECTORS then 4294967040 else 4294966400
  {
    StraddleFreeExactly(GetN(length, sectors), sectors);
  }
}
