/** The matrix kernel (benchmark/coremark_v1.0/core_matrix.c). */
module Matrix {
  import opened Arithmetic
  import opened Words
  import opened Bitwise
  import Crc

  /** Index of element (i, j) of an N by N matrix. */
  function At(N: nat, i: nat, j: nat): nat {
    i * N + j
  }

  lemma AtInside(N: nat, i: nat, j: nat)
    requires i < N && j < N
    ensures At(N, i, j) < N * N && At(N, i, j) == At(N, i, 0) + j
    ensures At(N, i, j) / N == i && At(N, i, j) % N == j
    ensures At(N, i + 1, 0) == At(N, i, 0) + N <= N * N
  {
    MulMono(i + 1, N, N);
    Distribute(i, 1, 1, N);
    Div(i, j, N);
  }

  function Get(s: seq<s16>, x: int): s16 {
    if 0 <= x < |s| then s[x] else 0
  }

  /** One summand: a product, or some bits of it. */
  function Term(x: s16, y: s16, bits: bool): (t: int)
    ensures -0x4000_0000 <= t <= 0x4000_0000
  {
    ProductBound(x, y, 0x8000);
    var tmp := (x as int) * (y as int);
    if bits then BitExtract(tmp, 4, 0x10) * BitExtract(tmp, 0x20, 0x80) else tmp
  }

  /** `((x)>>(from)) & (~(0xffffffff << (to)))`, given the powers of two; >> rounds towards minus infinity. */
  function BitExtract(x: int, from: nat, to: nat): (r: nat)
    requires from > 0 && to > 0
    ensures r < to
  {
    x / from % to
  }

  lemma ProductBound(x: int, y: int, m: nat)
    requires -(m as int) <= x <= m && -0x8000 <= y <= 0x8000
    ensures -(m * 0x8000) <= x * y <= m * 0x8000
  {
    var a, b := if x < 0 then -x else x, if y < 0 then -y else y;
    MulMono(a, m, b);
    MulMono(b, 0x8000, m);
    Signs(x, y);
  }

  lemma Signs(x: int, y: int)
    ensures var a, b := if x < 0 then -x else x, if y < 0 then -y else y;
            a * b >= 0 && (x * y == a * b || x * y == -(a * b))
  {
  }

  /** `bit_extract(tmp,2,4)*bit_extract(tmp,5,7)`: bits 2 to 5 as a number, times bits 5 to 11 as a number. */
  function Extracted(p: int): int {
    (BitOf(p, 2) + 2 * BitOf(p, 3) + 4 * BitOf(p, 4) + 8 * BitOf(p, 5))
    * (BitOf(p, 5) + 2 * BitOf(p, 6) + 4 * BitOf(p, 7) + 8 * BitOf(p, 8) + 16 * BitOf(p, 9) + 32 * BitOf(p, 10)
       + 64 * BitOf(p, 11))
  }

  lemma FourLowBits(z: int)
    ensures z % 16 == BitOf(z, 0) + 2 * BitOf(z, 1) + 4 * BitOf(z, 2) + 8 * BitOf(z, 3)
  {
    FirstBits(z);
    FirstBits(z / 4);
    HigherBits(z);
    SixteenOf(z);
  }

  lemma SixteenOf(z: int)
    ensures z % 16 == z % 4 + 4 * (z / 4 % 4)
  {
  }

  lemma FirstBits(z: int)
    ensures z % 4 == BitOf(z, 0) + 2 * BitOf(z, 1)
  {
    assert Pow2(0) == 1 && Pow2(1) == 2;
  }

  lemma HigherBits(z: int)
    ensures BitOf(z, 2) == BitOf(z / 4, 0) && BitOf(z, 3) == BitOf(z / 4, 1)
  {
    hide BitOf;
    HigherBit(z, 2);
    HigherBit(z / 2, 1);
    HigherBit(z, 3);
    HigherBit(z / 2, 2);
  }

  /** Dropping low bits renumbers the others. */
  lemma {:induction false} DroppedBits(x: int, n: nat, k: nat)
    ensures BitOf(x / Pow2(n), k) == BitOf(x, n + k)
    decreases n
  {
    hide BitOf;
    if n > 0 {
      HalfOf(x, Pow2(n - 1));
      DroppedBits(x / 2, n - 1, k);
      HigherBit(x, n + k);
    }
  }

  lemma ExtractIs(p: int)
    ensures BitExtract(p, 4, 0x10) == BitOf(p, 2) + 2 * BitOf(p, 3) + 4 * BitOf(p, 4) + 8 * BitOf(p, 5)
  {
    hide BitOf;
    assert Pow2(2) == 4;
    FourLowBits(p / 4);
    DroppedBits(p, 2, 0);
    DroppedBits(p, 2, 1);
    DroppedBits(p, 2, 2);
    DroppedBits(p, 2, 3);
  }

  lemma ExtractSeven(p: int)
    ensures BitExtract(p, 0x20, 0x80) ==
      BitOf(p, 5) + 2 * BitOf(p, 6) + 4 * BitOf(p, 7) + 8 * BitOf(p, 8) + 16 * BitOf(p, 9) + 32 * BitOf(p, 10)
      + 64 * BitOf(p, 11)
  {
    hide BitOf;
    assert Pow2(5) == 0x20 && Pow2(9) == 0x200;
    FourLowBits(p / 0x20);
    DroppedBits(p, 5, 0);
    DroppedBits(p, 5, 1);
    DroppedBits(p, 5, 2);
    DroppedBits(p, 5, 3);
    FourLowBits(p / 0x200);
    DroppedBits(p, 9, 0);
    DroppedBits(p, 9, 1);
    DroppedBits(p, 9, 2);
    DroppedBits(p, 9, 3);
    SevenOf(p / 0x20);
    EightMore(p);
    var z := p / 0x200;
    BitRange(z);
    assert z % 8 == z % 16 - 8 * BitOf(z, 3);
  }

  lemma BitRange(z: int)
    ensures z % 8 == z % 16 - 8 * BitOf(z, 3)
  {
    assert Pow2(3) == 8;
  }

  lemma SevenOf(z: int)
    ensures z % 0x80 == z % 16 + 16 * (z / 16 % 8)
  {
  }

  lemma EightMore(p: int)
    ensures p / 0x20 / 16 == p / 0x200
  {
  }

  /** The two kinds of terms, as the products they are made of. */
  lemma TermIs(x: s16, y: s16)
    ensures Term(x, y, false) == (x as int) * (y as int) && Term(x, y, true) == Extracted((x as int) * (y as int))
  {
    hide BitOf, BitExtract;
    ExtractIs((x as int) * (y as int));
    ExtractSeven((x as int) * (y as int));
  }

  ghost function SumTo(f: nat -> int, n: nat): int {
    if n == 0 then 0 else SumTo(f, n - 1) + f(n - 1)
  }

  lemma {:induction false} DotIsSum(A: seq<s16>, a: nat, B: seq<s16>, b: nat, step: nat, n: nat)
    ensures Dot(A, a, B, b, step, n, false)
         == SumTo(k => (Get(A, a + k) as int) * (Get(B, b + k * step) as int), n)
    ensures Dot(A, a, B, b, step, n, true)
         == SumTo(k => Extracted((Get(A, a + k) as int) * (Get(B, b + k * step) as int)), n)
  {
    hide Term, Extracted, Get;
    if n > 0 {
      DotIsSum(A, a, B, b, step, n - 1);
      TermIs(Get(A, a + n - 1), Get(B, b + (n - 1) * step));
    }
  }

  /** Element (i, j) of a product is the sum over k of the products of elements (i, k) and (k, j). */
  lemma ProductIsSum(A: seq<s16>, B: seq<s16>, N: nat, i: nat, j: nat)
    requires i < N && j < N
    ensures Product(A, B, N, i * N + j, false)
         == SumTo(k => (Get(A, i * N + k) as int) * (Get(B, j + k * N) as int), N)
    ensures Product(A, B, N, i * N + j, true)
         == SumTo(k => Extracted((Get(A, i * N + k) as int) * (Get(B, j + k * N) as int)), N)
  {
    hide Dot, Get, Extracted, SumTo;
    AtInside(N, i, j);
    DotIsSum(A, i * N, B, j, N, N);
  }

  /** Element i of a product with a vector. */
  lemma VectorIsSum(A: seq<s16>, B: seq<s16>, N: nat, i: nat)
    requires i < N
    ensures Dot(A, At(N, i, 0), B, 0, 1, N, false)
         == SumTo(k => (Get(A, i * N + k) as int) * (Get(B, 0 + k * 1) as int), N)
  {
    hide Dot, Get, Extracted, SumTo;
    DotIsSum(A, i * N, B, 0, 1, N);
  }

  /** The sum of the terms for A[a + k] and B[b + k * step] over the first n values of k. */
  ghost function Dot(A: seq<s16>, a: nat, B: seq<s16>, b: nat, step: nat, n: nat, bits: bool): int {
    if n == 0 then 0
    else Dot(A, a, B, b, step, n - 1, bits) + Term(Get(A, a + n - 1), Get(B, b + (n - 1) * step), bits)
  }

  /** The values A has when a constant from 0 to 255 has been added to values from 0 to 255. */
  ghost predicate Small(A: seq<s16>) {
    forall x :: 0 <= x < |A| ==> 0 <= A[x] <= 510
  }

  lemma TermBound(x: s16, y: s16, bits: bool)
    requires 0 <= x <= 510
    ensures -510 * 0x8000 <= Term(x, y, bits) <= 510 * 0x8000
  {
    ProductBound(x, y, 510);
    if bits {
      var tmp := (x as int) * (y as int);
      MulMono(BitExtract(tmp, 4, 0x10), 0x10, BitExtract(tmp, 0x20, 0x80));
    }
  }

  /** No partial sum leaves 32 bits, for up to 128 summands. */
  lemma {:induction false} DotBound(A: seq<s16>, a: nat, B: seq<s16>, b: nat, step: nat, n: nat, bits: bool)
    requires Small(A)
    ensures -510 * 0x8000 * n <= Dot(A, a, B, b, step, n, bits) <= 510 * 0x8000 * n
  {
    hide Term;
    if n > 0 {
      DotBound(A, a, B, b, step, n - 1, bits);
      TermBound(Get(A, a + n - 1), Get(B, b + (n - 1) * step), bits);
    }
  }

  /** Element x of the product of two N by N matrices. */
  ghost function Product(A: seq<s16>, B: seq<s16>, N: nat, x: nat, bits: bool): int
    requires N > 0
  {
    Dot(A, x / N * N, B, x % N, N, N, bits)
  }

  lemma {:induction false} DotOfConstants(A: seq<s16>, a: nat, B: seq<s16>, b: nat, step: nat, y: s16, n: nat)
    requires a + n <= |A| && (n > 0 ==> b + (n - 1) * step < |B|)
    requires (forall x :: 0 <= x < |A| ==> A[x] == 510) && (forall x :: 0 <= x < |B| ==> B[x] == y)
    ensures Dot(A, a, B, b, step, n, false) == 510 * y * n
  {
    if n > 0 {
      if n > 1 {
        MulMono(n - 2, n - 1, step);
      }
      DotOfConstants(A, a, B, b, step, y, n - 1);
    }
  }

  /** In matrices of 129 or more rows a sum of allowed values can leave 32 bits. */
  lemma TooManySummands(A: seq<s16>, B: seq<s16>, N: nat)
    requires N >= 129 && |A| == |B| == N * N
    requires forall x :: 0 <= x < N * N ==> A[x] == 510 && B[x] == -0x8000
    ensures Small(A) && Product(A, B, N, 0, false) < -0x8000_0000
  {
    AtInside(N, N - 1, 0);
    AtInside(N, 0, N - 1);
    DotOfConstants(A, 0, B, 0, N, -0x8000, N);
  }

  method MatrixMulConst(N: nat, C: array<s32>, A: array<s16>, val: s16)
    requires A.Length == C.Length == N * N
    modifies C
    ensures forall x :: 0 <= x < N * N ==> C[x] == Term(A[x], val, false)
  {
    hide Term;
    var i := 0;
    while i < N
      invariant 0 <= i <= N && 0 <= At(N, i, 0) <= N * N
      invariant forall x :: 0 <= x < At(N, i, 0) ==> C[x] == Term(A[x], val, false)
    {
      var j := 0;
      AtInside(N, i, 0);
      while j < N
        invariant 0 <= j <= N
        invariant forall x :: 0 <= x < At(N, i, 0) + j ==> C[x] == Term(A[x], val, false)
      {
        AtInside(N, i, j);
        C[At(N, i, j)] := Times(A[At(N, i, j)], val);
        j := j + 1;
      }
      i := i + 1;
    }
  }

  /** `(MATRES)x * (MATRES)y`, which always fits into 32 bits. */
  method Times(x: s16, y: s16) returns (r: s32)
    ensures r == Term(x, y, false)
  {
    ProductBound(x, y, 0x8000);
    r := (x as int) * (y as int);
  }

  /** matrix_add_const: the sums are stored in 16 bits. */
  method MatrixAddConst(N: nat, A: array<s16>, val: s16)
    requires A.Length == N * N
    modifies A
    ensures A[..] == Shifted(old(A[..]), val)
  {
    hide ToS16;
    var i := 0;
    ghost var was := A[..];
    while i < N
      invariant 0 <= i <= N && 0 <= At(N, i, 0) <= N * N
      invariant forall x :: 0 <= x < N * N ==> A[x] == if x < At(N, i, 0) then Sum(was[x], val) else was[x]
    {
      var j := 0;
      AtInside(N, i, 0);
      while j < N
        invariant 0 <= j <= N
        invariant forall x :: 0 <= x < N * N ==> A[x] == if x < At(N, i, 0) + j then Sum(was[x], val) else was[x]
      {
        AtInside(N, i, j);
        A[At(N, i, j)] := Sum(A[At(N, i, j)], val);
        j := j + 1;
      }
      i := i + 1;
    }
  }

  function Sum(a: s16, val: s16): s16 {
    ToS16(a as int + val as int)
  }

  function Negative(val: s16): s16 {
    ToS16(-(val as int))
  }

  function Shifted(A: seq<s16>, val: s16): (r: seq<s16>)
    ensures |r| == |A| && forall x :: 0 <= x < |A| ==> r[x] == Sum(A[x], val)
  {
    seq(|A|, x requires 0 <= x < |A| => Sum(A[x], val))
  }

  /** Adding a constant and then its negative restores the matrix, whatever wraps around. */
  lemma ShiftedBack(A: seq<s16>, val: s16)
    ensures Shifted(Shifted(A, val), Negative(val)) == A
  {
    forall x | 0 <= x < |A|
      ensures Sum(Sum(A[x], val), Negative(val)) == A[x]
    {
      SumBack(A[x], val);
    }
  }

  lemma SumBack(a: s16, val: s16)
    ensures Sum(Sum(a, val), Negative(val)) == a
  {
    hide ToS16;
    var i := Wraps(a as int + val as int);
    var j := Wraps(-(val as int));
    Unwraps(a, i + j);
  }

  /** Every element grows by val, modulo 2^16. */
  lemma ShiftedIs(A: seq<s16>, val: s16, x: nat)
    requires x < |A|
    ensures (Shifted(A, val)[x] as int - A[x] as int - val as int) % 0x1_0000 == 0
  {
    hide ToS16;
    var k := Wraps(A[x] as int + val as int);
    Div(k, 0, 0x1_0000);
  }

  /** Keeping 16 bits adds a multiple of 2^16. */
  lemma Wraps(x: int) returns (k: int)
    ensures ToS16(x) as int == x + k * 0x1_0000
  {
    k := if x % 0x1_0000 >= 0x8000 then -(x / 0x1_0000) - 1 else -(x / 0x1_0000);
  }

  lemma Unwraps(a: s16, k: int)
    ensures ToS16(a as int + k * 0x1_0000) == a
  {
    if a >= 0 {
      Div(k, a as int, 0x1_0000);
    } else {
      Div(k - 1, a as int + 0x1_0000, 0x1_0000);
    }
  }

  lemma ShiftedIsSmall(A: seq<s16>, val: s16)
    requires 0 <= val <= 255 && forall x :: 0 <= x < |A| ==> 0 <= A[x] <= 255
    ensures Small(Shifted(A, val)) && forall x :: 0 <= x < |A| ==> Shifted(A, val)[x] as int == A[x] as int + val as int
  {
  }

  /** `C[x]=0; for(k...) C[x] += ...`: accumulates a sum in place. */
  method Accumulate(N: nat, C: array<s32>, x: nat, A: array<s16>, a: nat, B: array<s16>, b: nat, step: nat, bits: bool)
    requires N <= 128 && x < C.Length && Small(A[..])
    requires a + N <= A.Length && forall k :: 0 <= k < N ==> b + Offset(k, step) < B.Length
    modifies C
    ensures C[x] == Dot(A[..], a, B[..], b, step, N, bits)
    ensures forall y :: 0 <= y < C.Length && y != x ==> C[y] == old(C[y])
  {
    hide Term, Offset, Small;
    C[x] := 0;
    var k := 0;
    while k < N
      invariant 0 <= k <= N && C[x] == Dot(A[..], a, B[..], b, step, k, bits)
      invariant forall y :: 0 <= y < C.Length && y != x ==> C[y] == old(C[y])
    {
      OffsetIs(k, step);
      DotBound(A[..], a, B[..], b, step, k + 1, bits);
      var term := Summand(A[a + k], B[b + Offset(k, step)], bits);
      C[x] := C[x] + term;
      k := k + 1;
    }
  }

  function Offset(k: nat, step: nat): nat { k * step }

  lemma OffsetIs(k: nat, step: nat)
    ensures Offset(k, step) == k * step
  {
  }

  /** The product of two elements, or the bits that matrix_mul_matrix_bitextract takes of it. */
  method Summand(x: s16, y: s16, bits: bool) returns (r: s32)
    ensures r == Term(x, y, bits)
  {
    var tmp := Times(x, y);
    if bits {
      r := BitExtract(tmp, 4, 0x10) * BitExtract(tmp, 0x20, 0x80);
    } else {
      r := tmp;
    }
  }

  lemma RowsFit(N: nat)
    ensures N <= N * N
  {
    if N > 0 {
      MulMono(1, N, N);
    }
  }

  method MatrixMulVect(N: nat, C: array<s32>, A: array<s16>, B: array<s16>)
    requires N <= 128 && A.Length == B.Length == C.Length == N * N && Small(A[..])
    modifies C
    ensures forall i :: 0 <= i < N ==> i < N * N && C[i] == Dot(A[..], At(N, i, 0), B[..], 0, 1, N, false)
    ensures forall i :: N <= i < C.Length ==> C[i] == old(C[i])
  {
    hide Small, Dot, At, Offset;
    RowsFit(N);
    var i := 0;
    while i < N
      invariant 0 <= i <= N
      invariant forall r :: 0 <= r < i ==> r < N * N && C[r] == Dot(A[..], At(N, r, 0), B[..], 0, 1, N, false)
      invariant forall r :: N <= r < C.Length ==> C[r] == old(C[r])
    {
      AtInside(N, i, 0);
      RowInside(N);
      Accumulate(N, C, i, A, At(N, i, 0), B, 0, 1, false);
      i := i + 1;
    }
  }

  lemma RowInside(N: nat)
    requires N > 0
    ensures forall k :: 0 <= k < N ==> Offset(k, 1) < N * N
  {
    MulMono(1, N, N);
  }

  lemma ColumnInside(N: nat, j: nat)
    requires j < N
    ensures forall k :: 0 <= k < N ==> j + Offset(k, N) < N * N
  {
    forall k | 0 <= k < N
      ensures j + Offset(k, N) < N * N
    {
      AtInside(N, k, j);
    }
  }

  /** matrix_mul_matrix, and with bits matrix_mul_matrix_bitextract. */
  method MatrixMulMatrix(N: nat, C: array<s32>, A: array<s16>, B: array<s16>, bits: bool)
    requires N <= 128 && A.Length == B.Length == C.Length == N * N && Small(A[..])
    modifies C
    ensures forall x :: 0 <= x < N * N ==> C[x] == Product(A[..], B[..], N, x, bits)
  {
    hide Small, Dot, Product;
    var i := 0;
    while i < N
      invariant 0 <= i <= N && 0 <= At(N, i, 0) <= N * N
      invariant forall x :: 0 <= x < At(N, i, 0) ==> C[x] == Product(A[..], B[..], N, x, bits)
    {
      var j := 0;
      AtInside(N, i, 0);
      while j < N
        invariant 0 <= j <= N
        invariant forall x :: 0 <= x < At(N, i, 0) + j ==> C[x] == Product(A[..], B[..], N, x, bits)
      {
        AtInside(N, i, j);
        ColumnInside(N, j);
        ProductIs(A[..], B[..], N, i, j, bits);
        Accumulate(N, C, At(N, i, j), A, At(N, i, 0), B, j, N, bits);
        j := j + 1;
      }
      i := i + 1;
    }
  }

  lemma ProductIs(A: seq<s16>, B: seq<s16>, N: nat, i: nat, j: nat, bits: bool)
    requires i < N && j < N
    ensures Product(A, B, N, At(N, i, j), bits) == Dot(A, At(N, i, 0), B, j, N, N, bits)
  {
    AtInside(N, i, j);
  }

  ghost predicate IsConstProduct(C: seq<s32>, A: seq<s16>, val: s16) {
    |C| == |A| && forall x :: 0 <= x < |C| ==> C[x] == Term(A[x], val, false)
  }

  /** The first N elements are the product with a vector, the others are those of C0. */
  ghost predicate IsVectorProduct(C: seq<s32>, C0: seq<s32>, A: seq<s16>, B: seq<s16>, N: nat) {
    && |C| == |C0| && N <= |C|
    && (forall i :: 0 <= i < N ==> C[i] == Dot(A, At(N, i, 0), B, 0, 1, N, false))
    && (forall i :: N <= i < |C| ==> C[i] == C0[i])
  }

  ghost predicate IsMatrixProduct(C: seq<s32>, A: seq<s16>, B: seq<s16>, N: nat, bits: bool) {
    |C| == N * N && forall x {:trigger C[x]} :: 0 <= x < |C| ==> N > 0 && C[x] == Product(A, B, N, x, bits)
  }

  /** The CRC over what a function makes of four result matrices. */
  function ResultCrc(sum: (seq<s32>, s16) -> s16, clipval: s16, results: seq<seq<s32>>, n: nat): bv16
    requires n <= |results|
  {
    if n == 0 then 0 else Crc.CrcU16(Bits16(sum(results[n - 1], clipval)), ResultCrc(sum, clipval, results, n - 1))
  }

  /**
   * matrix_test, with matrix_sum as any function: it computes the exact products of the matrix to which val has been
   * added, and leaves both operands as they were.
   */
  method MatrixTest(N: nat, C: array<s32>, A: array<s16>, B: array<s16>, val: s16, sum: (seq<s32>, s16) -> s16)
    returns (crc: bv16, ghost results: seq<seq<s32>>)
    requires N <= 128 && A.Length == B.Length == C.Length == N * N && A != B
    requires 0 <= val <= 255 && forall x :: 0 <= x < A.Length ==> 0 <= A[x] <= 255
    modifies A, C
    ensures A[..] == old(A[..]) && |results| == 4
    ensures IsConstProduct(results[0], Shifted(old(A[..]), val), val)
    ensures IsVectorProduct(results[1], results[0], Shifted(old(A[..]), val), B[..], N)
    ensures IsMatrixProduct(results[2], Shifted(old(A[..]), val), B[..], N, false)
    ensures IsMatrixProduct(results[3], Shifted(old(A[..]), val), B[..], N, true) && C[..] == results[3]
    ensures crc == ResultCrc(sum, Clip(val), results, 4)
         == Crc.CrcStream([Bits16(sum(results[0], val - 0x1000)), Bits16(sum(results[1], val - 0x1000)),
                           Bits16(sum(results[2], val - 0x1000)), Bits16(sum(results[3], val - 0x1000))], 0)
  {
    hide Term, Dot, Product, Shifted, Small, Bits16, Clip, Crc.CrcU16;
    ghost var was := A[..];
    results := [];
    crc := 0;
    var clipval := Clip(val);
    MatrixAddConst(N, A, val);
    ShiftedIsSmall(was, val);
    MatrixMulConst(N, C, A, val);
    results := results + [C[..]];
    crc := Crc.CrcU16(Bits16(sum(C[..], clipval)), crc);
    RowsFit(N);
    MatrixMulVect(N, C, A, B);
    results := results + [C[..]];
    crc := Crc.CrcU16(Bits16(sum(C[..], clipval)), crc);
    MatrixMulMatrix(N, C, A, B, false);
    results := results + [C[..]];
    crc := Crc.CrcU16(Bits16(sum(C[..], clipval)), crc);
    MatrixMulMatrix(N, C, A, B, true);
    results := results + [C[..]];
    crc := Crc.CrcU16(Bits16(sum(C[..], clipval)), crc);
    MatrixAddConst(N, A, Negative(val));
    ShiftedBack(was, val);
    ClipIs(val);
    FourResults(sum, clipval, results);
  }

  lemma FourResults(sum: (seq<s32>, s16) -> s16, clipval: s16, results: seq<seq<s32>>)
    requires |results| == 4
    ensures ResultCrc(sum, clipval, results, 4)
         == Crc.CrcU16(Bits16(sum(results[3], clipval)), Crc.CrcU16(Bits16(sum(results[2], clipval)),
              Crc.CrcU16(Bits16(sum(results[1], clipval)), Crc.CrcU16(Bits16(sum(results[0], clipval)), 0))))
    ensures ResultCrc(sum, clipval, results, 4)
         == Crc.CrcStream([Bits16(sum(results[0], clipval)), Bits16(sum(results[1], clipval)),
                           Bits16(sum(results[2], clipval)), Bits16(sum(results[3], clipval))], 0)
  {
    hide Bits16, Crc.CrcU16;
    assert ResultCrc(sum, clipval, results, 1) == Crc.CrcU16(Bits16(sum(results[0], clipval)), 0);
    assert ResultCrc(sum, clipval, results, 2)
        == Crc.CrcU16(Bits16(sum(results[1], clipval)), ResultCrc(sum, clipval, results, 1));
    var v0, v1 := Bits16(sum(results[0], clipval)), Bits16(sum(results[1], clipval));
    var v2, v3 := Bits16(sum(results[2], clipval)), Bits16(sum(results[3], clipval));
    StreamOfFour(v0, v1, v2, v3, 0);
  }

  lemma StreamOfFour(v0: bv16, v1: bv16, v2: bv16, v3: bv16, crc: bv16)
    ensures Crc.CrcStream([v0, v1, v2, v3], crc)
         == Crc.CrcU16(v3, Crc.CrcU16(v2, Crc.CrcU16(v1, Crc.CrcU16(v0, crc))))
  {
    hide Crc.CrcU16;
    var crc1 := Crc.CrcU16(v0, crc);
    var crc2 := Crc.CrcU16(v1, crc1);
    var crc3 := Crc.CrcU16(v2, crc2);
    var three, two, one := [v1, v2, v3], [v2, v3], [v3];
    StreamFirst(v0, three, crc);
    StreamFirst(v1, two, crc1);
    StreamFirst(v2, one, crc2);
    StreamFirst(v3, [], crc3);
    assert [v0] + three == [v0, v1, v2, v3] && [v1] + two == three && [v2] + one == two && [v3] + [] == one;
  }

  lemma StreamFirst(v: bv16, values: seq<bv16>, crc: bv16)
    ensures Crc.CrcStream([v] + values, crc) == Crc.CrcStream(values, Crc.CrcU16(v, crc)) && Crc.CrcStream([], crc) == crc
  {
    hide Crc.CrcU16;
    assert ([v] + values)[1..] == values;
  }

  /** For a value from 0 to 0xfff it is 0x1000 less, and so negative. */
  lemma ClipIs(val: s16)
    requires 0 <= val < 0x1000
    ensures Clip(val) == val - 0x1000
  {
    hide OrBits;
    Powers();
    OrIsSum(15, val, 12, 16);
  }

  /** matrix_big: `0xf000 | val` in 16 bits. */
  function Clip(val: s16): s16 {
    ToS16(OrBits(0xF000, val, 16))
  }
}
