/** Laying out and filling the matrices (benchmark/coremark_v1.0/core_matrix.c). */
module MatrixInit {
  import opened Arithmetic
  import opened Words
  import opened Matrix

  /** align_mem: `4 + ((x - 1) & ~3)` */
  function AlignMem(x: nat): (r: nat)
    requires x > 0
    ensures r % 4 == 0 && x <= r < x + 4
  {
    4 + (x - 1) / 4 * 4
  }

  /** The remainder of C, which has the sign of the dividend. */
  function Remainder(x: int, m: nat): (r: int)
    requires m > 0
    ensures -(m as int) < r < m
  {
    if x >= 0 then x % m else -(-x % m)
  }

  /** The running seed after the k-th element. */
  function SeedAfter(seed: s32, k: nat): int {
    if k == 0 then seed else Remainder(k * SeedAfter(seed, k - 1), 65536)
  }

  /** `(x) & 0x0ff` or `(x) & 0x0ffff` */
  function MatrixClip(x: s16, y: bool): nat {
    if y then x as int % 0x100 else x as int % 0x1_0000
  }

  /** Element k of B: the low 16 bits of the seed plus the order of the element. */
  function ElementB(seed: s32, k: nat): s16 {
    ToS16(SeedAfter(seed, k + 1) + (k + 1))
  }

  /** Element k of A: 8 bits of the element of B plus the order. */
  function ElementA(seed: s32, k: nat): (a: s16)
    ensures 0 <= a <= 255
  {
    (ElementB(seed, k) as int + (k + 1)) % 0x100
  }

  /** The size of the matrices for a block: eight bytes for each place. */
  ghost predicate IsSize(N: nat, blksize: nat) {
    8 * (N * N) < blksize <= 8 * ((N + 1) * (N + 1))
  }

  lemma SquareMono(m: nat, n: nat)
    requires m <= n
    ensures m * m <= n * n
  {
    MulMono(m, n, m);
    MulMono(m, n, n);
  }

  /** There is only one size for a block. */
  lemma SizeIsUnique(M: nat, N: nat, blksize: nat)
    requires IsSize(M, blksize) && IsSize(N, blksize)
    ensures M == N
  {
    if M < N {
      SquareMono(M + 1, N);
    } else if N < M {
      SquareMono(N + 1, M);
    }
  }

  /** `i*i*2*4` in 32 bits. */
  function Bytes(i: nat): u32 {
    i * i * 2 * 4 % 0x1_0000_0000
  }

  /** Up to i = 23170 nothing wraps around. */
  lemma BytesFit(i: nat)
    requires i <= 23170
    ensures Bytes(i) == 8 * (i * i)
  {
    SquareMono(i, 23170);
  }

  /** `while (j<blksize)`: the largest N that leaves the block; for an empty block, 0 - 1 in 32 bits. */
  method ChooseN(blksize: u32) returns (N: u32)
    requires blksize <= 8 * (23170 * 23170)
    ensures if blksize == 0 then N == 0xffff_ffff else IsSize(N, blksize) && N < 23170
  {
    var i: u32, j: u32 := 0, 0;
    while j < blksize
      invariant i <= 23170 && j == 8 * (i * i)
      invariant i == 0 || 8 * ((i - 1) * (i - 1)) < blksize
      decreases 23170 - i
    {
      i := i + 1;
      j := Bytes(i);
      BytesFit(i);
    }
    N := (i - 1) % 0x1_0000_0000;
  }

  /**
   * Where the loop ends, it ends with the right size exactly if the block has at most 8 * 23170^2 bytes:
   * in a larger one 23170 is the right size, but the bytes for 23171 have already wrapped around.
   */
  lemma RightSizes(i: nat, blksize: u32)
    requires i > 0 && blksize > 0 && Bytes(i) >= blksize && forall k :: 0 <= k < i ==> Bytes(k) < blksize
    ensures IsSize(i - 1, blksize) <==> blksize <= 8 * (23170 * 23170)
  {
    if blksize <= 8 * (23170 * 23170) {
      BytesFit(23170);
      assert i <= 23170;
      BytesFit(i);
      BytesFit(i - 1);
      assert Bytes(i - 1) < blksize;
    } else if IsSize(i - 1, blksize) {
      assert Bytes(23171) < blksize;
      SizeIsUnique(i - 1, 23170, blksize);
    }
  }

  /** A square leaves one of 0, 1, 4, 9, 16, 17 and 25 modulo 32. */
  lemma SquareModulo32(i: nat)
    ensures i * i % 32 in {0, 1, 4, 9, 16, 17, 25}
  {
    var a, b := DivDef(i, 16);
    assert i * i == (8 * (a * a) + a * b) * 32 + b * b by {
      assert i * i == (a * 16 + b) * (a * 16 + b) == 256 * (a * a) + 32 * (a * b) + b * b;
    }
    var w, r := DivDef(b * b, 32);
    Div(8 * (a * a) + a * b + w, r, 32);
    SmallSquares(b);
  }

  lemma SmallSquares(b: nat)
    requires b < 16
    ensures b * b % 32 in {0, 1, 4, 9, 16, 17, 25}
  {
    if b < 8 {
      assert b in {0, 1, 2, 3, 4, 5, 6, 7};
    } else {
      assert b in {8, 9, 10, 11, 12, 13, 14, 15};
    }
  }

  lemma BytesOf(q: nat, r: nat, i: nat)
    requires i * i == q * 0x2000_0000 + r && r < 0x2000_0000
    ensures Bytes(i) == 8 * r
  {
    EightTimes(i * i, q, r);
  }

  lemma EightTimes(x: nat, q: nat, r: nat)
    requires x == q * 0x2000_0000 + r && r < 0x2000_0000
    ensures x * 2 * 4 % 0x1_0000_0000 == 8 * r
  {
    assert x * 2 * 4 == q * 0x1_0000_0000 + 8 * r;
    Div(q, 8 * r, 0x1_0000_0000);
  }

  lemma SameResidue(q: nat, r: nat)
    ensures (q * 0x2000_0000 + r) % 32 == r % 32
  {
    var w, m := DivDef(r, 32);
    Div(q * 0x100_0000 + w, m, 32);
  }

  lemma TopResidues(r: nat)
    requires r < 0x2000_0000 && r % 32 in {0, 1, 4, 9, 16, 17, 25}
    ensures 8 * r <= 0xffff_ffc8
  {
  }

  /** The number of bytes, modulo 2^32, never goes beyond 2^32 - 56. */
  lemma MostBytes(i: nat)
    ensures Bytes(i) <= 0xffff_ffc8
  {
    hide Bytes;
    var q, r := DivDef(i * i, 0x2000_0000);
    BytesOf(q, r, i);
    SquareModulo32(i);
    SameResidue(q, r);
    TopResidues(r);
  }

  /** The loop ends exactly for the blocks of at most 2^32 - 56 bytes. */
  lemma LoopEnds(blksize: u32)
    ensures (exists i: u32 :: Bytes(i) >= blksize) <==> blksize <= 0xffff_ffc8
  {
    if blksize <= 0xffff_ffc8 {
      assert Bytes(211337397) == 0xffff_ffc8;
    } else {
      forall i: u32
        ensures Bytes(i) < blksize
      {
        MostBytes(i);
      }
    }
  }

  /** The size of the matrices and their addresses. */
  datatype MatParams = MatParams(N: nat, A: nat, B: nat, C: nat)

  /** All three matrices lie inside the block, one behind the other. */
  ghost predicate InBlock(p: MatParams, memblk: nat, blksize: nat) {
    var n := p.N * p.N;
    memblk <= p.A && p.A + 2 * n <= p.B && p.B + 2 * n <= p.C && p.C + 4 * n <= memblk + blksize
  }

  /** The size of the matrices and their addresses: right, and inside an aligned block, for every size up to 4 GB. */
  method LayOut(blksize: u32, memblk: nat) returns (p: MatParams)
    requires 0 < blksize <= 8 * (23170 * 23170) && memblk > 0
    ensures IsSize(p.N, blksize)
    ensures p.A == AlignMem(memblk) && p.B == p.A + 2 * (p.N * p.N) && p.C == AlignMem(p.B + 2 * (p.N * p.N))
    ensures InBlock(p, memblk, blksize) <==> p.A - memblk + 8 * (p.N * p.N) <= blksize
    ensures memblk % 4 == 0 ==> InBlock(p, memblk, blksize)
  {
    hide InBlock, AlignMem;
    var N := ChooseN(blksize);
    var a := AlignMem(memblk);
    var b := a + 2 * (N * N);
    p := MatParams(N, a, b, AlignMem(b + 2 * (N * N)));
    AlignedBlockFits(p, memblk, blksize);
  }

  method CoreInitMatrix(blksize: u32, memblk: nat, seed0: s32)
    returns (p: MatParams, A: array<s16>, B: array<s16>, C: array<s32>)
    requires 0 < blksize <= 8 * (23170 * 23170) && memblk > 0
    ensures IsSize(p.N, blksize)
    ensures A.Length == B.Length == C.Length == p.N * p.N && fresh(A) && fresh(B) && fresh(C) && A != B
    ensures p.A == AlignMem(memblk) && p.B == p.A + 2 * (p.N * p.N) && p.C == AlignMem(p.B + 2 * (p.N * p.N))
    ensures memblk % 4 == 0 ==> InBlock(p, memblk, blksize)
    ensures var seed := if seed0 == 0 then 1 else seed0;
            forall k :: 0 <= k < p.N * p.N ==> B[k] == ElementB(seed, k) && A[k] == ElementA(seed, k)
  {
    hide IsSize, ElementA, ElementB, SeedAfter, InBlock, AlignMem;
    var start := if seed0 == 0 then 1 else seed0;
    p := LayOut(blksize, memblk);
    var N := p.N;
    SizeBound(N, blksize);
    A, B, C := new s16[N * N], new s16[N * N], new s32[N * N];
    var seed: s32, order: s32 := start, 1;
    SeedStarts(start);
    var i := 0;
    while i < N
      invariant 0 <= i <= N && 0 <= At(N, i, 0) <= N * N && order == At(N, i, 0) + 1
      invariant seed == SeedAfter(start, order - 1)
      invariant forall k :: 0 <= k < At(N, i, 0) ==> B[k] == ElementB(start, k) && A[k] == ElementA(start, k)
    {
      var j := 0;
      AtInside(N, i, 0);
      while j < N
        invariant 0 <= j <= N && order == At(N, i, 0) + j + 1
        invariant seed == SeedAfter(start, order - 1)
        invariant forall k :: 0 <= k < At(N, i, 0) + j ==> B[k] == ElementB(start, k) && A[k] == ElementA(start, k)
      {
        AtInside(N, i, j);
        var valB, valA;
        seed, valB, valA := NextElement(seed, order, start);
        B[At(N, i, j)] := valB;
        A[At(N, i, j)] := valA;
        order := order + 1;
        j := j + 1;
      }
      i := i + 1;
    }
  }

  lemma SizeBound(N: nat, blksize: nat)
    requires IsSize(N, blksize) && blksize <= 8 * (23170 * 23170)
    ensures N * N <= 23169 * 23169
  {
    if N >= 23170 {
      SquareMono(23170, N);
    }
    SquareMono(N, 23169);
  }

  lemma SeedStarts(seed: s32)
    ensures SeedAfter(seed, 0) == seed
  {
  }

  /** The body of the inner loop; no intermediate value leaves 32 bits. */
  method NextElement(seed: s32, order: s32, ghost start: s32) returns (seed': s32, valB: s16, valA: s16)
    requires 1 <= order <= 23169 * 23169 && seed == SeedAfter(start, order - 1)
    ensures seed' == SeedAfter(start, order)
    ensures valB == ElementB(start, order - 1) && valA == ElementA(start, order - 1)
  {
    SeedBound(start, order);
    var product: s32 := (order as int) * (seed as int);
    seed' := Remainder(product, 65536);
    var sum: s32 := seed' + order;
    var val := ToS16(sum);
    val := ToS16(MatrixClip(val, false));
    ClipIsNothing(sum);
    valB := val;
    var sum2: s32 := val as int + order as int;
    val := ToS16(sum2);
    ClipToByte(sum2);
    val := MatrixClip(val, true);
    valA := val;
  }

  /** A factor of the seed and a factor of the order are factors of the next seed. */
  lemma SeedFactor(seed: s32, k: nat, d: nat, m: nat)
    requires k > 0 && d > 0 && m > 0 && SeedAfter(seed, k - 1) % d == 0 && k % m == 0 && 65536 % (d * m) == 0
    ensures SeedAfter(seed, k) % (d * m) == 0
  {
    var s, f := SeedAfter(seed, k - 1), d * m;
    var q, t, e := s / d, k / m, 65536 / f;
    MultipleOf(s, d);
    MultipleOf(k, m);
    MultipleOf(65536, f);
    Regroup(d, m, q, t);
    RemainderFactor(t * q, f, e);
  }

  lemma MultipleOf(x: int, d: nat)
    requires d > 0 && x % d == 0
    ensures x == x / d * d
  {
  }

  lemma Regroup(d: nat, m: nat, q: int, t: int)
    ensures (t * m) * (q * d) == (t * q) * (d * m)
  {
  }

  lemma ModFactor(y: nat, f: nat, e: nat) returns (z: int)
    requires f > 0 && e * f == 65536
    ensures y * f % 65536 == z * f
  {
    var w := y * f / 65536;
    z := y - w * e;
    Regroup(w, e, 1, f);
  }

  lemma RemainderFactor(x: int, f: nat, e: nat)
    requires f > 0 && e * f == 65536
    ensures Remainder(x * f, 65536) % f == 0
  {
    if x >= 0 {
      var z := ModFactor(x, f, e);
      Div(z, 0, f);
    } else {
      var z := ModFactor(-x, f, e);
      assert x * f < 0 && -(x * f) == -x * f && -(z * f) == -z * f;
      Div(-z, 0, f);
    }
  }

  /** 18! is a multiple of 2^16, so after 18 elements nothing is left of the seed. */
  lemma SeedFades(seed: s32, k: nat)
    requires k >= 18
    ensures SeedAfter(seed, k) == 0
  {
    if k > 18 {
      SeedFades(seed, k - 1);
    } else {
      hide SeedAfter;
      SeedFactors(seed);
      SeedFactor(seed, 18, 0x8000, 2);
      SeedRange(seed, 18);
    }
  }

  lemma SeedRange(seed: s32, k: nat)
    requires k > 0
    ensures -65536 < SeedAfter(seed, k) < 65536
  {
  }

  lemma SeedFactors(seed: s32)
    ensures SeedAfter(seed, 17) % 0x8000 == 0
  {
    hide SeedAfter;
    SeedFactor(seed, 1, 1, 1);
    SeedFactor(seed, 2, 1, 2);
    SeedFactor(seed, 3, 2, 1);
    SeedFactor(seed, 4, 2, 4);
    SeedFactor(seed, 5, 8, 1);
    SeedFactor(seed, 6, 8, 2);
    SeedFactor(seed, 7, 16, 1);
    SeedFactor(seed, 8, 16, 8);
    SeedFactor(seed, 9, 128, 1);
    SeedFactor(seed, 10, 128, 2);
    SeedFactor(seed, 11, 256, 1);
    SeedFactor(seed, 12, 256, 4);
    SeedFactor(seed, 13, 1024, 1);
    SeedFactor(seed, 14, 1024, 2);
    SeedFactor(seed, 15, 2048, 1);
    SeedFactor(seed, 16, 2048, 16);
    SeedFactor(seed, 17, 0x8000, 1);
  }

  function Factorial(k: nat): nat {
    if k == 0 then 1 else k * Factorial(k - 1)
  }

  /** A remainder differs from its number by a multiple of 2^16. */
  lemma RemainderIs(x: int) returns (q: int)
    ensures Remainder(x, 65536) == x + q * 65536
  {
    q := if x >= 0 then -(x / 65536) else -x / 65536;
  }

  /** Only the remainder of the seed matters for the following elements. */
  lemma {:induction false} SeedIsFactorial(seed: s32, k: nat) returns (q: int)
    ensures SeedAfter(seed, k) == Factorial(k) * seed + q * 65536
  {
    if k == 0 {
      q := 0;
    } else {
      var p := SeedIsFactorial(seed, k - 1);
      var s := SeedAfter(seed, k - 1);
      var r := RemainderIs(k * s);
      Expand(k, Factorial(k - 1), seed, p);
      q := k * p + r;
    }
  }

  lemma Expand(k: nat, f: nat, seed: int, p: int)
    ensures k * (f * seed + p * 65536) == k * f * seed + k * p * 65536
  {
  }

  /** Element number k: (k + 1)! times the seed, and the number counted from 1, kept in 16 bits or in 8. */
  lemma ElementsAre(seed: s32, k: nat)
    ensures ElementB(seed, k) == ToS16(Factorial(k + 1) * seed + (k + 1))
    ensures ElementA(seed, k) == (Factorial(k + 1) * seed + 2 * (k + 1)) % 0x100
  {
    hide Factorial, SeedAfter, ToS16;
    var q := SeedIsFactorial(seed, k + 1);
    var x := Factorial(k + 1) * seed + (k + 1);
    SameWord(x, q);
    var r := Wraps(x);
    SameByte(x + (k + 1), r);
  }

  lemma SameWord(x: int, q: int)
    ensures ToS16(x + q * 0x1_0000) == ToS16(x)
  {
    var w, m := x / 0x1_0000, x % 0x1_0000;
    Div(w + q, m, 0x1_0000);
  }

  lemma SameByte(x: int, r: int)
    ensures (x + r * 0x1_0000) % 0x100 == x % 0x100
  {
    var w, m := x / 0x100, x % 0x100;
    Div(w + r * 0x100, m, 0x100);
  }

  /** The seed only shows in the first 17 elements of A and B; the others are the same in every block. */
  lemma ElementsBehindSeed(seed: s32, k: nat)
    requires k >= 17
    ensures ElementB(seed, k) == ToS16(k + 1) && ElementA(seed, k) == 2 * (k + 1) % 0x100
  {
    hide SeedAfter;
    SeedFades(seed, k + 1);
    ClipToByte(k + 1 + (k + 1));
    LowByteOfSum(k + 1);
  }

  lemma LowByteOfSum(x: nat)
    ensures (ToS16(x) as int + x) % 0x100 == 2 * x % 0x100
  {
    var q, m := x / 0x1_0000, x % 0x1_0000;
    assert ToS16(x) as int + x == 2 * x - (if m < 0x8000 then q else q + 1) * 0x1_0000;
    var y, z := 2 * x / 0x100, 2 * x % 0x100;
    Div(y - (if m < 0x8000 then q else q + 1) * 0x100, z, 0x100);
  }

  lemma SeedBound(start: s32, order: nat)
    requires order >= 1
    ensures -0x8000_0000 <= order * SeedAfter(start, order - 1) < 0x8000_0000
  {
    hide SeedAfter;
    if order == 1 {
      SeedStarts(start);
    } else if order <= 18 {
      SeedRange(start, order - 1);
    } else {
      SeedFades(start, order - 1);
    }
  }

  /** Keeping 16 bits of a 16-bit value changes nothing. */
  lemma ClipIsNothing(x: int)
    ensures ToS16(MatrixClip(ToS16(x), false)) == ToS16(x)
  {
  }

  lemma ClipToByte(x: int)
    ensures MatrixClip(ToS16(x), true) == x % 0x100
  {
    var q, m := x / 0x1_0000, x % 0x1_0000;
    var a, b := m / 0x100, m % 0x100;
    Div(q * 0x100 + a, b, 0x100);
    Div(a - 0x100, b, 0x100);
  }

  /** The matrices of a block whose start is a multiple of 4 lie in the block and do not overlap. */
  lemma AlignedBlockFits(p: MatParams, memblk: nat, blksize: nat)
    requires memblk > 0 && IsSize(p.N, blksize)
    requires p.A == AlignMem(memblk) && p.B == p.A + 2 * (p.N * p.N) && p.C == AlignMem(p.B + 2 * (p.N * p.N))
    ensures p.C == p.A + 4 * (p.N * p.N) && p.A % 4 == p.C % 4 == 0
    ensures InBlock(p, memblk, blksize) <==> p.A - memblk + 8 * (p.N * p.N) <= blksize
    ensures memblk % 4 == 0 ==> InBlock(p, memblk, blksize)
  {
    hide AlignMem;
    AlignedBehind(p.A, p.N * p.N);
  }

  lemma AlignedBehind(a: nat, n: nat)
    requires a > 0 && a % 4 == 0
    ensures AlignMem(a + 2 * n + 2 * n) == a + 4 * n && (a + 4 * n) % 4 == 0
  {
    hide AlignMem;
    var q, r := DivDef(a, 4);
    AlignedStays(q + n);
  }

  lemma AlignedStays(q: nat)
    requires q > 0
    ensures AlignMem(q * 4) == q * 4
  {
    Div(q - 1, 3, 4);
  }

  /** In a block that starts elsewhere the last matrix can stick out. */
  lemma UnalignedBlockOverflows()
    ensures IsSize(1, 9) && !InBlock(MatParams(1, AlignMem(5), AlignMem(5) + 2, AlignMem(AlignMem(5) + 4)), 5, 9)
  {
    assert AlignMem(5) == 8;
  }
}
