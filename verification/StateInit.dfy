/** Filling a block with numbers (benchmark/coremark_v1.0/core_state.c). */
module StateInit {
  import opened Arithmetic
  import opened Words
  import opened StateTokens

  function IntPat(i: int): (r: seq<bv8>)
    ensures |r| == 4
  {
    match i
    case 0 => [53, 48, 49, 50] // 5012
    case 1 => [49, 50, 51, 52] // 1234
    case 2 => [45, 56, 55, 52] // -874
    case _ => [43, 49, 50, 50] // +122
  }

  function FloatPat(i: int): (r: seq<bv8>)
    ensures |r| == 8
  {
    match i
    case 0 => [51, 53, 46, 53, 52, 52, 48, 48] // 35.54400
    case 1 => [46, 49, 50, 51, 52, 53, 48, 48] // .1234500
    case 2 => [45, 49, 49, 48, 46, 55, 48, 48] // -110.700
    case _ => [43, 48, 46, 54, 52, 52, 48, 48] // +0.64400
  }

  function SciPat(i: int): (r: seq<bv8>)
    ensures |r| == 8
  {
    match i
    case 0 => [53, 46, 53, 48, 48, 101, 43, 51] // 5.500e+3
    case 1 => [45, 46, 49, 50, 51, 101, 45, 50] // -.123e-2
    case 2 => [45, 56, 55, 101, 43, 56, 51, 50] // -87e+832
    case _ => [43, 48, 46, 54, 101, 45, 49, 50] // +0.6e-12
  }

  function ErrPat(i: int): (r: seq<bv8>)
    ensures |r| == 8
  {
    match i
    case 0 => [84, 48, 46, 51, 101, 45, 49, 70] // T0.3e-1F
    case 1 => [45, 84, 46, 84, 43, 43, 84, 113] // -T.T++Tq
    case 2 => [49, 84, 51, 46, 52, 101, 52, 122] // 1T3.4e4z
    case _ => [51, 52, 46, 48, 101, 45, 84, 94] // 34.0e-T^
  }

  /** The pattern for a value of seed; / and % round towards minus infinity like >> and &. */
  function Pattern(seed: s16): (r: seq<bv8>)
    ensures |r| == 4 || |r| == 8
  {
    var i := seed / 8 % 4;
    match seed % 8
    case 0 => IntPat(i)
    case 1 => IntPat(i)
    case 2 => IntPat(i)
    case 3 => FloatPat(i)
    case 4 => FloatPat(i)
    case 5 => SciPat(i)
    case 6 => SciPat(i)
    case _ => ErrPat(i)
  }

  ghost predicate IsText(s: seq<bv8>, t: string) {
    |s| == |t| && forall k :: 0 <= k < |s| ==> s[k] as int == t[k] as int
  }

  const INT_PATTERNS: seq<string> := ["5012", "1234", "-874", "+122"]
  const FLOAT_PATTERNS: seq<string> := ["35.54400", ".1234500", "-110.700", "+0.64400"]
  const SCI_PATTERNS: seq<string> := ["5.500e+3", "-.123e-2", "-87e+832", "+0.6e-12"]
  const ERR_PATTERNS: seq<string> := ["T0.3e-1F", "-T.T++Tq", "1T3.4e4z", "34.0e-T^"]

  /** Bits 0 to 2 of the seed choose the kind of the pattern, bits 3 and 4 the pattern. */
  lemma PatternText(seed: s16)
    ensures seed % 8 in {0, 1, 2} ==> IsText(Pattern(seed), INT_PATTERNS[seed / 8 % 4])
    ensures seed % 8 in {3, 4} ==> IsText(Pattern(seed), FLOAT_PATTERNS[seed / 8 % 4])
    ensures seed % 8 in {5, 6} ==> IsText(Pattern(seed), SCI_PATTERNS[seed / 8 % 4])
    ensures seed % 8 == 7 ==> IsText(Pattern(seed), ERR_PATTERNS[seed / 8 % 4])
  {
    hide IsText, IntPat, FloatPat, SciPat, ErrPat;
    IntText(seed / 8 % 4);
    FloatText(seed / 8 % 4);
    SciText(seed / 8 % 4);
    ErrText(seed / 8 % 4);
  }

  lemma IntText(i: nat)
    requires i < 4
    ensures IsText(IntPat(i), INT_PATTERNS[i])
  {
  }

  lemma FloatText(i: nat)
    requires i < 4
    ensures IsText(FloatPat(i), FLOAT_PATTERNS[i])
  {
  }

  lemma SciText(i: nat)
    requires i < 4
    ensures IsText(SciPat(i), SCI_PATTERNS[i])
  {
  }

  lemma ErrText(i: nat)
    requires i < 4
    ensures IsText(ErrPat(i), ERR_PATTERNS[i])
  {
  }

  /** The patterns for the next k seeds, each with a comma. */
  ghost function Joined(seed: s16, k: nat): seq<bv8> {
    if k == 0 then [] else Joined(seed, k - 1) + Pattern(ToS16(seed + k)) + [COMMA]
  }

  lemma {:induction false} JoinedFront(seed: s16, k: nat)
    ensures Joined(seed, k + 1) == Pattern(ToS16(seed + 1)) + [COMMA] + Joined(ToS16(seed + 1), k)
  {
    hide Pattern, ToS16;
    var first := Pattern(ToS16(seed + 1)) + [COMMA];
    if k == 0 {
      assert Joined(seed, 1) == Joined(seed, 0) + Pattern(ToS16(seed + 1)) + [COMMA];
    } else {
      JoinedFront(seed, k - 1);
      SeedsOn(seed, k);
    }
  }

  lemma SeedsOn(seed: s16, k: int)
    ensures ToS16(ToS16(seed + 1) + k) == ToS16(seed + (k + 1))
  {
    var x, q := seed as int + 1 + k, if ToS16(seed + 1) == seed + 1 then 0 else 1;
    assert ToS16(seed + 1) + k == x - q * 0x1_0000;
    Div(x / 0x1_0000 - q, x % 0x1_0000, 0x1_0000);
  }

  /** The text is made of as many patterns as fit: with one more it would reach the limit. */
  lemma {:induction false} NumbersAreJoined(seed: s16, limit: int) returns (k: nat)
    ensures Numbers(seed, limit) == Joined(seed, k)
    ensures (k > 0 ==> |Joined(seed, k)| < limit) && |Joined(seed, k + 1)| >= limit
    decreases limit
  {
    hide Pattern, ToS16;
    var next := ToS16(seed + 1);
    var buf := Pattern(next);
    if |buf| + 1 < limit {
      var rest := NumbersAreJoined(next, limit - |buf| - 1);
      k := rest + 1;
      JoinedFront(seed, rest);
      JoinedFront(seed, rest + 1);
    } else {
      k := 0;
      JoinedFront(seed, 0);
    }
  }

  /** The patterns for the seeds from the next one on that fit into limit bytes, each with a comma. */
  function Numbers(seed: s16, limit: int): (r: seq<bv8>)
    ensures |r| <= 0 || |r| < limit
    decreases limit
  {
    var buf := Pattern(ToS16(seed + 1));
    if |buf| + 1 < limit then buf + [COMMA] + Numbers(ToS16(seed + 1), limit - |buf| - 1) else []
  }

  /** A text and the terminators that fill the block. */
  function Block(text: seq<bv8>, size: nat): (r: seq<bv8>)
    requires |text| <= size
    ensures |r| == size
  {
    text + seq(size - |text|, _ => 0)
  }

  method CoreInitState(size: nat, seed0: s16, p: array<bv8>)
    requires p.Length == size >= 1
    modifies p
    ensures |Numbers(seed0, size - 1)| <= size && p[..] == Block(Numbers(seed0, size - 1), size)
    ensures size >= 2 ==> p[size - 1] == 0 && p[size - 2] == 0
  {
    hide Pattern, ToS16, Numbers, Pending;
    var seed: s16 := seed0;
    var total, next, limit := 0, 0, size - 1;
    var buf: seq<bv8> := [];
    ghost var goal := Numbers(seed, limit);
    PendingAtFirst(seed, limit);
    while total + next + 1 < limit
      invariant 0 <= total && next == |buf| && (total > 0 ==> total < limit) && (total > 0 ==> next > 0)
      invariant next == 0 || buf == Pattern(seed)
      invariant Pending(p[..total], buf, seed, limit - total, goal)
      invariant next == 0 ==> total == 0 && seed == seed0
      decreases limit - total, if next == 0 then 1 else 0
    {
      PendingWritten(p[..total], buf, seed, limit - total, goal);
      if next > 0 {
        CopyWord(p, total, buf);
        total := total + next + 1;
      }
      PendingNext(p[..total], seed, limit - total, goal);
      seed := ToS16(seed + 1);
      buf := Pattern(seed);
      next := |buf|;
    }
    PendingOver(p[..total], buf, seed, limit - total, goal);
    ghost var text := p[..total];
    var end := total;
    while total < size
      invariant end <= total <= size && p[..end] == text
      invariant forall k :: end <= k < total ==> p[k] == 0
    {
      p[total] := 0;
      total := total + 1;
    }
    assert p[..] == Block(text, size);
  }

  /** The words written, the word held back, and what follows it make up the whole text. */
  ghost predicate Pending(written: seq<bv8>, buf: seq<bv8>, seed: s16, limit: int, goal: seq<bv8>) {
    if |buf| == 0 then written + Numbers(seed, limit) == goal
    else if |buf| + 1 < limit then written + buf + [COMMA] + Numbers(seed, limit - |buf| - 1) == goal
    else written == goal
  }

  lemma PendingAtFirst(seed: s16, limit: int)
    ensures Pending([], [], seed, limit, Numbers(seed, limit))
  {
  }

  lemma PendingWritten(written: seq<bv8>, buf: seq<bv8>, seed: s16, limit: int, goal: seq<bv8>)
    requires Pending(written, buf, seed, limit, goal) && |buf| + 1 < limit
    ensures if |buf| == 0 then written + Numbers(seed, limit) == goal
            else written + buf + [COMMA] + Numbers(seed, limit - |buf| - 1) == goal
  {
  }

  lemma PendingNext(written: seq<bv8>, seed: s16, limit: int, goal: seq<bv8>)
    requires written + Numbers(seed, limit) == goal
    ensures Pending(written, Pattern(ToS16(seed + 1)), ToS16(seed + 1), limit, goal)
  {
    hide Pattern, ToS16;
    var buf := Pattern(ToS16(seed + 1));
    if |buf| + 1 < limit {
      var rest := Numbers(ToS16(seed + 1), limit - |buf| - 1);
      assert written + (buf + [COMMA] + rest) == written + buf + [COMMA] + rest;
    }
  }

  lemma PendingOver(written: seq<bv8>, buf: seq<bv8>, seed: s16, limit: int, goal: seq<bv8>)
    requires Pending(written, buf, seed, limit, goal) && |buf| + 1 >= limit
    ensures written == goal
  {
    hide Pattern;
  }

  /** `for(i=0;i<next;i++) *(p+total+i)=buf[i]; *(p+total+i)=',';` */
  method CopyWord(p: array<bv8>, total: nat, buf: seq<bv8>)
    requires total + |buf| + 1 <= p.Length
    modifies p
    ensures p[..total + |buf| + 1] == old(p[..total]) + buf + [COMMA]
  {
    var i := 0;
    while i < |buf|
      invariant 0 <= i <= |buf| && p[..total] == old(p[..total]) && p[total..total + i] == buf[..i]
    {
      p[total + i] := buf[i];
      i := i + 1;
    }
    p[total + i] := COMMA;
  }

  /** The states the machine goes through while it reads s. */
  ghost predicate IsTrace(s: seq<bv8>, states: seq<State>) {
    |states| == |s| + 1 && states[0] == START && forall k :: 0 <= k < |s| ==> Next(states[k], s[k]) == states[k + 1]
  }

  lemma {:induction false} RunOfTrace(s: seq<bv8>, states: seq<State>)
    requires IsTrace(s, states)
    ensures Run(s) == states[|s|]
  {
    hide Next;
    if |s| > 0 {
      RunOfTrace(s[..|s| - 1], states[..|s|]);
    }
  }

  lemma IntPatterns(i: nat)
    requires i < 4
    ensures Run(IntPat(i)) == INT
  {
    RunOfTrace(IntPat(i), [START, if i < 2 then INT else S1, INT, INT, INT]);
  }

  lemma UnsignedFloats(i: nat)
    requires i < 2
    ensures Run(FloatPat(i)) == FLOAT
  {
    hide Run;
    match i
    case 0 => RunOfTrace(FloatPat(0), [START, INT, INT, FLOAT, FLOAT, FLOAT, FLOAT, FLOAT, FLOAT]);
    case 1 => RunOfTrace(FloatPat(1), [START, FLOAT, FLOAT, FLOAT, FLOAT, FLOAT, FLOAT, FLOAT, FLOAT]);
  }

  lemma SignedFloats(i: nat)
    requires 2 <= i < 4
    ensures Run(FloatPat(i)) == FLOAT
  {
    hide Run;
    match i
    case 2 => RunOfTrace(FloatPat(2), [START, S1, INT, INT, INT, FLOAT, FLOAT, FLOAT, FLOAT]);
    case 3 => RunOfTrace(FloatPat(3), [START, S1, INT, FLOAT, FLOAT, FLOAT, FLOAT, FLOAT, FLOAT]);
  }

  lemma FloatPatterns(i: nat)
    requires i < 4
    ensures Run(FloatPat(i)) == FLOAT
  {
    hide Run, FloatPat;
    if i < 2 {
      UnsignedFloats(i);
    } else {
      SignedFloats(i);
    }
  }

  lemma SciPatterns(i: nat)
    requires i < 4
    ensures Run(SciPat(i)) == if i == 2 then INVALID else SCIENTIFIC
  {
    hide Run;
    match i
    case 0 => RunOfTrace(SciPat(0), [START, INT, FLOAT, FLOAT, FLOAT, FLOAT, S2, EXPONENT, SCIENTIFIC]);
    case 1 => RunOfTrace(SciPat(1), [START, S1, FLOAT, FLOAT, FLOAT, FLOAT, S2, EXPONENT, SCIENTIFIC]);
    case 2 => RunOfTrace(SciPat(2), [START, S1, INT, INT, INVALID, INVALID, INVALID, INVALID, INVALID]);
    case 3 => RunOfTrace(SciPat(3), [START, S1, INT, FLOAT, FLOAT, S2, EXPONENT, SCIENTIFIC, SCIENTIFIC]);
  }

  lemma ErrPatterns(i: nat)
    requires i < 4
    ensures Run(ErrPat(i)) == INVALID
  {
    hide Run;
    match i
    case 0 => RunOfTrace(ErrPat(0), [START, INVALID, INVALID, INVALID, INVALID, INVALID, INVALID, INVALID, INVALID]);
    case 1 => RunOfTrace(ErrPat(1), [START, S1, INVALID, INVALID, INVALID, INVALID, INVALID, INVALID, INVALID]);
    case 2 => RunOfTrace(ErrPat(2), [START, INT, INVALID, INVALID, INVALID, INVALID, INVALID, INVALID, INVALID]);
    case 3 => RunOfTrace(ErrPat(3), [START, INT, INT, FLOAT, FLOAT, S2, EXPONENT, INVALID, INVALID]);
  }

  /**
   * The patterns have the forms their tables are named after, with one exception: no number begins like -87e+832,
   * because an exponent needs a dot before it.
   */
  lemma PatternForms(seed: s16)
    ensures var kind, sci2 := seed % 8, (seed % 8 == 5 || seed % 8 == 6) && seed / 8 % 4 == 2;
            && (kind <= 2 ==> IsInt(Pattern(seed)))
            && (3 <= kind <= 4 ==> IsFloat(Pattern(seed)))
            && (5 <= kind <= 6 && !sci2 ==> IsScientific(Pattern(seed)))
            && (kind == 7 || sci2 <==> !Viable(Pattern(seed)))
  {
    hide IsInt, IsFloat, IsScientific, Viable, Run, IntPat, FloatPat, SciPat, ErrPat;
    IntPatterns(seed / 8 % 4);
    FloatPatterns(seed / 8 % 4);
    SciPatterns(seed / 8 % 4);
    ErrPatterns(seed / 8 % 4);
    Classify(Pattern(seed), INT);
    Classify(Pattern(seed), FLOAT);
    Classify(Pattern(seed), SCIENTIFIC);
    InvalidMeansHopeless(Pattern(seed));
  }
}
