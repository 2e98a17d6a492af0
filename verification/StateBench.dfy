/** Scanning a block of text, and corrupting and restoring it (benchmark/coremark_v1.0/core_state.c). */
module StateBench {
  import opened Arithmetic
  import opened Words
  import opened StateTokens
  import opened StateCounts
  import Crc

  /** `transition_count[q]++` */
  method Count(q: State, counts: array<bv32>)
    requires counts.Length == 8
    modifies counts
    ensures counts[..] == Bump(old(counts[..]), q)
  {
    counts[Index(q)] := counts[Index(q)] + 1;
  }

  lemma BumpOne(counts: seq<bv32>, q: State)
    requires |counts| == 8
    ensures BumpAll(counts, [q]) == Bump(counts, q)
  {
    assert [q][1..] == [];
  }

  /** One symbol: the branches of the state machine. */
  method Step(state: State, NEXT_SYMBOL: bv8, transition_count: array<bv32>) returns (state': State)
    requires state != INVALID && transition_count.Length == 8
    modifies transition_count
    ensures state' == Next(state, NEXT_SYMBOL)
    ensures transition_count[..] == BumpAll(old(transition_count[..]), Ticks(state, NEXT_SYMBOL))
  {
    hide IsDigit, IsSign, IsDot, IsE, Bump, BumpAll, Index;
    OneKind(NEXT_SYMBOL);
    ghost var counts := transition_count[..];
    BumpNone(counts);
    BumpOne(counts, state);
    BumpOne(counts, INVALID);
    BumpTwo(counts, INVALID, START);
    state' := state;
    match state
    case START =>
      if IsDigit(NEXT_SYMBOL) {
        state' := INT;
      } else if IsSign(NEXT_SYMBOL) {
        state' := S1;
      } else if IsDot(NEXT_SYMBOL) {
        state' := FLOAT;
      } else {
        state' := INVALID;
        Count(INVALID, transition_count);
      }
      Count(START, transition_count);
    case S1 =>
      if IsDigit(NEXT_SYMBOL) {
        state' := INT;
        Count(S1, transition_count);
      } else if IsDot(NEXT_SYMBOL) {
        state' := FLOAT;
        Count(S1, transition_count);
      } else {
        state' := INVALID;
        Count(S1, transition_count);
      }
    case INT =>
      if IsDot(NEXT_SYMBOL) {
        state' := FLOAT;
        Count(INT, transition_count);
      } else if !IsDigit(NEXT_SYMBOL) {
        state' := INVALID;
        Count(INT, transition_count);
      }
    case FLOAT =>
      if IsE(NEXT_SYMBOL) {
        state' := S2;
        Count(FLOAT, transition_count);
      } else if !IsDigit(NEXT_SYMBOL) {
        state' := INVALID;
        Count(FLOAT, transition_count);
      }
    case S2 =>
      if IsSign(NEXT_SYMBOL) {
        state' := EXPONENT;
        Count(S2, transition_count);
      } else {
        state' := INVALID;
        Count(S2, transition_count);
      }
    case EXPONENT =>
      if IsDigit(NEXT_SYMBOL) {
        state' := SCIENTIFIC;
        Count(EXPONENT, transition_count);
      } else {
        state' := INVALID;
        Count(EXPONENT, transition_count);
      }
    case SCIENTIFIC =>
      if !IsDigit(NEXT_SYMBOL) {
        state' := INVALID;
        Count(INVALID, transition_count);
      }
  }

  lemma BumpNone(counts: seq<bv32>)
    requires |counts| == 8
    ensures BumpAll(counts, []) == counts
  {
  }

  lemma BumpTwo(counts: seq<bv32>, q: State, r: State)
    requires |counts| == 8
    ensures BumpAll(counts, [q, r]) == Bump(Bump(counts, q), r)
  {
    hide Bump;
    assert [q, r][1..] == [r];
    BumpOne(Bump(counts, q), r);
  }

  /** The memory holds a terminator at or behind p. */
  ghost predicate Terminated(text: seq<bv8>, p: nat) {
    exists k :: p <= k < |text| && text[k] == 0
  }

  lemma TokenOver(text: seq<bv8>, i: nat, state: State)
    requires i < |text| && (text[i] == 0 || state == INVALID || text[i] == COMMA)
    ensures TokenEnd(text, i, state) == (state, if text[i] != 0 && state != INVALID then i + 1 else i)
    ensures TokenTicks(text, i, state) == []
  {
  }

  lemma TokenGoesOn(text: seq<bv8>, i: nat, state: State, counts: seq<bv32>)
    requires i < |text| && text[i] != 0 && state != INVALID && text[i] != COMMA && |counts| == 8
    ensures TokenEnd(text, i, state) == TokenEnd(text, i + 1, Next(state, text[i]))
    ensures BumpAll(counts, TokenTicks(text, i, state))
         == BumpAll(BumpAll(counts, Ticks(state, text[i])), TokenTicks(text, i + 1, Next(state, text[i])))
  {
    hide Ticks, Next, BumpAll;
    BumpSplit(counts, Ticks(state, text[i]), TokenTicks(text, i + 1, Next(state, text[i])));
  }

  /** A step within a token leaves its end state, its end and its final counters the same. */
  method StepOn(state: State, NEXT_SYMBOL: bv8, transition_count: array<bv32>, ghost text: seq<bv8>, ghost i: nat)
    returns (state': State)
    requires state != INVALID && transition_count.Length == 8
    requires i < |text| && text[i] == NEXT_SYMBOL && NEXT_SYMBOL != 0 && NEXT_SYMBOL != COMMA
    modifies transition_count
    ensures TokenEnd(text, i + 1, state') == TokenEnd(text, i, state)
    ensures BumpAll(transition_count[..], TokenTicks(text, i + 1, state'))
         == BumpAll(old(transition_count[..]), TokenTicks(text, i, state))
  {
    hide Ticks, Next, Bump, BumpAll, TokenEnd, TokenTicks;
    TokenGoesOn(text, i, state, transition_count[..]);
    state' := Step(state, NEXT_SYMBOL, transition_count);
  }

  /** The token that starts at p: it ends at e in the state of its text, and the counters have grown accordingly. */
  method CoreStateTransition(memblock: array<bv8>, p: nat, transition_count: array<bv32>)
    returns (state: State, str: nat, ghost e: nat)
    requires Terminated(memblock[..], p) && transition_count.Length == 8
    modifies transition_count
    ensures p < memblock.Length && (state, str) == TokenEnd(memblock[..], p, START)
    ensures str < memblock.Length && Terminated(memblock[..], str)
    ensures memblock[p] != 0 ==> p < str
    ensures transition_count[..] == BumpAll(old(transition_count[..]), TokenTicks(memblock[..], p, START))
    ensures p <= e <= memblock.Length && IsToken(memblock[..], p, e, str) && state == Run(memblock[p..e])
    ensures CountedOn(old(transition_count[..]), transition_count[..], memblock[..], p, e)
  {
    hide Ticks, Next, Bump, BumpAll, TokenEnd, TokenTicks, Terminated, Run, IsToken, CountedOn;
    ghost var text := memblock[..];
    ghost var k := Terminator(text, p);
    EmptyRun(text, p);
    e := TokenFrom(text, p, p);
    TokenCounts(transition_count[..], text, p, e, TokenEnd(text, p, START).1);
    state, str := START, p;
    TokenStops(text, p, START, k);
    ghost var goal := BumpAll(transition_count[..], TokenTicks(text, p, START));
    ghost var separated := false;
    while memblock[str] != 0 && state != INVALID
      invariant memblock[..] == text
      invariant !separated && p <= str <= k && TokenEnd(text, str, state) == TokenEnd(text, p, START)
      invariant BumpAll(transition_count[..], TokenTicks(text, str, state)) == goal
      decreases k - str
    {
      var NEXT_SYMBOL := memblock[str];
      assert NEXT_SYMBOL == text[str];
      if NEXT_SYMBOL == COMMA {
        TokenOver(text, str, state);
        separated := true;
        str := str + 1;
        break;
      }
      state := StepOn(state, NEXT_SYMBOL, transition_count, text, str);
      str := str + 1;
    }
    if !separated {
      TokenOver(text, str, state);
    }
    BumpNone(transition_count[..]);
    StillTerminated(text, str, k);
  }

  lemma EmptyRun(text: seq<bv8>, p: nat)
    ensures p <= |text| ==> Run(text[p..p]) == START && Plain(text, p, p)
  {
    assert p <= |text| ==> text[p..p] == [];
  }

  lemma Terminator(text: seq<bv8>, p: nat) returns (k: nat)
    requires Terminated(text, p)
    ensures p <= k < |text| && text[k] == 0
  {
    k :| p <= k < |text| && text[k] == 0;
  }

  lemma StillTerminated(text: seq<bv8>, p: nat, k: nat)
    requires p <= k < |text| && text[k] == 0
    ensures Terminated(text, p)
  {
  }

  /** The end states of the tokens from p on, up to the terminator. */
  function FinalStates(text: seq<bv8>, p: nat): seq<State>
    decreases |text| - p
  {
    if p >= |text| || text[p] == 0 then []
    else
      var (state, n) := TokenEnd(text, p, START);
      if p < n then [state] + FinalStates(text, n) else [state]
  }

  /** The transitions counted from p on. */
  function AllTicks(text: seq<bv8>, p: nat): seq<State>
    decreases |text| - p
  {
    if p >= |text| || text[p] == 0 then []
    else
      var (_, n) := TokenEnd(text, p, START);
      if p < n then TokenTicks(text, p, START) + AllTicks(text, n) else TokenTicks(text, p, START)
  }

  /** The tokens of a text, and what its end states and transitions say of them. */
  lemma {:induction false} TokensOf(text: seq<bv8>, p: nat) returns (tokens: seq<Token>)
    requires Terminated(text, p)
    ensures AreTokens(text, p, tokens)
    ensures forall q: State :: Tally(FinalStates(text, p), q) == EndingIn(text, p, tokens, q)
    ensures forall q: State :: Tally(AllTicks(text, p), q) == CountedIn(text, p, tokens, q)
    decreases |text| - p
  {
    InBlock(text, p);
    if text[p] == 0 {
      tokens := [];
    } else {
      var n := TokenEnd(text, p, START).1;
      var e := FirstToken(text, p);
      var rest := TokensOf(text, n);
      tokens := [Token(p, e)] + rest;
      FirstOfTokens(text, p, e, n, rest, tokens);
    }
  }

  /** The first token of a text that does not start with a terminator. */
  lemma FirstToken(text: seq<bv8>, p: nat) returns (e: nat)
    requires Terminated(text, p) && p < |text| && text[p] != 0
    ensures var (state, n) := TokenEnd(text, p, START);
            p <= e <= |text| && p < n && IsToken(text, p, e, n) && state == Run(text[p..e]) && Terminated(text, n)
  {
    hide Run, TokenEnd;
    EmptyRun(text, p);
    e := TokenFrom(text, p, p);
    var k := Terminator(text, p);
    TokenStops(text, p, START, k);
    StillTerminated(text, TokenEnd(text, p, START).1, k);
  }

  lemma FirstOfTokens(text: seq<bv8>, p: nat, e: nat, n: nat, rest: seq<Token>, tokens: seq<Token>)
    requires p < n && p < |text| && text[p] != 0 && p <= e <= |text| && IsToken(text, p, e, n)
    requires TokenEnd(text, p, START) == (Run(text[p..e]), n)
    requires AreTokens(text, n, rest) && tokens == [Token(p, e)] + rest
    requires forall q: State :: Tally(FinalStates(text, n), q) == EndingIn(text, n, rest, q)
    requires forall q: State :: Tally(AllTicks(text, n), q) == CountedIn(text, n, rest, q)
    ensures AreTokens(text, p, tokens)
    ensures forall q: State :: Tally(FinalStates(text, p), q) == EndingIn(text, p, tokens, q)
    ensures forall q: State :: Tally(AllTicks(text, p), q) == CountedIn(text, p, tokens, q)
  {
    hide Run, TokenEnd, TokenTicks, Counted;
    assert tokens[1..] == rest && Following(text, tokens[0]) == n;
    EmptyRun(text, p);
    var state := Run(text[p..e]);
    forall q: State
      ensures Tally(FinalStates(text, p), q) == EndingIn(text, p, tokens, q)
      ensures Tally(AllTicks(text, p), q) == CountedIn(text, p, tokens, q)
    {
      TallySplit([state], FinalStates(text, n), q);
      OneTally(state, q);
      TallySplit(TokenTicks(text, p, START), AllTicks(text, n), q);
      TokenIsCounted(text, p, p, e, n, q);
    }
  }

  /** The counters after a scan: one for each token by its end state, and the transitions of all tokens. */
  ghost predicate ScanCounts(finals: seq<bv32>, finals': seq<bv32>, tracks: seq<bv32>, tracks': seq<bv32>,
                             text: seq<bv8>, tokens: seq<Token>)
    requires |finals| == |finals'| == |tracks| == |tracks'| == 8 && AreTokens(text, 0, tokens)
  {
    forall q: State {:trigger Index(q)} ::
      && finals'[Index(q)] == Plus(finals[Index(q)], EndingIn(text, 0, tokens, q))
      && tracks'[Index(q)] == Plus(tracks[Index(q)], CountedIn(text, 0, tokens, q))
  }

  lemma ScanMeans(finals: seq<bv32>, tracks: seq<bv32>, text: seq<bv8>, tokens: seq<Token>)
    requires |finals| == |tracks| == 8 && AreTokens(text, 0, tokens)
    requires forall q: State :: Tally(FinalStates(text, 0), q) == EndingIn(text, 0, tokens, q)
    requires forall q: State :: Tally(AllTicks(text, 0), q) == CountedIn(text, 0, tokens, q)
    ensures ScanCounts(finals, BumpAll(finals, FinalStates(text, 0)), tracks, BumpAll(tracks, AllTicks(text, 0)), text, tokens)
  {
    hide BumpAll, FinalStates, AllTicks, AreTokens, EndingIn, CountedIn, Index, Tally;
    forall q: State
      ensures BumpAll(finals, FinalStates(text, 0))[Index(q)] == Plus(finals[Index(q)], EndingIn(text, 0, tokens, q))
      ensures BumpAll(tracks, AllTicks(text, 0))[Index(q)] == Plus(tracks[Index(q)], CountedIn(text, 0, tokens, q))
    {
      BumpAllIs(finals, FinalStates(text, 0), q);
      BumpAllIs(tracks, AllTicks(text, 0), q);
    }
  }

  /** `while (*p!=0)`: scan the whole text, and count end states and transitions. */
  method Scan(memblock: array<bv8>, final_counts: array<bv32>, track_counts: array<bv32>)
    returns (ghost tokens: seq<Token>)
    requires Terminated(memblock[..], 0) && final_counts != track_counts
    requires final_counts.Length == 8 && track_counts.Length == 8
    modifies final_counts, track_counts
    ensures final_counts[..] == BumpAll(old(final_counts[..]), FinalStates(memblock[..], 0))
    ensures track_counts[..] == BumpAll(old(track_counts[..]), AllTicks(memblock[..], 0))
    ensures AreTokens(memblock[..], 0, tokens)
    ensures ScanCounts(old(final_counts[..]), final_counts[..], old(track_counts[..]), track_counts[..], memblock[..], tokens)
  {
    hide Terminated, TokenEnd, TokenTicks, Bump, AreTokens, ScanCounts;
    ghost var text := memblock[..];
    tokens := TokensOf(text, 0);
    ScanMeans(final_counts[..], track_counts[..], text, tokens);
    ghost var finals, tracks := BumpAll(final_counts[..], FinalStates(text, 0)), BumpAll(track_counts[..], AllTicks(text, 0));
    var p := 0;
    InBlock(text, 0);
    while memblock[p] != 0
      invariant 0 <= p < memblock.Length && Terminated(text, p)
      invariant BumpAll(final_counts[..], FinalStates(text, p)) == finals
      invariant BumpAll(track_counts[..], AllTicks(text, p)) == tracks
      decreases memblock.Length - p
    {
      ghost var f, t := final_counts[..], track_counts[..];
      ghost var e;
      var fstate, n;
      fstate, n, e := CoreStateTransition(memblock, p, track_counts);
      BumpSplit(f, [fstate], FinalStates(text, n));
      BumpOne(f, fstate);
      BumpSplit(t, TokenTicks(text, p, START), AllTicks(text, n));
      Count(fstate, final_counts);
      p := n;
    }
  }

  lemma InBlock(text: seq<bv8>, p: nat)
    requires Terminated(text, p)
    ensures p < |text|
  {
  }

  function Xor(b: bv8, x: bv8): bv8 { b ^ x }

  function Corrupt1(b: bv8, x: bv8): bv8 {
    if b != COMMA then Xor(b, x) else b
  }

  /** Every step-th byte of the block, combined with x unless it is a comma. */
  function Corrupted(text: seq<bv8>, x: bv8, step: nat): (r: seq<bv8>)
    requires step > 0
    ensures |r| == |text| && forall k :: 0 <= k < |text| ==> r[k] == if k % step == 0 then Corrupt1(text[k], x) else text[k]
  {
    seq(|text|, k requires 0 <= k < |text| => if k % step == 0 then Corrupt1(text[k], x) else text[k])
  }

  lemma Between(i: nat, step: nat, k: nat)
    requires step > 0 && i % step == 0 && i < k < i + step
    ensures k % step != 0
  {
    var q, _ := DivDef(i, step);
    Div(q, k - i, step);
  }

  lemma AddStep(x: nat, step: nat)
    requires step > 0
    ensures (x + step) % step == x % step
  {
    var q, r := DivDef(x, step);
    Distribute(q, 1, 1, step);
    Div(q + 1, r, step);
  }

  /** `while (p < (memblock+blksize))` */
  method Corrupt(memblock: array<bv8>, x: bv8, step: nat)
    requires step > 0
    modifies memblock
    ensures memblock[..] == Corrupted(old(memblock[..]), x, step)
    ensures forall k :: 0 <= k < memblock.Length ==>
              memblock[k] == if k % step == 0 && old(memblock[k]) != 44 then old(memblock[k]) ^ x else old(memblock[k])
  {
    hide Corrupt1;
    var p := 0;
    ghost var text := memblock[..];
    while p < memblock.Length
      invariant 0 <= p && p % step == 0
      invariant forall k :: 0 <= k < memblock.Length ==>
        memblock[k] == if k < p && k % step == 0 then Corrupt1(text[k], x) else text[k]
    {
      XorByte(memblock, p, x);
      ghost var p0 := p;
      p := p + step;
      AddStep(p0, step);
      forall k | p0 < k < p
        ensures k % step != 0
      {
        Between(p0, step, k);
      }
    }
    CorruptedIs(text, x, step);
  }

  /** Exclusive or with x, but for commas. */
  lemma CorruptedIs(text: seq<bv8>, x: bv8, step: nat)
    requires step > 0
    ensures forall k :: 0 <= k < |text| ==>
              Corrupted(text, x, step)[k] == if k % step == 0 && text[k] != 44 then text[k] ^ x else text[k]
  {
    hide Corrupt1;
    forall k | 0 <= k < |text|
      ensures Corrupted(text, x, step)[k] == if k % step == 0 && text[k] != 44 then text[k] ^ x else text[k]
    {
      ByteCorrupted(text[k], x);
    }
  }

  lemma ByteCorrupted(b: bv8, x: bv8)
    ensures Corrupt1(b, x) == if b != 44 then b ^ x else b
  {
  }

  /** `if (*p!=',') *p^=(ee_u8)seed;` */
  method XorByte(memblock: array<bv8>, p: nat, x: bv8)
    requires p < memblock.Length
    modifies memblock
    ensures memblock[..] == old(memblock[..])[p := Corrupt1(old(memblock[p]), x)]
  {
    if memblock[p] != COMMA {
      memblock[p] := Xor(memblock[p], x);
    }
  }

  /** A byte comes back exactly if it is a comma, or if it does not become one and the two seeds are the same. */
  lemma ByteRestored(b: bv8, x1: bv8, x2: bv8)
    ensures Corrupt1(Corrupt1(b, x1), x2) == b <==> b == COMMA || (Xor(b, x1) != COMMA && x1 == x2)
  {
    XorBack(b, x1, x2);
    hide Xor;
  }

  lemma XorSelf(b: bv8, x: bv8)
    ensures Xor(Xor(b, x), x) == b
  {
  }

  lemma XorSwap(b: bv8, x: bv8)
    ensures Xor(b, Xor(b, x)) == x
  {
  }

  lemma XorBack(b: bv8, x1: bv8, x2: bv8)
    ensures Xor(Xor(b, x1), x2) == b <==> x1 == x2
  {
    hide Xor;
    XorSelf(b, x1);
    if Xor(Xor(b, x1), x2) == b {
      // both give b ^ x1 when combined with b, hence are equal
      XorSwap(Xor(b, x1), x2);
      XorSwap(Xor(b, x1), x1);
    }
  }

  /** The two passes restore the block exactly if they restore every byte they visit. */
  lemma BlockRestored(text: seq<bv8>, x1: bv8, x2: bv8, step: nat)
    requires step > 0
    ensures Corrupted(Corrupted(text, x1, step), x2, step) == text
       <==> forall k :: 0 <= k < |text| && k % step == 0 ==> text[k] == COMMA || (Xor(text[k], x1) != COMMA && x1 == x2)
  {
    hide Corrupt1, Xor;
    var twice := Corrupted(Corrupted(text, x1, step), x2, step);
    forall k | 0 <= k < |text|
      ensures twice[k] == text[k]
         <==> (k % step == 0 ==> text[k] == COMMA || (Xor(text[k], x1) != COMMA && x1 == x2))
    {
      ByteRestored(text[k], x1, x2);
    }
    if forall k :: 0 <= k < |text| && k % step == 0 ==> text[k] == COMMA || (Xor(text[k], x1) != COMMA && x1 == x2) {
      assert forall k :: 0 <= k < |text| ==> twice[k] == text[k];
    }
  }

  /** Of two neighbouring terminators one is not visited. */
  lemma OneTerminatorStays(text: seq<bv8>, x: bv8, step: nat)
    requires step >= 2 && |text| >= 2 && text[|text| - 1] == 0 && text[|text| - 2] == 0
    ensures Terminated(Corrupted(text, x, step), 0)
  {
    var k := |text| - 2;
    if k % step == 0 {
      Between(k, step, k + 1);
      assert Corrupted(text, x, step)[k + 1] == 0;
    } else {
      assert Corrupted(text, x, step)[k] == 0;
    }
  }

  /** Both kinds of counters, one after the other, for each state. */
  function CountsCrc(finals: seq<bv32>, tracks: seq<bv32>, i: nat, crc: bv16): bv16
    requires |finals| == |tracks| == 8 && i <= 8
  {
    if i == 0 then crc
    else Crc.CrcU32(tracks[i - 1], Crc.CrcU32(finals[i - 1], CountsCrc(finals, tracks, i - 1, crc)))
  }

  const ZEROS: seq<bv32> := [0, 0, 0, 0, 0, 0, 0, 0]

  /** The result of core_bench_state, from the block and the block that the first pass makes of it. */
  function BenchResult(text: seq<bv8>, text': seq<bv8>, crc: bv16): bv16 {
    CountsCrc(BumpAll(BumpAll(ZEROS, FinalStates(text, 0)), FinalStates(text', 0)),
              BumpAll(BumpAll(ZEROS, AllTicks(text, 0)), AllTicks(text', 0)), 8, crc)
  }

  /** crcu32 of one value after the other. */
  ghost function CrcStream32(values: seq<bv32>, crc: bv16): bv16 {
    if |values| == 0 then crc else CrcStream32(values[1..], Crc.CrcU32(values[0], crc))
  }

  lemma {:induction false} Stream32Append(values: seq<bv32>, v: bv32, crc: bv16)
    ensures CrcStream32(values + [v], crc) == Crc.CrcU32(v, CrcStream32(values, crc))
  {
    hide Crc.CrcU32;
    if |values| == 0 {
      assert (values + [v])[1..] == [];
    } else {
      assert (values + [v])[1..] == values[1..] + [v];
      Stream32Append(values[1..], v, Crc.CrcU32(values[0], crc));
    }
  }

  lemma {:induction false} CountsCrcIsStream(finals: seq<bv32>, tracks: seq<bv32>, i: nat, crc: bv16, values: seq<bv32>)
    requires |finals| == |tracks| == 8 && i <= 8 && |values| == 2 * i
    requires forall j :: 0 <= j < i ==> values[2 * j] == finals[j] && values[2 * j + 1] == tracks[j]
    ensures CountsCrc(finals, tracks, i, crc) == CrcStream32(values, crc)
  {
    hide Crc.CrcU32, CrcStream32;
    if i == 0 {
      assert values == [];
      EmptyStream(crc);
    } else {
      var init := values[..2 * i - 2];
      CountsCrcIsStream(finals, tracks, i - 1, crc, init);
      assert values[2 * (i - 1)] == finals[i - 1];
      assert values == (init + [finals[i - 1]]) + [tracks[i - 1]];
      Stream32Append(init, finals[i - 1], crc);
      Stream32Append(init + [finals[i - 1]], tracks[i - 1], crc);
    }
  }

  lemma EmptyStream(crc: bv16)
    ensures CrcStream32([], crc) == crc
  {
  }

  /** The two counters of a state, for a text and what the first corruption makes of it. */
  ghost function FinalCount(text: seq<bv8>, t: seq<Token>, text': seq<bv8>, t': seq<Token>, q: State): bv32
    requires AreTokens(text, 0, t) && AreTokens(text', 0, t')
  {
    Plus(Plus(0, EndingIn(text, 0, t, q)), EndingIn(text', 0, t', q))
  }

  ghost function TrackCount(text: seq<bv8>, t: seq<Token>, text': seq<bv8>, t': seq<Token>, q: State): bv32
    requires AreTokens(text, 0, t) && AreTokens(text', 0, t')
  {
    Plus(Plus(0, CountedIn(text, 0, t, q)), CountedIn(text', 0, t', q))
  }

  /**
   * The result of core_bench_state in terms of the tokens of the two texts: the CRC over the number of tokens that end
   * in a state and the number of transitions counted for it, for each state in the order of the enumeration.
   */
  lemma BenchResultMeans(text: seq<bv8>, text': seq<bv8>, crc: bv16, values: seq<bv32>)
    returns (t: seq<Token>, t': seq<Token>)
    requires Terminated(text, 0) && Terminated(text', 0)
    ensures AreTokens(text, 0, t) && AreTokens(text', 0, t')
    ensures var states := [START, INVALID, S1, S2, INT, FLOAT, EXPONENT, SCIENTIFIC];
            |values| == 16 && (forall j :: 0 <= j < 8 ==>
              && values[2 * j] == FinalCount(text, t, text', t', states[j])
              && values[2 * j + 1] == TrackCount(text, t, text', t', states[j])) ==>
            BenchResult(text, text', crc) == CrcStream32(values, crc)
  {
    hide Terminated, AreTokens, EndingIn, CountedIn, BumpAll, FinalStates, AllTicks, CountsCrc, CrcStream32, Index;
    t := TokensOf(text, 0);
    t' := TokensOf(text', 0);
    var finals1, tracks1 := BumpAll(ZEROS, FinalStates(text, 0)), BumpAll(ZEROS, AllTicks(text, 0));
    var finals, tracks := BumpAll(finals1, FinalStates(text', 0)), BumpAll(tracks1, AllTicks(text', 0));
    ScanMeans(ZEROS, ZEROS, text, t);
    ScanMeans(finals1, tracks1, text', t');
    var states := [START, INVALID, S1, S2, INT, FLOAT, EXPONENT, SCIENTIFIC];
    forall j | 0 <= j < 8
      ensures finals[j] == FinalCount(text, t, text', t', states[j])
      ensures tracks[j] == TrackCount(text, t, text', t', states[j])
    {
      IndexOfStates(j);
      assert finals[Index(states[j])] == finals[j];
    }
    if |values| == 16 && forall j :: 0 <= j < 8 ==>
         && values[2 * j] == FinalCount(text, t, text', t', states[j])
         && values[2 * j + 1] == TrackCount(text, t, text', t', states[j])
    {
      CountsCrcIsStream(finals, tracks, 8, crc, values);
    }
  }

  lemma IndexOfStates(j: nat)
    requires j < 8
    ensures Index([START, INVALID, S1, S2, INT, FLOAT, EXPONENT, SCIENTIFIC][j]) == j && ZEROS[j] == 0
  {
  }

  method CoreBenchState(memblock: array<bv8>, seed1: s16, seed2: s16, step: s16, crc: bv16) returns (r: bv16)
    requires memblock.Length >= 2 && memblock[memblock.Length - 1] == 0 && memblock[memblock.Length - 2] == 0
    requires step >= 2
    modifies memblock
    ensures var x1, x2 := (seed1 % 0x100) as bv8, (seed2 % 0x100) as bv8;
            && memblock[..] == Corrupted(Corrupted(old(memblock[..]), x1, step), x2, step)
            && r == BenchResult(old(memblock[..]), Corrupted(old(memblock[..]), x1, step), crc)
  {
    hide Terminated, TokenEnd, TokenTicks, Bump, BumpAll, Corrupted, FinalStates, AllTicks, Crc.CrcU32, AreTokens,
      ScanCounts;
    var final_counts, track_counts := new bv32[8](_ => 0), new bv32[8](_ => 0);
    assert final_counts[..] == ZEROS && track_counts[..] == ZEROS;
    // (ee_u8)seed
    var x1, x2 := (seed1 % 0x100) as bv8, (seed2 % 0x100) as bv8;
    ghost var text := memblock[..];
    TerminatedAtEnd(text);
    ghost var tokens := Scan(memblock, final_counts, track_counts);
    OneTerminatorStays(text, x1, step);
    Corrupt(memblock, x1, step);
    ghost var tokens' := Scan(memblock, final_counts, track_counts);
    Corrupt(memblock, x2, step);
    r := crc;
    for i := 0 to 8
      invariant r == CountsCrc(final_counts[..], track_counts[..], i, crc)
    {
      r := Crc.CrcU32(final_counts[i], r);
      r := Crc.CrcU32(track_counts[i], r);
    }
  }

  lemma TerminatedAtEnd(text: seq<bv8>)
    requires |text| >= 2 && text[|text| - 1] == 0
    ensures Terminated(text, 0)
  {
  }
}
