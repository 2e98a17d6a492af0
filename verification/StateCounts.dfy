/** What a token is and which counters go up while it is read (benchmark/coremark_v1.0/core_state.c). */
module StateCounts {
  import opened StateTokens

  /** The numbering of enum CORE_STATE. */
  function Index(q: State): (i: nat)
    ensures i < 8
  {
    match q
    case START => 0
    case INVALID => 1
    case S1 => 2
    case S2 => 3
    case INT => 4
    case FLOAT => 5
    case EXPONENT => 6
    case SCIENTIFIC => 7
  }

  /** One more for q; the counters are 32 bits wide. */
  function Bump(counts: seq<bv32>, q: State): (r: seq<bv32>)
    requires |counts| == 8
    ensures |r| == 8
  {
    counts[Index(q) := counts[Index(q)] + 1]
  }

  function BumpAll(counts: seq<bv32>, events: seq<State>): (r: seq<bv32>)
    requires |counts| == 8
    ensures |r| == 8
    decreases |events|
  {
    if |events| == 0 then counts else BumpAll(Bump(counts, events[0]), events[1..])
  }

  lemma {:induction false} BumpSplit(counts: seq<bv32>, a: seq<State>, b: seq<State>)
    requires |counts| == 8
    ensures BumpAll(counts, a + b) == BumpAll(BumpAll(counts, a), b)
    decreases |a|
  {
    hide Bump;
    if |a| == 0 {
      assert a + b == b;
    } else {
      assert (a + b)[1..] == a[1..] + b;
      BumpSplit(Bump(counts, a[0]), a[1..], b);
    }
  }

  /**
   * The counters that go up when c is read: a change of state counts for the state that is left, but giving up on an
   * exponent counts as INVALID, and a token whose first symbol is bad counts as INVALID as well.
   */
  function Ticks(state: State, c: bv8): seq<State> {
    var next := Next(state, c);
    if next == state then []
    else if state == START && next == INVALID then [INVALID, START]
    else if state == SCIENTIFIC then [INVALID]
    else [state]
  }

  /** The state at the end of a token, and where the next one starts. */
  function TokenEnd(text: seq<bv8>, i: nat, state: State): (State, nat)
    requires i <= |text|
    decreases |text| - i
  {
    if i == |text| || text[i] == 0 || state == INVALID then (state, i)
    else if text[i] == COMMA then (state, i + 1)
    else TokenEnd(text, i + 1, Next(state, text[i]))
  }

  /** The counters that go up on the way to the end of a token. */
  function TokenTicks(text: seq<bv8>, i: nat, state: State): seq<State>
    requires i <= |text|
    decreases |text| - i
  {
    if i == |text| || text[i] == 0 || state == INVALID || text[i] == COMMA then []
    else Ticks(state, text[i]) + TokenTicks(text, i + 1, Next(state, text[i]))
  }

  ghost predicate Plain(text: seq<bv8>, p: nat, e: nat)
    requires p <= e <= |text|
  {
    forall k :: p <= k < e ==> text[k] != 0 && text[k] != COMMA
  }

  /** text[p..e] is the token that starts at p, and n is where the next one starts. */
  ghost predicate IsToken(text: seq<bv8>, p: nat, e: nat, n: nat)
    requires p <= e <= |text|
  {
    && Plain(text, p, e)
    && (forall k :: p <= k < e ==> Run(text[p..k]) != INVALID)
    && (Run(text[p..e]) == INVALID || e == |text| || text[e] == 0 || text[e] == COMMA)
    && n == if Run(text[p..e]) != INVALID && e < |text| && text[e] == COMMA then e + 1 else e
  }

  lemma {:induction false} TokenFrom(text: seq<bv8>, p: nat, i: nat) returns (e: nat)
    requires p <= i <= |text| && Plain(text, p, i)
    requires forall k :: p <= k < i ==> Run(text[p..k]) != INVALID
    ensures i <= e <= |text| && IsToken(text, p, e, TokenEnd(text, i, Run(text[p..i])).1)
    ensures TokenEnd(text, i, Run(text[p..i])).0 == Run(text[p..e])
    decreases |text| - i
  {
    var state := Run(text[p..i]);
    if i == |text| || text[i] == 0 || state == INVALID || text[i] == COMMA {
      e := i;
    } else {
      assert text[p..i + 1] == text[p..i] + [text[i]];
      RunSnoc(text[p..i], text[i]);
      e := TokenFrom(text, p, i + 1);
    }
  }

  /**
   * What core_state_transition says about a token: its end state tells the form of the text, and it is INVALID
   * exactly if the text is the shortest one with which no number begins.
   */
  lemma TokenMeaning(text: seq<bv8>, p: nat) returns (e: nat)
    requires p <= |text|
    ensures p <= e <= |text| && IsToken(text, p, e, TokenEnd(text, p, START).1)
    ensures var state := TokenEnd(text, p, START).0;
            && (state == INT <==> IsInt(text[p..e]))
            && (state == FLOAT <==> IsFloat(text[p..e]))
            && (state == SCIENTIFIC <==> IsScientific(text[p..e]))
            && (state == INVALID <==> !Viable(text[p..e]))
    ensures forall k :: p <= k < e ==> Viable(text[p..k])
    ensures p < |text| && text[p] != 0 ==> p < TokenEnd(text, p, START).1
  {
    hide IsInt, IsFloat, IsScientific, Viable;
    assert text[p..p] == [];
    e := TokenFrom(text, p, p);
    Classify(text[p..e], INT);
    Classify(text[p..e], FLOAT);
    Classify(text[p..e], SCIENTIFIC);
    InvalidMeansHopeless(text[p..e]);
    forall k | p <= k < e
      ensures Viable(text[p..k])
    {
      InvalidMeansHopeless(text[p..k]);
    }
  }

  /** No token goes beyond a terminator. */
  lemma {:induction false} TokenStops(text: seq<bv8>, i: nat, state: State, k: nat)
    requires i <= k < |text| && text[k] == 0
    ensures i <= TokenEnd(text, i, state).1 <= k
    ensures text[i] != 0 && state != INVALID ==> i < TokenEnd(text, i, state).1
    decreases k - i
  {
    if text[i] != 0 && state != INVALID && text[i] != COMMA {
      TokenStops(text, i + 1, Next(state, text[i]), k);
    }
  }

  /** How often q occurs. */
  ghost function Tally(events: seq<State>, q: State): nat {
    if |events| == 0 then 0 else (if events[0] == q then 1 else 0) + Tally(events[1..], q)
  }

  /** n increments of a 32-bit counter. */
  ghost function Plus(c: bv32, n: nat): bv32
    decreases n
  {
    if n == 0 then c else Plus(c + 1, n - 1)
  }

  lemma IndexInjective(a: State, b: State)
    ensures Index(a) == Index(b) <==> a == b
  {
  }

  /** A counter grows by the number of its events. */
  lemma {:induction false} BumpAllIs(counts: seq<bv32>, events: seq<State>, q: State)
    requires |counts| == 8
    ensures BumpAll(counts, events)[Index(q)] == Plus(counts[Index(q)], Tally(events, q))
    decreases |events|
  {
    if |events| > 0 {
      IndexInjective(q, events[0]);
      BumpAllIs(Bump(counts, events[0]), events[1..], q);
    }
  }

  lemma {:induction false} TallySplit(a: seq<State>, b: seq<State>, q: State)
    ensures Tally(a + b, q) == Tally(a, q) + Tally(b, q)
  {
    if |a| == 0 {
      assert a + b == b;
    } else {
      assert (a + b)[1..] == a[1..] + b;
      TallySplit(a[1..], b, q);
    }
  }

  /** Symbol k is one at which the token that starts at p leaves state q. */
  ghost predicate Leaves(text: seq<bv8>, p: nat, k: nat, q: State)
    requires p <= k < |text|
  {
    Run(text[p..k]) == q && Run(text[p..k + 1]) != q
  }

  /** Symbol k is a first symbol with which no number begins. */
  ghost predicate BadStart(text: seq<bv8>, p: nat, k: nat)
    requires p <= k < |text|
  {
    Run(text[p..k]) == START && Run(text[p..k + 1]) == INVALID
  }

  /** The symbols of text[p..e], from i on, at which the token leaves state q. */
  ghost function Changes(text: seq<bv8>, p: nat, i: nat, e: nat, q: State): set<nat>
    requires p <= i <= e <= |text|
  {
    set k | i <= k < e && Leaves(text, p, k, q)
  }

  /** The symbols, from i on, that are bad at the start of a token. */
  ghost function BadStarts(text: seq<bv8>, p: nat, i: nat, e: nat): set<nat>
    requires p <= i <= e <= |text|
  {
    set k | i <= k < e && BadStart(text, p, k)
  }

  /**
   * How much the counter of q grows over the token text[p..e], from symbol i on: once for each time q is left; but
   * leaving SCIENTIFIC counts as INVALID, and so does a bad first symbol.
   */
  ghost function Counted(text: seq<bv8>, p: nat, i: nat, e: nat, q: State): nat
    requires p <= i <= e <= |text|
  {
    if q == SCIENTIFIC then 0
    else if q == INVALID then |Changes(text, p, i, e, SCIENTIFIC)| + |BadStarts(text, p, i, e)|
    else |Changes(text, p, i, e, q)|
  }

  lemma ChangesFrom(text: seq<bv8>, p: nat, i: nat, e: nat, q: State)
    requires p <= i < e <= |text|
    ensures |Changes(text, p, i, e, q)|
         == |Changes(text, p, i + 1, e, q)| + if Leaves(text, p, i, q) then 1 else 0
  {
    hide Leaves;
    var rest := Changes(text, p, i + 1, e, q);
    if Leaves(text, p, i, q) {
      assert Changes(text, p, i, e, q) == rest + {i};
    } else {
      assert Changes(text, p, i, e, q) == rest;
    }
  }

  lemma BadStartsFrom(text: seq<bv8>, p: nat, i: nat, e: nat)
    requires p <= i < e <= |text|
    ensures |BadStarts(text, p, i, e)|
         == |BadStarts(text, p, i + 1, e)| + if BadStart(text, p, i) then 1 else 0
  {
    hide BadStart;
    var rest := BadStarts(text, p, i + 1, e);
    if BadStart(text, p, i) {
      assert BadStarts(text, p, i, e) == rest + {i};
    } else {
      assert BadStarts(text, p, i, e) == rest;
    }
  }

  /** One symbol. */
  lemma TicksCount(state: State, c: bv8, q: State)
    requires state != INVALID
    ensures Tally(Ticks(state, c), q) ==
      if q == SCIENTIFIC then 0
      else if q == INVALID then
        (if state == SCIENTIFIC && Next(state, c) != SCIENTIFIC then 1 else 0)
        + if state == START && Next(state, c) == INVALID then 1 else 0
      else if state == q && Next(state, c) != q then 1 else 0
  {
    hide Next, Tally;
    NoTally(q);
    OneTally(state, q);
    OneTally(INVALID, q);
    TwoTallies(INVALID, START, q);
  }

  lemma OneTally(a: State, q: State)
    ensures Tally([a], q) == if a == q then 1 else 0
  {
    assert [a][1..] == [];
  }

  lemma TwoTallies(a: State, b: State, q: State)
    ensures Tally([a, b], q) == (if a == q then 1 else 0) + if b == q then 1 else 0
  {
    assert [a, b][1..] == [b];
    OneTally(b, q);
  }

  lemma NothingLeft(text: seq<bv8>, p: nat, e: nat, q: State)
    requires p <= e <= |text|
    ensures Counted(text, p, e, e, q) == 0
  {
    hide Leaves, BadStart;
    assert Changes(text, p, e, e, SCIENTIFIC) == {} && Changes(text, p, e, e, q) == {} && BadStarts(text, p, e, e) == {};
  }

  /** The counters of a token are counted by the states that its beginnings are in. */
  lemma {:induction false} TokenIsCounted(text: seq<bv8>, p: nat, i: nat, e: nat, n: nat, q: State)
    requires p <= i <= e <= |text| && IsToken(text, p, e, n)
    ensures Tally(TokenTicks(text, i, Run(text[p..i])), q) == Counted(text, p, i, e, q)
    decreases e - i
  {
    hide Next, Ticks, Tally, Changes, BadStarts, Run, Counted;
    var state := Run(text[p..i]);
    if i == e {
      NothingLeft(text, p, e, q);
      NoTally(q);
    } else {
      assert text[p..i + 1] == text[p..i] + [text[i]];
      RunSnoc(text[p..i], text[i]);
      TokenIsCounted(text, p, i + 1, e, n, q);
      TallySplit(Ticks(state, text[i]), TokenTicks(text, i + 1, Next(state, text[i])), q);
      TicksCount(state, text[i], q);
      CountedFrom(text, p, i, e, q);
    }
  }

  lemma NoTally(q: State)
    ensures Tally([], q) == 0
  {
  }

  lemma CountedFrom(text: seq<bv8>, p: nat, i: nat, e: nat, q: State)
    requires p <= i < e <= |text|
    ensures var was, now := Run(text[p..i]), Run(text[p..i + 1]);
            Counted(text, p, i, e, q) == Counted(text, p, i + 1, e, q) +
              if q == SCIENTIFIC then 0
              else if q == INVALID then
                (if was == SCIENTIFIC && now != SCIENTIFIC then 1 else 0) + if was == START && now == INVALID then 1 else 0
              else if was == q && now != q then 1 else 0
  {
    hide Run, Changes, BadStarts;
    ChangesFrom(text, p, i, e, q);
    ChangesFrom(text, p, i, e, SCIENTIFIC);
    BadStartsFrom(text, p, i, e);
  }

  /** Counters after a token: each has grown by Counted. */
  ghost predicate CountedOn(before: seq<bv32>, after: seq<bv32>, text: seq<bv8>, p: nat, e: nat)
    requires |before| == |after| == 8 && p <= e <= |text|
  {
    forall q: State {:trigger Index(q)} :: after[Index(q)] == Plus(before[Index(q)], Counted(text, p, p, e, q))
  }

  lemma TokenCounts(counts: seq<bv32>, text: seq<bv8>, p: nat, e: nat, n: nat)
    requires |counts| == 8 && p <= e <= |text| && IsToken(text, p, e, n)
    ensures CountedOn(counts, BumpAll(counts, TokenTicks(text, p, START)), text, p, e)
  {
    hide BumpAll, TokenTicks, Counted, Index;
    assert text[p..p] == [];
    forall q: State
      ensures BumpAll(counts, TokenTicks(text, p, START))[Index(q)] == Plus(counts[Index(q)], Counted(text, p, p, e, q))
    {
      BumpAllIs(counts, TokenTicks(text, p, START), q);
      TokenIsCounted(text, p, p, e, n, q);
    }
  }

  /** A token: where it begins and ends. */
  datatype Token = Token(start: nat, end: nat)

  /** Where the next token starts: behind the comma that ends this one, unless it has failed. */
  ghost function Following(text: seq<bv8>, t: Token): nat
    requires t.start <= t.end <= |text|
  {
    if Run(text[t.start..t.end]) != INVALID && t.end < |text| && text[t.end] == COMMA then t.end + 1 else t.end
  }

  /** The tokens of the text from p on, up to the terminator. */
  ghost predicate AreTokens(text: seq<bv8>, p: nat, tokens: seq<Token>)
    decreases |tokens|
  {
    if |tokens| == 0 then p < |text| && text[p] == 0
    else
      var t := tokens[0];
      && p == t.start <= t.end <= |text| && p < |text| && text[p] != 0
      && IsToken(text, t.start, t.end, Following(text, t))
      && AreTokens(text, Following(text, t), tokens[1..])
  }

  /** The number of tokens that end in q. */
  ghost function EndingIn(text: seq<bv8>, p: nat, tokens: seq<Token>, q: State): nat
    requires AreTokens(text, p, tokens)
    decreases |tokens|
  {
    if |tokens| == 0 then 0
    else (if Run(text[tokens[0].start..tokens[0].end]) == q then 1 else 0)
         + EndingIn(text, Following(text, tokens[0]), tokens[1..], q)
  }

  /** What the counter of q gets from all tokens. */
  ghost function CountedIn(text: seq<bv8>, p: nat, tokens: seq<Token>, q: State): nat
    requires AreTokens(text, p, tokens)
    decreases |tokens|
  {
    if |tokens| == 0 then 0
    else Counted(text, tokens[0].start, tokens[0].start, tokens[0].end, q)
         + CountedIn(text, Following(text, tokens[0]), tokens[1..], q)
  }
}
