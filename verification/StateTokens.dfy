/** The state machine that recognises numbers (benchmark/coremark_v1.0/core_state.c). */
module StateTokens {
  datatype State = START | INVALID | S1 | S2 | INT | FLOAT | EXPONENT | SCIENTIFIC

  const COMMA: bv8 := 44

  predicate IsDigit(c: bv8) {
    48 <= c <= 57
  }

  predicate IsSign(c: bv8) {
    c == 43 || c == 45
  }

  predicate IsDot(c: bv8) {
    c == 46
  }

  predicate IsE(c: bv8) {
    c == 69 || c == 101
  }

  /** The symbols as characters. */
  lemma Symbols(c: bv8)
    ensures IsDigit(c) <==> '0' as int <= c as int <= '9' as int
    ensures IsSign(c) <==> c as int == '+' as int || c as int == '-' as int
    ensures IsDot(c) <==> c as int == '.' as int
    ensures IsE(c) <==> c as int == 'E' as int || c as int == 'e' as int
    ensures c == COMMA <==> c as int == ',' as int
  {
  }

  lemma OneKind(c: bv8)
    ensures IsDigit(c) ==> !IsSign(c) && !IsDot(c) && !IsE(c)
    ensures IsSign(c) ==> !IsDot(c) && !IsE(c)
    ensures IsDot(c) ==> !IsE(c)
  {
  }

  /** The state after symbol c. */
  function Next(state: State, c: bv8): State {
    match state
    case START => if IsDigit(c) then INT else if IsSign(c) then S1 else if IsDot(c) then FLOAT else INVALID
    case S1 => if IsDigit(c) then INT else if IsDot(c) then FLOAT else INVALID
    case INT => if IsDot(c) then FLOAT else if !IsDigit(c) then INVALID else INT
    case FLOAT => if IsE(c) then S2 else if !IsDigit(c) then INVALID else FLOAT
    case S2 => if IsSign(c) then EXPONENT else INVALID
    case EXPONENT => if IsDigit(c) then SCIENTIFIC else INVALID
    case SCIENTIFIC => if !IsDigit(c) then INVALID else SCIENTIFIC
    case INVALID => INVALID
  }

  /** The state after a text. */
  ghost function Run(s: seq<bv8>): State {
    if |s| == 0 then START else Next(Run(s[..|s| - 1]), s[|s| - 1])
  }

  ghost predicate Digits(s: seq<bv8>) {
    forall k :: 0 <= k < |s| ==> IsDigit(s[k])
  }

  /** The text behind an optional sign. */
  ghost function Unsigned(s: seq<bv8>): seq<bv8> {
    if |s| > 0 && IsSign(s[0]) then s[1..] else s
  }

  /** [+-]?d+ */
  ghost predicate IsInt(s: seq<bv8>) {
    |Unsigned(s)| > 0 && Digits(Unsigned(s))
  }

  ghost predicate DotAt(t: seq<bv8>, d: nat) {
    d < |t| && IsDot(t[d]) && Digits(t[..d]) && Digits(t[d + 1..])
  }

  /** [+-]?d*.d* */
  ghost predicate IsFloat(s: seq<bv8>) {
    exists d: nat :: DotAt(Unsigned(s), d)
  }

  ghost predicate ExponentAt(s: seq<bv8>, e: nat) {
    e + 2 < |s| && IsFloat(s[..e]) && IsE(s[e]) && IsSign(s[e + 1]) && Digits(s[e + 2..])
  }

  /** FLOAT[eE][+-]d+ */
  ghost predicate IsScientific(s: seq<bv8>) {
    exists e: nat :: ExponentAt(s, e)
  }

  ghost predicate IsNumber(s: seq<bv8>) {
    IsInt(s) || IsFloat(s) || IsScientific(s)
  }

  /** Some number begins with s. */
  ghost predicate Viable(s: seq<bv8>) {
    exists t :: IsNumber(s + t)
  }

  /** A float and the letter of an exponent. */
  ghost predicate EndsInE(s: seq<bv8>) {
    |s| > 0 && IsFloat(s[..|s| - 1]) && IsE(s[|s| - 1])
  }

  ghost predicate EndsInESign(s: seq<bv8>) {
    |s| > 0 && EndsInE(s[..|s| - 1]) && IsSign(s[|s| - 1])
  }

  ghost predicate IsSignOnly(s: seq<bv8>) {
    |s| == 1 && IsSign(s[0])
  }

  lemma DigitsSnoc(s: seq<bv8>, c: bv8)
    ensures Digits(s + [c]) <==> Digits(s) && IsDigit(c)
  {
    hide IsDigit;
    if Digits(s + [c]) {
      assert (s + [c])[|s|] == c;
      forall k | 0 <= k < |s|
        ensures IsDigit(s[k])
      {
        assert (s + [c])[k] == s[k];
      }
    }
  }

  lemma UnsignedSnoc(s: seq<bv8>, c: bv8)
    requires |s| > 0
    ensures Unsigned(s + [c]) == Unsigned(s) + [c]
  {
    hide IsSign;
    if IsSign(s[0]) {
      assert (s + [c])[1..] == s[1..] + [c];
    }
  }

  lemma IntSnoc(s: seq<bv8>, c: bv8)
    ensures IsInt(s + [c]) <==> IsDigit(c) && (s == [] || IsSignOnly(s) || IsInt(s))
  {
    OneKind(c);
    hide IsDigit, IsSign, IsDot, IsE;
    if |s| > 0 {
      UnsignedSnoc(s, c);
      DigitsSnoc(Unsigned(s), c);
    } else {
      assert [] + [c] == [c];
      assert IsDigit(c) ==> Digits([c]);
      assert Digits([c]) ==> IsDigit([c][0]);
    }
  }

  lemma DotSnoc(t: seq<bv8>, c: bv8, d: nat)
    ensures d < |t| ==> (DotAt(t + [c], d) <==> DotAt(t, d) && IsDigit(c))
    ensures DotAt(t + [c], |t|) <==> IsDot(c) && Digits(t)
  {
    hide IsDigit, IsDot;
    if d < |t| {
      assert (t + [c])[..d] == t[..d] && (t + [c])[d + 1..] == t[d + 1..] + [c];
      DigitsSnoc(t[d + 1..], c);
    }
    assert (t + [c])[..|t|] == t && (t + [c])[|t| + 1..] == [];
  }

  lemma FloatOfUnsigned(t: seq<bv8>, c: bv8)
    ensures (exists d: nat :: DotAt(t + [c], d)) <==> (IsDot(c) && Digits(t)) || (IsDigit(c) && exists d: nat :: DotAt(t, d))
  {
    hide IsDigit, IsDot;
    DotSnoc(t, c, |t|);
    if d: nat :| DotAt(t + [c], d) {
      DotSnoc(t, c, d);
    }
    if d: nat :| DotAt(t, d) {
      DotSnoc(t, c, d);
    }
  }

  lemma FloatSnoc(s: seq<bv8>, c: bv8)
    ensures IsFloat(s + [c]) <==> (IsDot(c) && (s == [] || IsSignOnly(s) || IsInt(s))) || (IsDigit(c) && IsFloat(s))
  {
    OneKind(c);
    hide IsDigit, IsSign, IsDot, IsE, DotAt;
    if |s| > 0 {
      UnsignedSnoc(s, c);
      FloatOfUnsigned(Unsigned(s), c);
    } else {
      assert [] + [c] == [c];
      NoFloat(s);
      if IsSign(c) {
        assert Unsigned([c]) == [];
        NoFloat([c]);
      } else {
        assert Unsigned(s + [c]) == Unsigned(s) + [c];
        FloatOfUnsigned(Unsigned(s), c);
      }
    }
  }

  lemma NoFloat(s: seq<bv8>)
    requires Unsigned(s) == []
    ensures !IsFloat(s)
  {
  }

  lemma ExponentSnoc(s: seq<bv8>, c: bv8, e: nat)
    ensures e + 2 < |s| ==> (ExponentAt(s + [c], e) <==> ExponentAt(s, e) && IsDigit(c))
    ensures |s| >= 2 ==> (ExponentAt(s + [c], |s| - 2) <==> EndsInESign(s) && IsDigit(c))
  {
    hide IsDigit, IsSign, IsDot, IsE, IsFloat;
    var u := s + [c];
    if e + 2 < |s| {
      assert u[..e] == s[..e] && u[e + 2..] == s[e + 2..] + [c];
      DigitsSnoc(s[e + 2..], c);
    }
    if |s| >= 2 {
      assert u[..|s| - 2] == s[..|s| - 1][..|s| - 2] && u[|s|..] == [c];
      DigitsSnoc([], c);
      assert [] + [c] == [c];
    }
  }

  lemma ScientificSnoc(s: seq<bv8>, c: bv8)
    ensures IsScientific(s + [c]) <==> IsDigit(c) && (EndsInESign(s) || IsScientific(s))
  {
    hide IsDigit, IsSign, IsDot, IsE, IsFloat, ExponentAt, EndsInE;
    if |s| >= 2 {
      ExponentSnoc(s, c, |s| - 2);
    }
    if e: nat :| ExponentAt(s + [c], e) {
      ExponentSnoc(s, c, e);
      ExponentFits(s + [c], e);
    }
    if e: nat :| ExponentAt(s, e) {
      ExponentSnoc(s, c, e);
      ExponentFits(s, e);
    }
    if EndsInESign(s) {
      SignFits(s);
    }
  }

  lemma ExponentFits(s: seq<bv8>, e: nat)
    requires ExponentAt(s, e)
    ensures e + 2 < |s|
  {
  }

  lemma SignFits(s: seq<bv8>)
    requires EndsInESign(s)
    ensures |s| >= 2
  {
  }

  /** What a state says about the text read so far. */
  ghost predicate Says(state: State, s: seq<bv8>) {
    match state
    case START => s == []
    case S1 => IsSignOnly(s)
    case INT => IsInt(s)
    case FLOAT => IsFloat(s)
    case S2 => EndsInE(s)
    case EXPONENT => EndsInESign(s)
    case SCIENTIFIC => IsScientific(s)
    case INVALID => !Viable(s)
  }

  lemma SaysSnoc(s: seq<bv8>, c: bv8)
    ensures !Says(START, s + [c])
    ensures Says(S1, s + [c]) <==> s == [] && IsSign(c)
    ensures Says(S2, s + [c]) <==> IsFloat(s) && IsE(c)
    ensures Says(EXPONENT, s + [c]) <==> EndsInE(s) && IsSign(c)
  {
    hide IsDigit, IsSign, IsDot, IsE, IsFloat, IsInt, IsScientific, EndsInE;
    assert (s + [c])[..|s|] == s;
    assert EndsInE(s + [c]) <==> IsFloat(s) && IsE(c) by {
      EndsInESnoc(s, c);
    }
  }

  lemma EndsInESnoc(s: seq<bv8>, c: bv8)
    ensures EndsInE(s + [c]) <==> IsFloat(s) && IsE(c)
  {
    assert (s + [c])[..|s|] == s;
  }

  lemma NothingSays()
    ensures !IsInt([]) && !IsFloat([]) && !IsScientific([]) && !EndsInE([]) && !EndsInESign([])
  {
  }

  /** The machine is in a state other than INVALID exactly if the text has the form that belongs to the state. */
  lemma {:induction false} Classify(s: seq<bv8>, q: State)
    requires q != INVALID
    ensures Run(s) == q <==> Says(q, s)
  {
    hide IsDigit, IsSign, IsDot, IsE, IsFloat, IsInt, IsScientific, EndsInE, EndsInESign, Viable, Run;
    if |s| == 0 {
      NothingSays();
      RunEmpty();
    } else {
      var t, c := s[..|s| - 1], s[|s| - 1];
      assert s == t + [c];
      RunSnoc(t, c);
      OneKind(c);
      IntSnoc(t, c);
      FloatSnoc(t, c);
      ScientificSnoc(t, c);
      SaysSnoc(t, c);
      Predecessors(t, c, q);
      Classify(t, START);
      Classify(t, S1);
      Classify(t, S2);
      Classify(t, INT);
      Classify(t, FLOAT);
      Classify(t, EXPONENT);
      Classify(t, SCIENTIFIC);
    }
  }

  lemma RunEmpty()
    ensures Run([]) == START
  {
  }

  lemma RunSnoc(s: seq<bv8>, c: bv8)
    ensures Run(s + [c]) == Next(Run(s), c)
  {
    assert (s + [c])[..|s|] == s;
  }

  /** From which states each state is reached. */
  lemma Predecessors(t: seq<bv8>, c: bv8, q: State)
    ensures var p := Next(Run(t), c);
            && p != START
            && (p == S1 <==> Run(t) == START && IsSign(c))
            && (p == INT <==> IsDigit(c) && (Run(t) == START || Run(t) == S1 || Run(t) == INT))
            && (p == FLOAT <==> (IsDot(c) && (Run(t) == START || Run(t) == S1 || Run(t) == INT)) || (IsDigit(c) && Run(t) == FLOAT))
            && (p == S2 <==> Run(t) == FLOAT && IsE(c))
            && (p == EXPONENT <==> Run(t) == S2 && IsSign(c))
            && (p == SCIENTIFIC <==> IsDigit(c) && (Run(t) == EXPONENT || Run(t) == SCIENTIFIC))
  {
    OneKind(c);
    hide IsDigit, IsSign, IsDot, IsE, Run;
  }

  lemma {:induction false} InvalidStays(s: seq<bv8>, t: seq<bv8>)
    requires Run(s) == INVALID
    ensures Run(s + t) == INVALID
  {
    if |t| == 0 {
      assert s + t == s;
    } else {
      InvalidStays(s, t[..|t| - 1]);
      RunSnoc(s + t[..|t| - 1], t[|t| - 1]);
      assert s + t == (s + t[..|t| - 1]) + [t[|t| - 1]];
    }
  }

  lemma NumberStates(s: seq<bv8>)
    ensures IsNumber(s) <==> Run(s) == INT || Run(s) == FLOAT || Run(s) == SCIENTIFIC
  {
    hide IsFloat, IsInt, IsScientific, Run;
    Classify(s, INT);
    Classify(s, FLOAT);
    Classify(s, SCIENTIFIC);
  }

  /** What makes a number of a text that is not invalid. */
  function Completion(state: State): seq<bv8> {
    match state
    case START => [48]
    case S1 => [48]
    case S2 => [43, 48]
    case EXPONENT => [48]
    case _ => []
  }

  lemma Completed(s: seq<bv8>)
    requires Run(s) != INVALID
    ensures IsNumber(s + Completion(Run(s)))
  {
    hide IsNumber, Run;
    if Run(s) == S2 {
      RunSnoc(s, 43);
      RunSnoc(s + [43], 48);
      assert s + [43, 48] == s + [43] + [48];
    } else {
      RunSnoc(s, 48);
      assert s + [] == s;
    }
    NumberStates(s + Completion(Run(s)));
  }

  /** The machine is in state INVALID exactly if no number begins with the text. */
  lemma InvalidMeansHopeless(s: seq<bv8>)
    ensures Run(s) == INVALID <==> !Viable(s)
  {
    hide IsNumber, Run;
    if Run(s) != INVALID {
      Completed(s);
    } else {
      forall t: seq<bv8>
        ensures !IsNumber(s + t)
      {
        InvalidStays(s, t);
        NumberStates(s + t);
      }
    }
  }
}
