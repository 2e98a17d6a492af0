/** Programs of level-1 and level-2 rules: which of them fit together, and what the tables then mean (cpu/mmugen.c). */
module MmuTables {
  import opened Arithmetic
  import opened Words
  import opened MmuFormat
  import opened MmuRules
  import opened MmuLayout

  /** A level-1 rule for the megabytes from mb on; a fine rule may or may not count its last address. */
  ghost predicate Level1Rule(r: Rule, mb: nat) {
    && r.Sensible() && r.v_base == mb * MB
    && match r.entrytype
       case S => r.p_base % MB == 0
       case F => r.p_base % 4 == 0
       case C => true
       case I => r.v_end - r.v_base == MB || r.v_end - r.v_base == MB - 1
       case _ => false
  }

  /** The physical address of the k-th megabyte of a rule. */
  ghost function MegBase(r: Rule, k: nat): u32 {
    (r.p_base + k * MB) % TOP
  }

  /** What a level-1 rule says about its k-th megabyte. */
  ghost function CellAt(r: Rule, k: nat): Cell
    requires |r.access| == 4
  {
    match r.entrytype
    case S => Section(MegBase(r, k), r.access[0], r.domain, r.cb)
    case F => Unmapped(MegBase(r, k))
    case C => Coarse(r.domain)
    case _ => Fine(r.domain)
  }

  /** A rule for coarse or fine pages writes one entry, whatever its range. */
  ghost function CellCount(r: Rule): nat
    requires r.v_base < r.v_end
  {
    if r.entrytype.S? || r.entrytype.F? then Megs(r) else 1
  }

  ghost function CellsOf(r: Rule, n: nat): (c: seq<Cell>)
    requires |r.access| == 4
    ensures |c| == n
  {
    seq(n, k requires 0 <= k < n => CellAt(r, k))
  }

  /** The level-1 rules follow one another without a gap. */
  ghost predicate InOrder(rules: seq<Rule>)
    decreases |rules|, 0
  {
    |rules| == 0 ||
    (InOrder(rules[..|rules| - 1]) && Level1Rule(rules[|rules| - 1], |AllCells(rules[..|rules| - 1])|))
  }

  ghost function AllCells(rules: seq<Rule>): seq<Cell>
    requires InOrder(rules)
    decreases |rules|, 1
  {
    if |rules| == 0 then []
    else
      var r := rules[|rules| - 1];
      AllCells(rules[..|rules| - 1]) + CellsOf(r, CellCount(r))
  }

  lemma WordAddress(a: nat, k: nat)
    ensures (a * 4 + k * MB) % TOP % 4 == 0
  {
    var w, q := DivDef(a + k * 0x4_0000, 0x4000_0000);
    Div(w, q * 4, TOP);
    Div(q, 0, 4);
  }

  lemma CellSensible(r: Rule, mb: nat, k: nat)
    requires Level1Rule(r, mb)
    ensures CellAt(r, k).Sensible()
  {
    if r.entrytype.S? {
      var a, _ := DivDef(r.p_base, MB);
      var q := PageAddress(a, k * MB, MB);
      Div(k, 0, MB);
      Div(q, 0, MB);
    } else if r.entrytype.F? {
      var a, _ := DivDef(r.p_base, 4);
      WordAddress(a, k);
    }
  }

  lemma {:induction false} CellsSensible(rules: seq<Rule>)
    requires InOrder(rules)
    ensures AllSensible(AllCells(rules))
  {
    if |rules| > 0 {
      var init, r := rules[..|rules| - 1], rules[|rules| - 1];
      CellsSensible(init);
      forall k: nat | k < CellCount(r)
        ensures CellAt(r, k).Sensible()
      {
        CellSensible(r, |AllCells(init)|, k);
      }
    }
  }

  /** Every rule of level 1 finds its own entries. */
  lemma {:induction false} CellInPlace(rules: seq<Rule>, j: nat, k: nat)
    requires InOrder(rules) && j < |rules| && rules[j].Sensible() && k < CellCount(rules[j])
    ensures rules[j].v_base % MB == 0 && rules[j].v_base / MB + k < |AllCells(rules)|
    ensures AllCells(rules)[rules[j].v_base / MB + k] == CellAt(rules[j], k)
  {
    var init, r := rules[..|rules| - 1], rules[|rules| - 1];
    if j < |init| {
      CellInPlace(init, j, k);
    } else {
      Div(|AllCells(init)|, 0, MB);
    }
  }

  /** What a level-1 rule promises about va. */
  ghost function Promise1(r: Rule, va: nat): Outcome
    requires |r.access| == 4 && r.v_base <= va
  {
    if r.entrytype.F? then Fault else Mapped(Target(r, va), r.access[0], r.domain, r.cb)
  }

  ghost predicate Covers1(r: Rule, va: nat) {
    r.v_base < r.v_end && (r.entrytype.S? || r.entrytype.F?) && r.v_base <= va < r.v_base + Megs(r) * MB
  }

  lemma SectionTarget(r: Rule, va: u32, k: nat)
    requires r.v_base <= va && r.p_base % MB == 0 && r.v_base % MB == 0 && k == va / MB - r.v_base / MB
    ensures MegBase(r, k) + va % MB == Target(r, va)
  {
    var a, _ := DivDef(r.p_base, MB);
    var b, _ := DivDef(r.v_base, MB);
    var c, rem := DivDef(va, MB);
    var off := va - r.v_base;
    assert off == k * MB + rem;
    Div(k, rem, MB);
    var q := PageAddress(a, off, MB);
  }

  lemma InMegabytes(b: nat, va: nat, n: nat)
    requires b * MB <= va < b * MB + n * MB
    ensures b <= va / MB < b + n
  {
  }

  /** Sections and faults are found by the walk as their rules say. */
  lemma Level1Meaning(base: nat, rules: seq<Rule>, words: seq<u32>, j: nat, va: u32)
    requires InOrder(rules) && Laid(base, AllCells(rules), words)
    requires j < |rules| && rules[j].Sensible() && Covers1(rules[j], va)
    ensures Walk(base, words, va) == Promise1(rules[j], va)
  {
    hide Walk, Laid, Target, Megs;
    var r := rules[j];
    CellInPlace(rules, j, 0);
    var b, _ := DivDef(r.v_base, MB);
    InMegabytes(b, va, Megs(r));
    var k := va / MB - b;
    CellInPlace(rules, j, k);
    CellsSensible(rules);
    if r.entrytype.S? {
      WalkSection(base, AllCells(rules), words, va);
      assert CellAt(r, 0).Sensible();
      SectionBase(rules, j);
      SectionTarget(r, va, k);
    } else {
      WalkFault(base, AllCells(rules), words, va);
    }
  }

  lemma {:induction false} SectionBase(rules: seq<Rule>, j: nat)
    requires InOrder(rules) && j < |rules| && rules[j].entrytype.S?
    ensures rules[j].p_base % MB == 0
  {
    if j < |rules| - 1 {
      SectionBase(rules[..|rules| - 1], j);
    }
  }

  /** The word the walk of va goes on to when the word d of level 1 is taken for a coarse or fine table. */
  ghost function SecondWord(base: nat, words: seq<u32>, d: u32, va: u32): int {
    if d % 4 == 1 then Fetch(base, words, d / 0x400 * 0x400 + va / 0x1000 % 0x100 * 4)
    else Fetch(base, words, d / 0x1000 * 0x1000 + va / 0x400 % 0x400 * 4)
  }

  /**
   * A FAULT rule writes a fault descriptor exactly if the physical address it carries is a multiple of 4.
   * Otherwise the walk takes the word for a section, or goes on at the physical address as if a table were there;
   * then it faults only if it happens to find a fault descriptor in that place.
   */
  lemma FaultRuleFaults(base: nat, r: Rule, words: seq<u32>, va: u32)
    requires r.v_base / MB <= va / MB < |words|
    requires words[va / MB] == Or(MegBase(r, va / MB - r.v_base / MB), 0)
    ensures r.p_base % 4 == 0 <==> words[va / MB] % 4 == 0
    ensures r.p_base % 4 == 0 ==> Walk(base, words, va) == Fault
    ensures r.p_base % 4 == 2 ==> Walk(base, words, va).Mapped?
    ensures var d := MegBase(r, va / MB - r.v_base / MB);
            r.p_base % 4 in {1, 3} ==> Walk(base, words, va) == Walk2(d / 0x20 % 0x10, SecondWord(base, words, d, va), va)
    ensures var second := SecondWord(base, words, MegBase(r, va / MB - r.v_base / MB), va);
            Walk(base, words, va) == Fault <==>
              r.p_base % 4 == 0 || (r.p_base % 4 in {1, 3} && second >= 0 && second % 4 == 0)
  {
    hide Or, Walk, Walk2, SecondWord, MegBase;
    var k := va / MB - r.v_base / MB;
    FaultDecoded(MegBase(r, k));
    SameLowBits(r, k);
    WalkOf(base, words, va, MegBase(r, k));
  }

  lemma SameLowBits(r: Rule, k: nat)
    ensures MegBase(r, k) % 4 == r.p_base % 4
  {
    var a, c := DivDef(r.p_base, 4);
    var w, q := DivDef(r.p_base + k * MB, TOP);
    Div(a + k * 0x4_0000 - w * 0x4000_0000, c, 4);
  }

  lemma Walk2Faults(domain: nat, d: int, va: u32)
    ensures Walk2(domain, d, va) == Fault <==> d >= 0 && d % 4 == 0
  {
    hide Quarter;
  }

  lemma WalkOf(base: nat, words: seq<u32>, va: u32, p: u32)
    requires va / MB < |words| && words[va / MB] == p
    ensures p % 4 == 0 ==> Walk(base, words, va) == Fault
    ensures p % 4 == 2 ==> Walk(base, words, va).Mapped?
    ensures p % 4 in {1, 3} ==> Walk(base, words, va) == Walk2(p / 0x20 % 0x10, SecondWord(base, words, p, va), va)
    ensures var second := SecondWord(base, words, p, va);
            Walk(base, words, va) == Fault <==> p % 4 == 0 || (p % 4 in {1, 3} && second >= 0 && second % 4 == 0)
  {
    hide Walk2;
    Walk2Faults(p / 0x20 % 0x10, SecondWord(base, words, p, va), va);
  }

  /** The end of what the level-2 rules have filled. */
  function Reached(rules: seq<Rule>): nat {
    if |rules| == 0 then 0 else End(rules[|rules| - 1])
  }

  /** Megabytes a and b have tables of the same kind. */
  ghost predicate SameKind(cells: seq<Cell>, a: nat, b: nat) {
    a < |cells| && b < |cells| && cells[a].Table() && cells[b].Table() && (cells[a].Fine? <==> cells[b].Fine?)
  }

  /** A level-2 rule stays in tables of one kind, ends before the top page, and has tiny pages only in fine tables. */
  ghost predicate Fits(cells: seq<Cell>, r: Rule) {
    && r.Sensible() && r.entrytype in {L, S, T} && End(r) < TOP
    && r.v_base % PageSize(r.entrytype) == 0 && r.p_base % PageSize(r.entrytype) == 0
    && |cells| == 0x1000
    && (forall mb :: r.v_base / MB <= mb <= (End(r) - 1) / MB ==> SameKind(cells, r.v_base / MB, mb))
    && (r.entrytype.T? ==> cells[r.v_base / MB].Fine?)
  }

  /** After everything below v has been filled, the next rule goes on at w: in the same table, or at the next one. */
  ghost predicate Follows(cells: seq<Cell>, v: nat, w: nat)
    requires |cells| == 0x1000
  {
    && v <= w < TOP
    && (v % MB != 0 ==> w == v)
    && (v % MB == 0 ==> w % MB == 0 && forall mb {:trigger cells[mb]} :: v / MB <= mb < w / MB ==> !cells[mb].Table())
  }

  /** The level-2 rules fill the tables one after the other, each from its start on. */
  ghost predicate Tiles(cells: seq<Cell>, rules: seq<Rule>) {
    |cells| == 0x1000 &&
    (|rules| == 0 ||
     (Tiles(cells, rules[..|rules| - 1]) && Fits(cells, rules[|rules| - 1])
      && Follows(cells, Reached(rules[..|rules| - 1]), rules[|rules| - 1].v_base)))
  }

  /** Size of level 2 when everything below v has been filled. */
  ghost function Cursor(cells: seq<Cell>, v: nat): nat
    requires v / MB < |cells|
  {
    if v % MB == 0 then TableOff(cells[..v / MB])
    else TableStart(cells, v / MB) + v % MB / Gran(cells[v / MB]) * 4
  }

  /** level2_previous_region tells whether the last entry went into a fine table. */
  ghost predicate PrevOk(cells: seq<Cell>, v: nat, prev: bool)
    requires v / MB < |cells|
  {
    && (v % MB != 0 ==> cells[v / MB].Table() && (prev <==> cells[v / MB].Fine?))
    && (v % MB == 0 && prev ==> TableOff(cells[..v / MB]) % 0x1000 == 0)
  }

  /** Level-2 size after the padding in front of fine tables. */
  function Padded(size: nat, fine: bool, prev: bool): nat {
    if fine && !prev then Up(size) else size
  }

  lemma UpFixed(n: nat)
    requires n % 0x1000 == 0
    ensures Up(n) == n
  {
  }

  lemma InBytes(start: nat, i: nat)
    requires start % 0x400 == 0
    ensures 4 * (0x1000 + start / 4 + i) == 0x4000 + start + i * 4
  {
    var q, _ := DivDef(start, 0x400);
    Div(q * 0x100, 0, 4);
  }

  lemma SlotInBytes(cells: seq<Cell>, va: nat)
    requires va / MB < |cells|
    ensures 4 * Slot(cells, va) == 0x4000 + TableStart(cells, va / MB) + va % MB / Gran(cells[va / MB]) * 4
  {
    hide TableStart, Gran;
    InBytes(TableStart(cells, va / MB), va % MB / Gran(cells[va / MB]));
  }

  /** The padding puts a rule exactly at the slot that level 1 has promised. */
  lemma BeginsAtSlot(cells: seq<Cell>, v: nat, w: nat, prev: bool)
    requires |cells| == 0x1000 && Follows(cells, v, w) && PrevOk(cells, v, prev) && cells[w / MB].Table()
    ensures 0x4000 + Padded(Cursor(cells, v), cells[w / MB].Fine?, prev) == 4 * Slot(cells, w)
  {
    hide Up, TableOff, Slot, Gran;
    SlotInBytes(cells, w);
    if v % MB == 0 {
      AtStart(w, Gran(cells[w / MB]));
      TableOffFlat(cells, v / MB, w / MB);
      if prev {
        UpFixed(TableOff(cells[..v / MB]));
      }
    }
  }

  lemma AtStart(w: nat, gran: nat)
    requires w % MB == 0 && gran > 0
    ensures w % MB / gran == 0
  {
  }

  /** Tables of one kind in a row leave no gap. */
  lemma {:induction false} TablesInARow(cells: seq<Cell>, a: nat, b: nat)
    requires a <= b < |cells| && forall mb :: a <= mb <= b ==> SameKind(cells, a, mb)
    ensures TableStart(cells, b) / 4 == TableStart(cells, a) / 4 + (b - a) * TableWords(cells[a])
  {
    if a < b {
      TablesInARow(cells, a, b - 1);
      hide Up, TableOff;
      assert SameKind(cells, a, b) && SameKind(cells, a, b - 1);
      NextTable(cells, b - 1);
      hide TableStart;
      OneMore(b - a, TableWords(cells[a]));
    }
  }

  lemma NextTable(cells: seq<Cell>, b: nat)
    requires b + 1 < |cells| && SameKind(cells, b, b + 1)
    ensures TableStart(cells, b + 1) == TableStart(cells, b) + TableWords(cells[b]) * 4
  {
    hide Up, TableOff;
    TableOffNext(cells, b);
    if cells[b].Fine? {
      UpFixed(TableOff(cells[..b + 1]));
    }
  }

  lemma OneMore(k: int, n: int)
    ensures k * n == (k - 1) * n + n
  {
  }

  /** Entries of one rule are neighbours. */
  lemma SlotsInARow(cells: seq<Cell>, v: nat, w: nat)
    requires v <= w && w / MB < |cells| && forall mb :: v / MB <= mb <= w / MB ==> SameKind(cells, v / MB, mb)
    requires v % Gran(cells[v / MB]) == 0
    ensures Slot(cells, w) == Slot(cells, v) + (w - v) / Gran(cells[v / MB])
  {
    hide TableStart;
    TablesInARow(cells, v / MB, w / MB);
    assert SameKind(cells, v / MB, w / MB);
    GranSteps(v, w, Gran(cells[v / MB]), TableWords(cells[v / MB]));
  }

  lemma EntryNumber(v: nat, gran: nat, n: nat)
    requires gran > 0 && gran * n == MB
    ensures v / gran == v / MB * n + v % MB / gran
  {
    var a, x := DivDef(v, MB);
    var xd, xr := DivDef(x, gran);
    assert v == (a * n + xd) * gran + xr by {
      Distribute(a, n, xd, gran);
    }
    Div(a * n + xd, xr, gran);
  }

  lemma StepsAt(a: int, b: int, y: int, gran: int)
    requires 0 <= y < gran
    ensures (b * gran + y - a * gran) / gran == b - a
  {
    Difference(b, a, gran);
    Div(b - a, y, gran);
  }

  lemma Steps(v: nat, w: nat, gran: nat)
    requires v <= w && gran > 0 && v % gran == 0
    ensures (w - v) / gran == w / gran - v / gran
  {
    var a, x := DivDef(v, gran);
    var b, y := DivDef(w, gran);
    StepsAt(a, b, y, gran);
  }

  lemma OneStep(d: int, gran: int)
    requires gran > 0
    ensures (d + gran) / gran == d / gran + 1
  {
    var q, r := d / gran, d % gran;
    assert d == q * gran + r;
    Difference(q + 1, 1, gran);
    Div(q + 1, r, gran);
  }

  lemma GranSteps(v: nat, w: nat, gran: nat, n: nat)
    requires v <= w && gran > 0 && v % gran == 0 && gran * n == MB
    ensures (w / MB - v / MB) * n + w % MB / gran == v % MB / gran + (w - v) / gran
  {
    EntryNumber(v, gran, n);
    EntryNumber(w, gran, n);
    Steps(v, w, gran);
    Difference(w / MB, v / MB, n);
  }

  lemma Difference(a: int, b: int, k: int)
    ensures (a - b) * k == a * k - b * k
  {
  }

  lemma EndInPages(r: Rule) returns (a: nat, k: nat)
    requires r.v_base < r.v_end && r.v_base % PageSize(r.entrytype) == 0
    ensures r.v_base == a * PageSize(r.entrytype) && End(r) == (a + k) * PageSize(r.entrytype) && r.v_base < End(r)
  {
    var page := PageSize(r.entrytype);
    var rest;
    a, rest := DivDef(r.v_base, page);
    k := (r.v_end - r.v_base + page - 1) / page;
    Distribute(a, 1, k, page);
  }

  lemma EndIsAligned(cells: seq<Cell>, r: Rule)
    requires Fits(cells, r)
    ensures var gran := Gran(cells[r.v_base / MB]);
            r.v_base < End(r) && End(r) % gran == 0 && r.v_base % gran == 0 && PageSize(r.entrytype) % gran == 0
  {
    assert SameKind(cells, r.v_base / MB, r.v_base / MB);
    var a, k := EndInPages(r);
    hide End;
    Multiples(a, PageSize(r.entrytype));
    Multiples(a + k, PageSize(r.entrytype));
  }

  lemma Multiples(k: nat, page: nat)
    requires page == 0x1_0000 || page == 0x1000 || page == 0x400
    ensures k * page % 0x400 == 0 && (page != 0x400 ==> k * page % 0x1000 == 0)
  {
    if page == 0x1_0000 {
      Div(k * 0x40, 0, 0x400);
      Div(k * 0x10, 0, 0x1000);
    } else if page == 0x1000 {
      Div(k * 4, 0, 0x400);
      Div(k, 0, 0x1000);
    } else {
      Div(k, 0, 0x400);
    }
  }

  lemma LastEntry(e: nat, gran: nat)
    requires e % MB == 0 && e > 0 && (gran == 0x400 || gran == 0x1000)
    ensures e >= MB && (e - gran) / MB == e / MB - 1 && (e - gran) % MB / gran == MB / gran - 1 && (e - 1) / MB == e / MB - 1
    ensures (e - gran) % gran == 0
  {
    var a, _ := DivDef(e, MB);
    Div(a - 1, MB - gran, MB);
    Div(a - 1, MB - 1, MB);
    if gran == 0x400 {
      Div(a * 0x400 - 1, 0, 0x400);
    } else {
      Div(a * 0x100 - 1, 0, 0x1000);
    }
  }

  /** Where level 2 ends behind a rule, and that its last region is known. */
  lemma EndsAtCursor(cells: seq<Cell>, r: Rule)
    requires Fits(cells, r)
    ensures var gran := Gran(cells[r.v_base / MB]);
            r.v_base < End(r) && End(r) / MB < 0x1000
            && 0x4000 + Cursor(cells, End(r)) == 4 * (Slot(cells, r.v_base) + (End(r) - r.v_base) / gran)
    ensures PrevOk(cells, End(r), cells[r.v_base / MB].Fine?)
  {
    EndIsAligned(cells, r);
    if End(r) % MB != 0 {
      EndsInTable(cells, r.v_base, End(r));
    } else {
      EndsWithTable(cells, r.v_base, End(r));
    }
  }

  lemma EndsInTable(cells: seq<Cell>, v: nat, e: nat)
    requires v < e < TOP && e % MB != 0 && |cells| == 0x1000 && v % Gran(cells[v / MB]) == 0
    requires forall mb :: v / MB <= mb <= (e - 1) / MB ==> SameKind(cells, v / MB, mb)
    ensures 0x4000 + Cursor(cells, e) == 4 * (Slot(cells, v) + (e - v) / Gran(cells[v / MB]))
    ensures PrevOk(cells, e, cells[v / MB].Fine?)
  {
    hide TableStart, TableOff, Up, TableWords, Gran;
    assert e / MB == (e - 1) / MB;
    SlotsInARow(cells, v, e);
    assert SameKind(cells, v / MB, e / MB);
    hide Slot;
    CursorInTable(cells, e);
  }

  lemma CursorInTable(cells: seq<Cell>, e: nat)
    requires e / MB < |cells| && e % MB != 0
    ensures 0x4000 + Cursor(cells, e) == 4 * Slot(cells, e)
  {
    hide TableOff, Up, TableWords, Gran, Slot;
    SlotInBytes(cells, e);
  }

  lemma CursorAfterTable(cells: seq<Cell>, e: nat, gran: nat)
    requires e / MB < |cells| && e % MB == 0 && e > 0 && cells[e / MB - 1].Table() && gran == Gran(cells[e / MB - 1])
    ensures gran <= e && (e - gran) / MB == e / MB - 1 && 0x4000 + Cursor(cells, e) == 4 * (Slot(cells, e - gran) + 1)
    ensures PrevOk(cells, e, cells[e / MB - 1].Fine?)
  {
    var mb := e / MB - 1;
    LastEntry(e, gran);
    TableOffNext(cells, mb);
    hide TableStart, TableOff, Up;
    var n, start := TableWords(cells[mb]), TableStart(cells, mb);
    assert Slot(cells, e - gran) == 0x1000 + start / 4 + (n - 1);
    assert Cursor(cells, e) == start + n * 4;
    assert PrevOk(cells, e, cells[mb].Fine?);
    hide Slot, TableWords, Cursor, Gran;
    InWords(start, n);
  }

  lemma InWords(start: nat, n: nat)
    requires start % 0x400 == 0
    ensures 0x4000 + (start + n * 4) == 4 * (0x1000 + start / 4 + (n - 1) + 1)
  {
    InBytes(start, n);
  }

  lemma SlotBehindLast(cells: seq<Cell>, v: nat, e: nat, gran: nat)
    requires e < TOP && |cells| == 0x1000 && v / MB < 0x1000 && gran == Gran(cells[v / MB]) && v % gran == 0
    requires v <= e - gran && (e - gran) / MB == (e - 1) / MB
    requires forall mb :: v / MB <= mb <= (e - 1) / MB ==> SameKind(cells, v / MB, mb)
    ensures Slot(cells, e - gran) + 1 == Slot(cells, v) + (e - v) / gran
  {
    hide Slot, Gran, SameKind;
    SlotsInARow(cells, v, e - gran);
    OneStep(e - gran - v, gran);
  }

  lemma EndsWithTable(cells: seq<Cell>, v: nat, e: nat)
    requires v < e < TOP && e % MB == 0 && |cells| == 0x1000 && v % Gran(cells[v / MB]) == 0 && e % Gran(cells[v / MB]) == 0
    requires forall mb :: v / MB <= mb <= (e - 1) / MB ==> SameKind(cells, v / MB, mb)
    ensures 0x4000 + Cursor(cells, e) == 4 * (Slot(cells, v) + (e - v) / Gran(cells[v / MB]))
    ensures PrevOk(cells, e, cells[v / MB].Fine?)
  {
    var gran := Gran(cells[v / MB]);
    LastEntry(e, gran);
    AtLeastOne(v, e, gran);
    assert SameKind(cells, v / MB, (e - 1) / MB);
    CursorAfterTable(cells, e, gran);
    hide Cursor, TableStart, TableOff, Up, Slot, PrevOk;
    SlotBehindLast(cells, v, e, gran);
  }

  lemma AtLeastOne(v: nat, e: nat, gran: nat)
    requires v < e && (gran == 0x400 || gran == 0x1000) && v % gran == 0 && e % gran == 0
    ensures v <= e - gran
  {
  }

  /** Everything a rule covers has its descriptor in its slot. */
  ghost predicate Filled(cells: seq<Cell>, r: Rule, words: seq<u32>)
    requires |cells| == 0x1000 && End(r) < TOP && |r.access| == 4
  {
    forall va: nat :: r.v_base <= va < End(r) ==> Slot(cells, va) < |words| && words[Slot(cells, va)] == Descriptor(r, va)
  }

  /** The entries a rule writes: n for each page. */
  ghost function PageWords(r: Rule, n: nat, count: nat): (s: seq<u32>)
    requires |r.access| == 4 && n > 0
    ensures |s| == count
  {
    seq(count, q requires 0 <= q < count => Descriptor(r, r.v_base + q / n * PageSize(r.entrytype)))
  }

  /** The number of equal entries for one page. */
  function Copies(t: EntryType, fine: bool): (n: nat)
    ensures n > 0
  {
    match t
    case L => if fine then 64 else 16
    case S => if fine then 4 else 1
    case _ => 1
  }

  lemma CopiesFillPage(cells: seq<Cell>, r: Rule) returns (n: nat, gran: nat, page: nat)
    requires Fits(cells, r)
    ensures n == Copies(r.entrytype, cells[r.v_base / MB].Fine?) > 0 && gran == Gran(cells[r.v_base / MB]) > 0
    ensures page == PageSize(r.entrytype) == n * gran
  {
    var c := cells[r.v_base / MB];
    assert SameKind(cells, r.v_base / MB, r.v_base / MB);
    n, gran, page := Copies(r.entrytype, c.Fine?), Gran(c), PageSize(r.entrytype);
  }

  lemma InPage(off: nat, gran: nat, n: nat, page: nat)
    requires gran > 0 && n > 0 && page == n * gran
    ensures off / gran / n == off / page
  {
    var q, x := DivDef(off, gran);
    var p, y := DivDef(q, n);
    assert off == p * page + (y * gran + x) by {
      Distribute(p, n, y, gran);
    }
    MulMono(y + 1, n, gran);
    Distribute(y, 1, 1, gran);
    Div(p, y * gran + x, page);
  }

  lemma SameDescriptor(r: Rule, va: nat)
    requires |r.access| == 4 && r.v_base <= va
    ensures Descriptor(r, r.v_base + (va - r.v_base) / PageSize(r.entrytype) * PageSize(r.entrytype)) == Descriptor(r, va)
  {
    hide Or, PageFields;
    Div((va - r.v_base) / PageSize(r.entrytype), 0, PageSize(r.entrytype));
  }

  lemma DivBelow(a: nat, b: nat, gran: nat)
    requires gran > 0 && a < b && b % gran == 0
    ensures a / gran < b / gran
  {
    var q, x := DivDef(a, gran);
    var p, y := DivDef(b, gran);
    if p <= q {
      MulMono(p, q, gran);
    }
  }

  lemma RuleEntry(cells: seq<Cell>, r: Rule, va: nat)
    requires Fits(cells, r) && r.v_base <= va < End(r)
    ensures var gran := Gran(cells[r.v_base / MB]);
            Slot(cells, va) == Slot(cells, r.v_base) + (va - r.v_base) / gran
            && (va - r.v_base) / gran < (End(r) - r.v_base) / gran
  {
    var gran := Gran(cells[r.v_base / MB]);
    EndIsAligned(cells, r);
    hide Slot, End;
    assert va / MB <= (End(r) - 1) / MB;
    SlotsInARow(cells, r.v_base, va);
    Steps(r.v_base, End(r), gran);
    EndOffset(r.v_base, End(r), gran);
    DivBelow(va - r.v_base, End(r) - r.v_base, gran);
  }

  lemma EndOffset(a: nat, b: nat, gran: nat)
    requires gran > 0 && a <= b && a % gran == 0 && b % gran == 0
    ensures (b - a) % gran == 0
  {
    var p, _ := DivDef(a, gran);
    var q, _ := DivDef(b, gran);
    StepsAt(p, q, 0, gran);
    Difference(q, p, gran);
    Div(q - p, 0, gran);
  }

  /** The entries of a rule, from its slot on. */
  ghost function RuleWords(cells: seq<Cell>, r: Rule): (s: seq<u32>)
    requires r.v_base / MB < |cells| && |r.access| == 4 && r.v_base <= End(r)
  {
    var c := cells[r.v_base / MB];
    PageWords(r, Copies(r.entrytype, c.Fine?), (End(r) - r.v_base) / Gran(c))
  }

  lemma EntryOf(r: Rule, va: nat, n: nat, gran: nat, count: nat)
    requires |r.access| == 4 && r.v_base <= va && n > 0 && gran > 0 && PageSize(r.entrytype) == n * gran
    requires (va - r.v_base) / gran < count
    ensures PageWords(r, n, count)[(va - r.v_base) / gran] == Descriptor(r, va)
  {
    hide Descriptor, PageSize;
    InPage(va - r.v_base, gran, n, PageSize(r.entrytype));
    SameDescriptor(r, va);
  }

  lemma FitsFacts(cells: seq<Cell>, r: Rule)
    requires Fits(cells, r)
    ensures r.Sensible() && End(r) < TOP && |cells| == 0x1000
  {
  }

  lemma RuleWordOf(cells: seq<Cell>, r: Rule, va: nat) returns (q: nat)
    requires Fits(cells, r) && r.v_base <= va < End(r)
    ensures Slot(cells, va) == Slot(cells, r.v_base) + q && q < |RuleWords(cells, r)|
    ensures RuleWords(cells, r)[q] == Descriptor(r, va)
  {
    hide Slot, Descriptor, End, PageSize, Gran, Copies, PageWords, Fits;
    FitsFacts(cells, r);
    var n, gran, page := CopiesFillPage(cells, r);
    RuleEntry(cells, r, va);
    q := (va - r.v_base) / gran;
    EntryOf(r, va, n, gran, (End(r) - r.v_base) / gran);
  }

  /** Writing the entries of a rule from its slot on fills everything it covers. */
  lemma FilledBy(cells: seq<Cell>, r: Rule, before: seq<u32>)
    requires Fits(cells, r) && r.v_base <= End(r) && |before| == Slot(cells, r.v_base)
    ensures Filled(cells, r, before + RuleWords(cells, r))
  {
    hide Slot, Descriptor, RuleWords, End;
    forall va: nat | r.v_base <= va < End(r)
      ensures Slot(cells, va) < |before + RuleWords(cells, r)|
      ensures (before + RuleWords(cells, r))[Slot(cells, va)] == Descriptor(r, va)
    {
      var q := RuleWordOf(cells, r, va);
    }
  }

  lemma FilledOn(cells: seq<Cell>, r: Rule, words: seq<u32>, words': seq<u32>)
    requires |cells| == 0x1000 && End(r) < TOP && |r.access| == 4
    requires Filled(cells, r, words) && words <= words'
    ensures Filled(cells, r, words')
  {
    hide Slot, Descriptor;
  }

  /** Pages are found by the walk as their rules say, with the domain that level 1 gives to their megabyte. */
  lemma Level2Meaning(base: nat, cells: seq<Cell>, words: seq<u32>, r: Rule, va: u32)
    requires Laid(base, cells, words) && AllSensible(cells) && base % 0x1000 == 0
    requires Fits(cells, r) && Filled(cells, r, words) && r.v_base <= va < End(r)
    ensures va / MB < |cells| && cells[va / MB].Table() && Walk(base, words, va) == Promise(r, cells[va / MB].domain, va)
  {
    hide Walk, Walk2, Laid, Slot, Descriptor, Promise, End;
    assert va / MB <= (End(r) - 1) / MB;
    assert SameKind(cells, r.v_base / MB, va / MB);
    WalkTable(base, cells, words, va);
    DescriptorDecoded(r, cells[va / MB].domain, va);
  }

  /** Level 2 stays within the room that level 1 has reckoned with. */
  lemma CursorBound(cells: seq<Cell>, v: nat)
    requires v / MB < |cells| && (v % MB != 0 ==> cells[v / MB].Table())
    ensures Cursor(cells, v) <= TableOff(cells)
  {
    hide TableOff, TableStart;
    assert cells[..|cells|] == cells;
    var mb := v / MB;
    TableOffGrows(cells, mb, |cells|);
    TableOffGrows(cells, mb + 1, |cells|);
    if v % MB != 0 {
      CursorInMegabyte(cells, v);
    }
  }

  lemma CursorInMegabyte(cells: seq<Cell>, v: nat)
    requires v / MB < |cells| && v % MB != 0 && cells[v / MB].Table()
    ensures Cursor(cells, v) <= TableOff(cells[..v / MB + 1])
  {
    TableOffNext(cells, v / MB);
    hide TableOff, TableStart;
  }

  /** n equal entries. */
  ghost function Rep(w: u32, n: nat): (s: seq<u32>)
    ensures |s| == n && forall q :: 0 <= q < n ==> s[q] == w
  {
    seq(n, _ => w)
  }

  /** The number of pages of a rule. */
  function Pages(r: Rule): nat
    requires r.v_base < r.v_end
  {
    (r.v_end - r.v_base + PageSize(r.entrytype) - 1) / PageSize(r.entrytype)
  }

  /** The physical address of the m-th page of a rule. */
  ghost function PagePa(r: Rule, m: nat): u32 {
    (r.p_base + m * PageSize(r.entrytype)) % TOP
  }

  lemma ModAdd(x: nat, y: nat)
    ensures (x + y) % TOP == (x % TOP + y) % TOP
  {
  }

  lemma PagePaNext(r: Rule, m: nat)
    ensures PagePa(r, 0) == r.p_base && PagePa(r, m + 1) == (PagePa(r, m) + PageSize(r.entrytype)) % TOP
  {
    var page := PageSize(r.entrytype);
    assert (m + 1) * page == m * page + page;
    ModAdd(r.p_base + m * page, page);
  }

  lemma PageDescriptor(r: Rule, m: nat)
    requires |r.access| == 4
    ensures Descriptor(r, r.v_base + m * PageSize(r.entrytype)) == Or(PagePa(r, m), PageFields(r))
  {
    hide Or, PageFields;
    Div(m, 0, PageSize(r.entrytype));
  }

  lemma EntryInPage(r: Rule, n: nat, m: nat, x: nat, q: nat)
    requires |r.access| == 4 && x < n && q == m * n + x
    ensures Descriptor(r, r.v_base + q / n * PageSize(r.entrytype)) == Or(PagePa(r, m), PageFields(r))
  {
    hide Or, PageFields, PagePa, Descriptor, PageSize;
    Div(m, x, n);
    PageDescriptor(r, m);
  }

  /** The entries of one more page. */
  lemma PageWordsOn(r: Rule, n: nat, m: nat, t: nat)
    requires |r.access| == 4 && n > 0 && t == m * n
    ensures PageWords(r, n, t) + Rep(Or(PagePa(r, m), PageFields(r)), n) == PageWords(r, n, t + n)
  {
    hide Or, PageFields, PagePa, Descriptor, PageSize;
    var s := PageWords(r, n, t + n);
    forall q | t <= q < t + n
      ensures s[q] == Or(PagePa(r, m), PageFields(r))
    {
      EntryInPage(r, n, m, q - t, q);
    }
  }

  /** There are pages left exactly as long as the end is not reached. */
  lemma MorePages(r: Rule, m: nat)
    requires r.v_base < r.v_end
    ensures r.v_base + m * PageSize(r.entrytype) < r.v_end <==> m < Pages(r)
    ensures End(r) == r.v_base + Pages(r) * PageSize(r.entrytype)
  {
  }

  lemma RuleWordsInPages(cells: seq<Cell>, r: Rule)
    requires Fits(cells, r)
    ensures r.v_base <= End(r)
    ensures var n := Copies(r.entrytype, cells[r.v_base / MB].Fine?);
            RuleWords(cells, r) == PageWords(r, n, Pages(r) * n)
  {
    var n, gran, page := CopiesFillPage(cells, r);
    MorePages(r, 0);
    var k := Pages(r);
    hide Pages, PageSize, End;
    assert k * page == k * n * gran by {
      MulAssoc(k, n, gran);
    }
    Div(k * n, 0, gran);
  }

  lemma MulAssoc(a: nat, b: nat, c: nat)
    ensures a * (b * c) == a * b * c
  {
  }

  /** In 32 bits the loop over the pages of a rule comes to an end exactly if the rule does not reach into the top page. */
  lemma PageLoopEnds(r: Rule)
    requires r.v_base < r.v_end && r.v_base % PageSize(r.entrytype) == 0
    ensures (exists m: nat :: (r.v_base + m * PageSize(r.entrytype)) % TOP >= r.v_end)
       <==> r.v_end <= TOP - PageSize(r.entrytype)
  {
    var page := PageSize(r.entrytype);
    if r.v_end <= TOP - page {
      MorePages(r, Pages(r));
      assert (r.v_base + Pages(r) * page) % TOP >= r.v_end;
    } else {
      forall m: nat
        ensures (r.v_base + m * page) % TOP < r.v_end
      {
        var a, _ := DivDef(r.v_base, page);
        var q := PageAddress(a, m * page, page);
        Div(m, 0, page);
      }
    }
  }

  /** The number of entries a rule needs. */
  ghost function EntryCount(r: Rule, fine: bool): nat
    requires r.v_base < r.v_end
  {
    Pages(r) * Copies(r.entrytype, fine)
  }

  /** The words for a rule that goes on behind v fit into the memory that level 1 has reckoned with. */
  lemma RoomForRule(cells: seq<Cell>, r: Rule, v: nat, prev: bool, size: nat)
    requires Fits(cells, r) && v / MB < 0x1000 && Follows(cells, v, r.v_base) && PrevOk(cells, v, prev)
    requires 0x4000 + TableOff(cells) <= 4 * size
    ensures r.v_base / MB < 0x1000 && r.v_base % 0x400 == 0 && r.v_base <= End(r) < TOP && r.Sensible()
    ensures var fine := cells[r.v_base / MB].Fine?;
            0x4000 + Padded(Cursor(cells, v), fine, prev) == 4 * Slot(cells, r.v_base)
            && Slot(cells, r.v_base) + EntryCount(r, fine) <= size
            && RuleWords(cells, r) == PageWords(r, Copies(r.entrytype, fine), EntryCount(r, fine))
            && 0x4000 + Cursor(cells, End(r)) == 4 * (Slot(cells, r.v_base) + EntryCount(r, fine))
            && PrevOk(cells, End(r), fine)
  {
    assert SameKind(cells, r.v_base / MB, r.v_base / MB);
    PageIsAligned(r);
    BeginsAtSlot(cells, v, r.v_base, prev);
    EndsAtCursor(cells, r);
    CursorBound(cells, End(r));
    RuleWordsInPages(cells, r);
    hide Fits, Follows, PrevOk, TableOff, Cursor, Slot, Padded, Pages, End;
    RuleWordCount(cells, r);
  }

  lemma RuleWordCount(cells: seq<Cell>, r: Rule)
    requires r.v_base / MB < |cells| && |r.access| == 4 && r.v_base <= End(r)
    ensures |RuleWords(cells, r)| == (End(r) - r.v_base) / Gran(cells[r.v_base / MB])
  {
  }

  lemma PageIsAligned(r: Rule)
    requires r.v_base % PageSize(r.entrytype) == 0
    ensures r.v_base % 0x400 == 0
  {
    var a, _ := DivDef(r.v_base, PageSize(r.entrytype));
    Multiples(a, PageSize(r.entrytype));
  }

  /** 32-bit addition. */
  function Add32(x: u32, y: u32): u32 {
    (x + y) % TOP
  }

  /** m pages of a rule have been written, as t entries of total; i and physical belong to the next page. */
  ghost predicate Progress(r: Rule, n: nat, m: nat, t: nat, total: nat, i: nat, physical: nat)
    requires r.v_base < r.v_end
  {
    && m <= Pages(r) && i == r.v_base + m * PageSize(r.entrytype) && physical == PagePa(r, m)
    && t == m * n && total == Pages(r) * n
  }

  lemma ProgressStarts(r: Rule, fine: bool)
    requires r.v_base < r.v_end
    ensures Progress(r, Copies(r.entrytype, fine), 0, 0, EntryCount(r, fine), r.v_base, r.p_base)
  {
    PagePaNext(r, 0);
    hide PagePa, Pages;
  }

  lemma PageStep(m: nat, k: nat, n: nat)
    requires m < k
    ensures (m + 1) * n == m * n + n <= k * n
  {
    MulMono(m + 1, k, n);
  }

  lemma ProgressGoesOn(r: Rule, n: nat, m: nat, t: nat, total: nat, i: u32, physical: u32)
    requires r.v_base < r.v_end && End(r) < TOP && Progress(r, n, m, t, total, i, physical) && i < r.v_end
    ensures m < Pages(r) && t + n <= total
    ensures Progress(r, n, m + 1, t + n, total, Add32(i, PageSize(r.entrytype)), Add32(physical, PageSize(r.entrytype)))
  {
    hide PagePa, Pages, PageSize, End;
    MorePages(r, m);
    PageStep(m, Pages(r), PageSize(r.entrytype));
    PageStep(m, Pages(r), n);
    PagePaNext(r, m);
  }

  lemma ProgressEnds(r: Rule, n: nat, m: nat, t: nat, total: nat, i: nat, physical: nat)
    requires r.v_base < r.v_end && Progress(r, n, m, t, total, i, physical) && i >= r.v_end
    ensures t == total
  {
    MorePages(r, m);
  }

  lemma ProgressPage(r: Rule, n: nat, m: nat, t: nat, total: nat, i: nat, physical: u32)
    requires |r.access| == 4 && n > 0 && r.v_base < r.v_end && Progress(r, n, m, t, total, i, physical)
    ensures PageWords(r, n, t) + Rep(Or(physical, PageFields(r)), n) == PageWords(r, n, t + n)
  {
    PageWordsOn(r, n, m, t);
  }
}
