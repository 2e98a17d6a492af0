/** The generator of the level-1 and level-2 tables (cpu/mmugen.c, cpu/armv7/mmugen.c). */
module MmuGen {
  import opened Arithmetic
  import opened Words
  import opened MmuFormat
  import opened MmuRules
  import opened MmuLayout
  import opened MmuTables

  datatype Region = Region(start: u32, end: u32)

  /** A level-2 page is in a fine table exactly if its megabyte has one. */
  ghost predicate Recognised(regions: seq<Region>, cells: seq<Cell>) {
    forall v: nat {:trigger InRegions(regions, v)} ::
      v < TOP && v % 0x400 == 0 ==> (InRegions(regions, v) <==> v / MB < |cells| && cells[v / MB].Fine?)
  }

  ghost predicate InRegions(regions: seq<Region>, v: nat) {
    exists i :: 0 <= i < |regions| && regions[i].start <= v < regions[i].end
  }

  lemma RegionAdded(regions: seq<Region>, cells: seq<Cell>, r: Rule)
    requires Recognised(regions, cells) && r.entrytype.I? && Level1Rule(r, |cells|)
    ensures Recognised(regions + [Region(r.v_base, r.v_end)], cells + CellsOf(r, CellCount(r)))
  {
    var regions', cells' := regions + [Region(r.v_base, r.v_end)], cells + CellsOf(r, CellCount(r));
    forall v: nat | v < TOP && v % 0x400 == 0
      ensures InRegions(regions', v) <==> v / MB < |cells'| && cells'[v / MB].Fine?
    {
      assert regions'[|regions|] == Region(r.v_base, r.v_end);
      assert InRegions(regions', v) <==> InRegions(regions, v) || r.v_base <= v < r.v_end by {
        if InRegions(regions, v) {
          var i :| 0 <= i < |regions| && regions[i].start <= v < regions[i].end;
          assert regions'[i] == regions[i];
        }
      }
      InFineMegabyte(|cells|, v, r.v_end - r.v_base);
    }
  }

  lemma InFineMegabyte(mb: nat, v: nat, size: nat)
    requires v % 0x400 == 0 && (size == MB || size == MB - 1)
    ensures mb * MB <= v < mb * MB + size <==> v / MB == mb
  {
    var a, x := DivDef(v, MB);
    var b, y := DivDef(x, 0x400);
    Div(a * 0x400 + b, y, 0x400);
  }

  lemma NoRegionAdded(regions: seq<Region>, cells: seq<Cell>, r: Rule)
    requires Recognised(regions, cells) && r.entrytype in {S, F, C} && Level1Rule(r, |cells|)
    ensures Recognised(regions, cells + CellsOf(r, CellCount(r)))
  {
  }

  class Generator {
    const base_address: u32
    /** The memory at base_address. */
    const words: array<u32>
    const Fine_Page_Region: array<Region>
    var Total_Fine_Pages: nat
    var MMUTableIndex: nat
    var table_entry: nat
    var state: nat
    var level2_base_address: u32
    var level2_page_size: nat
    var level2_previous_region: nat
    var level2_current_region: nat

    /** The state in which the first call of mmugen finds its variables after it has read BASE_ADDRESS. */
    constructor (base_address: u32, words: array<u32>)
      requires base_address % 0x4000 == 0 && base_address + 4 * words.Length < TOP && words.Length >= 0x1000
      ensures this.base_address == base_address && this.words == words
      ensures fresh(Fine_Page_Region) && Level1State([]) && Recognised(Regions(), []) && Total_Fine_Pages == 0
      ensures level2_page_size == 0 && level2_previous_region == 0
    {
      this.base_address, this.words := base_address, words;
      level2_base_address := base_address + 0x4000;
      Fine_Page_Region := new Region[128](_ => Region(0, 0));
      Total_Fine_Pages, MMUTableIndex, table_entry, state := 0, 0, 0, 0;
      level2_page_size, level2_previous_region, level2_current_region := 0, 0, 0;
    }

    ghost predicate Valid()
      reads this`MMUTableIndex, this`Total_Fine_Pages
    {
      && MMUTableIndex <= words.Length && Total_Fine_Pages <= Fine_Page_Region.Length == 128
      && base_address % 0x4000 == 0 && base_address + 4 * words.Length < TOP && words.Length >= 0x1000
    }

    /** The words written so far. */
    ghost function Out(): seq<u32>
      requires Valid()
      reads this`MMUTableIndex, this`Total_Fine_Pages, words
    {
      words[..MMUTableIndex]
    }

    ghost function Regions(): seq<Region>
      requires Valid()
      reads this`MMUTableIndex, this`Total_Fine_Pages, Fine_Page_Region
    {
      Fine_Page_Region[..Total_Fine_Pages]
    }

    /** The tables announced so far have room in memory. */
    ghost predicate HasRoom(cells: seq<Cell>) {
      |cells| <= 0x1000 && 0x4000 + TableOff(cells) <= 4 * words.Length
    }

    /** While level 1 is written, one word per megabyte. */
    ghost predicate Level1State(cells: seq<Cell>)
      reads this`MMUTableIndex, this`Total_Fine_Pages, this`table_entry, this`level2_base_address, words
    {
      && Valid() && HasRoom(cells)
      && |Out()| == table_entry == |cells| && Laid(base_address, cells, Out())
      && level2_base_address == base_address + 0x4000 + TableOff(cells)
    }

    method Emit(w: u32)
      requires Valid() && MMUTableIndex < words.Length
      modifies this`MMUTableIndex, words
      ensures Valid() && Out() == old(Out()) + [w]
    {
      words[MMUTableIndex] := w;
      MMUTableIndex := MMUTableIndex + 1;
    }

    /** CheckIsFinePage */
    method CheckIsFinePage(taddress: u32) returns (r: bool)
      requires Valid()
      ensures r <==> InRegions(Regions(), taddress)
    {
      var i := 0;
      while i < Total_Fine_Pages
        invariant 0 <= i <= Total_Fine_Pages
        invariant forall j :: 0 <= j < i ==> !(Fine_Page_Region[j].start <= taddress < Fine_Page_Region[j].end)
      {
        if taddress >= Fine_Page_Region[i].start && taddress < Fine_Page_Region[i].end {
          assert Regions()[i] == Fine_Page_Region[i];
          return true;
        }
        i := i + 1;
      }
      return false;
    }

    /** What ParseRule does with a complete rule of level 1: it remembers the ranges of fine pages. */
    method ParseRule(r: Rule, ghost cells: seq<Cell>)
      requires Valid() && Level1Rule(r, r.v_base / MB) && Recognised(Regions(), cells)
      requires r.entrytype.I? ==> Total_Fine_Pages < 128
      modifies this`Total_Fine_Pages, Fine_Page_Region
      ensures Valid() && Total_Fine_Pages == old(Total_Fine_Pages) + if r.entrytype.I? then 1 else 0
      ensures r.v_base / MB == |cells| ==> Recognised(Regions(), cells + CellsOf(r, CellCount(r)))
    {
      hide Recognised, CellsOf, InRegions;
      ghost var known := Regions();
      if r.entrytype.I? {
        Fine_Page_Region[Total_Fine_Pages] := Region(r.v_base, r.v_end);
        Total_Fine_Pages := Total_Fine_Pages + 1;
        assert Regions() == known + [Region(r.v_base, r.v_end)];
      }
      if r.v_base / MB == |cells| {
        if r.entrytype.I? {
          RegionAdded(known, cells, r);
        } else {
          NoRegionAdded(known, cells, r);
        }
      }
    }

    /** One level-1 entry that needs no table. */
    method EmitFlat(w: u32, ghost cells: seq<Cell>, ghost c: Cell)
      requires Level1State(cells) && |cells| < 0x1000 && !c.Table()
      requires w == Level1Word(base_address, cells + [c], |cells|)
      modifies this`MMUTableIndex, this`table_entry, words
      ensures Level1State(cells + [c])
    {
      hide Laid, Level1Word;
      LaidOn(base_address, cells, c, Out(), w);
      assert (cells + [c])[..|cells|] == cells;
      Emit(w);
      table_entry := table_entry + 1;
    }

    /** The entry of a coarse table, which moves the address of the next table. */
    method EmitCoarse(r: Rule, ghost cells: seq<Cell>)
      requires Level1State(cells) && |cells| < 0x1000 && r.domain < 0x10 && HasRoom(cells + [Coarse(r.domain)])
      modifies this`MMUTableIndex, this`table_entry, this`level2_base_address, words
      ensures Level1State(cells + [Coarse(r.domain)])
    {
      hide Laid, Up, Or, SectionFields;
      ghost var c := Coarse(r.domain);
      assert (cells + [c])[..|cells|] == cells;
      var writevalue: u32 := 0x11 + r.domain * 0x20 + level2_base_address;
      LaidOn(base_address, cells, c, Out(), writevalue);
      Emit(writevalue);
      level2_base_address := level2_base_address + 0x400;
      table_entry := table_entry + 1;
    }

    /** The entry of a fine table, whose address is aligned first. */
    method EmitFine(r: Rule, ghost cells: seq<Cell>)
      requires Level1State(cells) && |cells| < 0x1000 && r.domain < 0x10 && HasRoom(cells + [Fine(r.domain)])
      modifies this`MMUTableIndex, this`table_entry, this`level2_base_address, words
      ensures Level1State(cells + [Fine(r.domain)])
    {
      hide Laid, Up, Or, SectionFields, ALIGN;
      ghost var c := Fine(r.domain);
      assert (cells + [c])[..|cells|] == cells;
      FineRoom(base_address, TableOff(cells), words.Length, r.domain);
      level2_base_address := ALIGN(level2_base_address, 0x1000);
      var writevalue: u32 := 0x13 + r.domain * 0x20 + level2_base_address;
      LaidOn(base_address, cells, c, Out(), writevalue);
      Emit(writevalue);
      level2_base_address := level2_base_address + 0x1000;
      table_entry := table_entry + 1;
    }

    /** WriteLevel1: -1 and no change if the rule is not for the next megabyte. */
    method WriteLevel1(r: Rule, ghost cells: seq<Cell>) returns (status: int)
      requires Level1State(cells) && Level1Rule(r, r.v_base / MB)
      requires r.v_base / MB == |cells| ==> HasRoom(cells + CellsOf(r, CellCount(r)))
      modifies this`MMUTableIndex, this`table_entry, this`level2_base_address, words
      ensures status == if |cells| == r.v_base / MB then 0 else -1
      ensures status == 0 ==> Level1State(cells + CellsOf(r, CellCount(r)))
      ensures status == -1 ==> Level1State(cells) && Out() == old(Out())
    {
      hide Laid, Level1Word, CellsOf, CellAt;
      if table_entry != r.v_base / MB {
        return -1;
      }
      if r.entrytype == S || r.entrytype == F {
        WriteFlat(r, cells);
      } else {
        OneCell(cells, r);
        if r.entrytype == C {
          EmitCoarse(r, cells);
        } else {
          EmitFine(r, cells);
        }
      }
      return 0;
    }

    /** The section or fault entries of a rule, until its end or the end of the address space. */
    method WriteFlat(r: Rule, ghost cells: seq<Cell>)
      requires Level1State(cells) && Level1Rule(r, |cells|) && (r.entrytype.S? || r.entrytype.F?)
      modifies this`MMUTableIndex, this`table_entry, words
      ensures Level1State(cells + CellsOf(r, CellCount(r)))
    {
      hide Laid, Level1Word, CellAt, CellsOf, HasRoom, Or, SectionFields, MegBase, Megs;
      var fields := if r.entrytype == S then SectionFields(r.access[0], r.domain, r.cb) else 0;
      var physical := r.p_base;
      var i := r.v_base;
      ghost var k: nat := 0;
      CellsGrow(cells, r, 0);
      MegNext(r, 0);
      while i < r.v_end
        invariant k <= Megs(r) && i == r.v_base + k * MB && physical == MegBase(r, k)
        invariant Level1State(cells + CellsOf(r, k))
        decreases Megs(r) - k
      {
        MoreMegs(r, k);
        FlatWord(base_address, r, cells + CellsOf(r, k), k);
        EmitFlat(Or(physical, fields), cells + CellsOf(r, k), CellAt(r, k));
        CellsGrow(cells, r, k);
        MegNext(r, k);
        NextMeg(r, k, i);
        physical := (physical + 0x10_0000) % TOP;
        i := (i + 0x10_0000) % TOP;
        k := k + 1;
        if i == 0 {
          break;
        }
      }
      AllMegs(r, k);
    }

    /** While level 2 is written: everything below v has been filled. */
    ghost predicate Level2State(cells: seq<Cell>, v: nat)
      reads this`MMUTableIndex, this`Total_Fine_Pages, this`level2_page_size, this`level2_previous_region
      reads words, Fine_Page_Region
    {
      && Valid() && HasRoom(cells) && |cells| == 0x1000 && v / MB < 0x1000
      && 4 * |Out()| == 0x4000 + level2_page_size && level2_page_size == Cursor(cells, v)
      && PrevOk(cells, v, level2_previous_region == 1)
      && Laid(base_address, cells, Out()) && Recognised(Regions(), cells)
    }

    /** One entry of a level-2 table. */
    method EmitPage(writevalue: u32)
      requires Valid() && MMUTableIndex < words.Length
      modifies this`MMUTableIndex, this`level2_page_size, words
      ensures Valid() && Out() == old(Out()) + [writevalue] && level2_page_size == old(level2_page_size) + 4
    {
      Emit(writevalue);
      level2_page_size := level2_page_size + 4;
    }

    /** `for( j=n; j; j-- )`: the same entry n times. */
    method Repeat(writevalue: u32, n: nat)
      requires Valid() && MMUTableIndex + n <= words.Length
      modifies this`MMUTableIndex, this`level2_page_size, words
      ensures Valid() && Out() == old(Out()) + Rep(writevalue, n) && level2_page_size == old(level2_page_size) + 4 * n
    {
      var j := n;
      while j > 0
        invariant 0 <= j <= n && Valid() && MMUTableIndex + j <= words.Length
        invariant Out() == old(Out()) + Rep(writevalue, n - j)
        invariant level2_page_size == old(level2_page_size) + 4 * (n - j)
      {
        EmitPage(writevalue);
        j := j - 1;
      }
    }

    /** The filling in front of a fine table that follows a coarse one. */
    method Padding(IsFinePage: bool)
      requires Valid() && 4 * |Out()| == 0x4000 + level2_page_size
      requires 0x4000 + Padded(level2_page_size, IsFinePage, level2_previous_region == 1) <= 4 * words.Length
      requires level2_previous_region <= 1
      modifies this`MMUTableIndex, this`level2_page_size, words
      ensures Valid() && old(Out()) <= Out() && 4 * |Out()| == 0x4000 + level2_page_size
      ensures level2_page_size == Padded(old(level2_page_size), IsFinePage, level2_previous_region == 1)
    {
      hide ALIGN, Up;
      if IsFinePage && level2_previous_region == 0 {
        AlignedUp(0, level2_page_size);
        PaddingInWords(level2_page_size, |Out()|);
        if level2_page_size % 0x1000 != 0 {
          var n := ALIGN(level2_page_size, 0x1000) - level2_page_size;
          var writevalue: u32 := *;
          var k := 0;
          while k < n / 4
            invariant 0 <= k <= n / 4 && Valid() && old(Out()) <= Out() && level2_page_size == old(level2_page_size)
            invariant 4 * |Out()| == 0x4000 + level2_page_size + 4 * k
          {
            Emit(writevalue);
            k := k + 1;
          }
          level2_page_size := level2_page_size + n;
        } else {
          UpFixed(level2_page_size);
        }
      }
    }

    /** The entries of one page. */
    method WritePage(r: Rule, IsFinePage: bool, fields: u32, i: u32, physical: u32) returns (i': u32, physical': u32)
      requires Valid() && MMUTableIndex + Copies(r.entrytype, IsFinePage) <= words.Length
      modifies this`MMUTableIndex, this`level2_page_size, words
      ensures Valid() && Out() == old(Out()) + Rep(Or(physical, fields), Copies(r.entrytype, IsFinePage))
      ensures level2_page_size == old(level2_page_size) + 4 * Copies(r.entrytype, IsFinePage)
      ensures i' == Add32(i, PageSize(r.entrytype)) && physical' == Add32(physical, PageSize(r.entrytype))
    {
      hide Or;
      var writevalue := Or(physical, fields);
      if r.entrytype == L {
        if IsFinePage {
          Repeat(writevalue, 64);
        } else {
          Repeat(writevalue, 16);
        }
        physical', i' := Add32(physical, 0x1_0000), Add32(i, 0x1_0000);
      } else if r.entrytype == S {
        if IsFinePage {
          Repeat(writevalue, 4);
        } else {
          EmitPage(writevalue);
        }
        physical', i' := Add32(physical, 0x1000), Add32(i, 0x1000);
      } else {
        EmitPage(writevalue);
        physical', i' := Add32(physical, 0x400), Add32(i, 0x400);
      }
    }

    /** The first t entries of a rule are behind what had been written before. */
    ghost predicate Written(before: seq<u32>, r: Rule, n: nat, t: nat)
      requires Valid() && |r.access| == 4 && n > 0
      reads this`MMUTableIndex, this`Total_Fine_Pages, this`level2_page_size, words
    {
      Out() == before + PageWords(r, n, t) && 4 * (|before| + t) == 0x4000 + level2_page_size
    }

    /** One turn of the loop over the pages of a rule. */
    method PageTurn(r: Rule, IsFinePage: bool, fields: u32, i: u32, physical: u32,
                    ghost before: seq<u32>, ghost m: nat, ghost t: nat, ghost total: nat)
      returns (i': u32, physical': u32)
      requires Valid() && r.Sensible() && End(r) < TOP && i < r.v_end && fields == PageFields(r)
      requires Progress(r, Copies(r.entrytype, IsFinePage), m, t, total, i, physical) && |before| + total <= words.Length
      requires Written(before, r, Copies(r.entrytype, IsFinePage), t)
      modifies this`MMUTableIndex, this`level2_page_size, words
      ensures m < Pages(r) && t + Copies(r.entrytype, IsFinePage) <= total
      ensures Progress(r, Copies(r.entrytype, IsFinePage), m + 1, t + Copies(r.entrytype, IsFinePage), total, i', physical')
      ensures Valid() && Written(before, r, Copies(r.entrytype, IsFinePage), t + Copies(r.entrytype, IsFinePage))
    {
      hide Or, PageFields, Pages, PageSize, Copies, PageWords, End, Progress, Add32;
      ghost var n := Copies(r.entrytype, IsFinePage);
      ProgressGoesOn(r, n, m, t, total, i, physical);
      ProgressPage(r, n, m, t, total, i, physical);
      i', physical' := WritePage(r, IsFinePage, fields, i, physical);
    }

    /** The loop over the pages of a rule. */
    method WritePages(r: Rule, IsFinePage: bool)
      requires Valid() && r.Sensible() && End(r) < TOP
      requires 4 * |Out()| == 0x4000 + level2_page_size
      requires |Out()| + EntryCount(r, IsFinePage) <= words.Length
      modifies this`MMUTableIndex, this`level2_page_size, words
      ensures Valid() && Written(old(Out()), r, Copies(r.entrytype, IsFinePage), EntryCount(r, IsFinePage))
    {
      hide Or, PageFields, Pages, EntryCount, PageSize, Copies, PageWords, End, Progress, Written;
      var fields := PageFields(r);
      var i: u32, physical: u32 := r.v_base, r.p_base;
      ghost var before, n := Out(), Copies(r.entrytype, IsFinePage);
      ghost var m: nat, t: nat, total: nat := 0, 0, EntryCount(r, IsFinePage);
      ProgressStarts(r, IsFinePage);
      NothingWritten(before, r, n);
      while i < r.v_end
        invariant 0 <= m && 0 <= t <= total && Progress(r, n, m, t, total, i, physical)
        invariant Valid() && Written(before, r, n, t)
        decreases Pages(r) - m
      {
        i, physical := PageTurn(r, IsFinePage, fields, i, physical, before, m, t, total);
        m, t := m + 1, t + n;
      }
      ProgressEnds(r, n, m, t, total, i, physical);
    }

    lemma NothingWritten(before: seq<u32>, r: Rule, n: nat)
      requires Valid() && |r.access| == 4 && n > 0 && before == Out() && 4 * |Out()| == 0x4000 + level2_page_size
      ensures Written(before, r, n, 0)
    {
    }

    /** WriteLevel2: every page the rule covers gets its descriptor in its slot, behind what has been written before. */
    method WriteLevel2(r: Rule, ghost cells: seq<Cell>, ghost v: nat) returns (status: int)
      requires Level2State(cells, v) && Fits(cells, r) && Follows(cells, v, r.v_base) && level2_previous_region <= 1
      modifies this`MMUTableIndex, this`level2_page_size, this`level2_current_region, this`level2_previous_region, words
      ensures status == 0 && Level2State(cells, End(r)) && level2_previous_region <= 1
      ensures old(Out()) <= Out() && Filled(cells, r, Out())
    {
      hide Fits, Laid, Recognised, InRegions, Cursor, Slot, Filled, TableOff, PrevOk, Follows, EntryCount, PageWords,
        Copies, RuleWords, End;
      RoomForRule(cells, r, v, level2_previous_region == 1, words.Length);
      RuleRegion(Regions(), cells, r);
      var IsFinePage := CheckIsFinePage(r.v_base);
      level2_current_region := if IsFinePage then 1 else 0;
      Padding(IsFinePage);
      ghost var before := Out();
      WritePages(r, IsFinePage);
      level2_previous_region := level2_current_region;
      FilledBy(cells, r, before);
      LaidKept(base_address, cells, old(Out()), Out());
      status := 0;
    }

    /** WriteTableEntries: the state says which level is being written; without one there is an error. */
    method WriteTableEntries(r: Rule, ghost cells: seq<Cell>, ghost v: nat) returns (status: int)
      requires state == 1 ==> Level1State(cells) && Level1Rule(r, r.v_base / MB)
      requires state == 1 && r.v_base / MB == |cells| ==> HasRoom(cells + CellsOf(r, CellCount(r)))
      requires state == 2 ==>
        Level2State(cells, v) && Fits(cells, r) && Follows(cells, v, r.v_base) && level2_previous_region <= 1
      modifies this`MMUTableIndex, this`table_entry, this`level2_base_address, words
      modifies this`level2_page_size, this`level2_current_region, this`level2_previous_region
      ensures state == 1 ==> status == if r.v_base / MB == |cells| then 0 else -1
      ensures state == 1 && status == 0 ==> Level1State(cells + CellsOf(r, CellCount(r)))
      ensures state == 1 ==>
        level2_page_size == old(level2_page_size) && level2_previous_region == old(level2_previous_region)
      ensures state == 2 ==> status == 0 && Level2State(cells, End(r)) && level2_previous_region <= 1
      ensures state == 2 ==> old(Out()) <= Out() && Filled(cells, r, Out())
      ensures state != 1 && state != 2 ==> status == -1
    {
      hide Fits, Laid, Recognised, InRegions, Cursor, Slot, Filled, TableOff, PrevOk, Follows, CellsOf, End, Level1Rule;
      match state
      case 1 => status := WriteLevel1(r, cells);
      case 2 => status := WriteLevel2(r, cells, v);
      case _ => status := -1;
    }
  }

  lemma MaskIs(x: u32)
    ensures Mask(x, 0x1000) == x / 0x1000 * 0x1000
  {
    var q, r := DivDef(x, 0x1000);
  }

  lemma AlignIsUp(x: nat)
    requires x + 0x1000 <= TOP
    ensures ALIGN(x, 0x1000) == Up(x)
  {
    hide Mask;
    MaskIs(x);
    var q, r := DivDef(x, 0x1000);
    if 0 < x < 0x1000 {
      Div(1, x - 1, 0x1000);
    } else if x >= 0x1000 {
      MaskIs(x + 0xFFF);
    }
  }

  lemma UpShifted(a: nat, off: nat)
    ensures Up(a * 0x1000 + off) == a * 0x1000 + Up(off)
  {
    var q, r := DivDef(off + 0xFFF, 0x1000);
    Div(a + q, r, 0x1000);
  }

  /** Aligning an address and aligning an offset are the same if the start is aligned. */
  lemma AlignedUp(start: nat, off: nat)
    requires start % 0x1000 == 0 && start + off + 0x1000 <= TOP
    ensures ALIGN(start + off, 0x1000) == start + Up(off)
  {
    hide ALIGN, Up;
    var a, _ := DivDef(start, 0x1000);
    AlignIsUp(start + off);
    UpShifted(a, off);
  }

  lemma PaddingInWords(size: nat, count: nat)
    requires 4 * count == 0x4000 + size
    ensures Up(size) - size == (Up(size) - size) / 4 * 4
  {
    var q, _ := DivDef(Up(size), 0x1000);
    Div(q * 0x400 - count + 0x1000, 0, 4);
  }

  lemma FineRoom(base: nat, off: nat, size: nat, domain: nat)
    requires base % 0x4000 == 0 && base + 4 * size < TOP && 0x4000 + Up(off) + 0x1000 <= 4 * size && domain < 0x10
    ensures ALIGN(base + 0x4000 + off, 0x1000) == base + 0x4000 + Up(off)
    ensures 0x13 + domain * 0x20 + (base + 0x4000 + Up(off)) < TOP && base + 0x4000 + Up(off) + 0x1000 < TOP
  {
    var a, _ := DivDef(base, 0x4000);
    assert base == a * 4 * 0x1000;
    assert base % 0x1000 == 0 by {
      Div(a * 4, 0, 0x1000);
    }
    AlignedUp(base + 0x4000, off);
  }

  lemma CellsGrow(cells: seq<Cell>, r: Rule, k: nat)
    requires |r.access| == 4
    ensures cells + CellsOf(r, 0) == cells
    ensures (cells + CellsOf(r, k)) + [CellAt(r, k)] == cells + CellsOf(r, k + 1)
  {
    hide CellAt;
  }

  /** Adding a megabyte wraps around to 0 exactly behind a rule that ends with the address space. */
  lemma NextMeg(r: Rule, k: nat, i: u32)
    requires i == r.v_base + k * MB < r.v_end <= TOP && r.v_base % MB == 0
    ensures (i + MB) % TOP == if i + MB == TOP then 0 else i + MB
    ensures i + MB <= TOP
    ensures i + MB == r.v_base + (k + 1) * MB
  {
    var b, _ := DivDef(r.v_base, MB);
  }

  lemma MegNext(r: Rule, k: nat)
    ensures MegBase(r, 0) == r.p_base && MegBase(r, k + 1) == (MegBase(r, k) + MB) % TOP
  {
    ModAdd(r.p_base + k * MB, MB);
  }

  /** There are megabytes left exactly as long as the end is not reached. */
  lemma MoreMegs(r: Rule, k: nat)
    requires r.v_base < r.v_end
    ensures r.v_base + k * MB < r.v_end <==> k < Megs(r)
  {
  }

  /** The loop over megabytes also ends where the address space ends. */
  lemma AllMegs(r: Rule, k: nat)
    requires r.v_base < r.v_end && k <= Megs(r)
    requires r.v_base + k * MB >= r.v_end
    ensures k == Megs(r)
  {
    MoreMegs(r, k);
  }

  lemma OneCell(cells: seq<Cell>, r: Rule)
    requires r.entrytype in {C, I} && r.Sensible()
    ensures cells + CellsOf(r, CellCount(r)) == cells + [if r.entrytype.C? then Coarse(r.domain) else Fine(r.domain)]
  {
  }

  lemma FlatWord(base: nat, r: Rule, cells: seq<Cell>, k: nat)
    requires r.Sensible() && (r.entrytype.S? || r.entrytype.F?)
    ensures !CellAt(r, k).Table()
    ensures Level1Word(base, cells + [CellAt(r, k)], |cells|)
         == Or(MegBase(r, k), if r.entrytype.S? then SectionFields(r.access[0], r.domain, r.cb) else 0)
  {
    hide Or, SectionFields;
  }

  lemma LaidKept(base: nat, cells: seq<Cell>, words: seq<u32>, words': seq<u32>)
    requires Laid(base, cells, words) && words <= words'
    ensures Laid(base, cells, words')
  {
    hide Level1Word;
  }

  lemma RuleRegion(regions: seq<Region>, cells: seq<Cell>, r: Rule)
    requires Recognised(regions, cells) && r.v_base / MB < |cells| && r.v_base % 0x400 == 0
    ensures InRegions(regions, r.v_base) <==> cells[r.v_base / MB].Fine?
  {
  }

  /** The number of rules for fine pages. */
  ghost function Fines(rules: seq<Rule>): nat {
    if |rules| == 0 then 0
    else Fines(rules[..|rules| - 1]) + if rules[|rules| - 1].entrytype.I? then 1 else 0
  }

  lemma {:induction false} PrefixFacts(rules: seq<Rule>, k: nat)
    requires k <= |rules|
    ensures Fines(rules[..k]) <= Fines(rules)
    ensures InOrder(rules) ==> InOrder(rules[..k])
    decreases |rules| - k
  {
    if k < |rules| {
      PrefixFacts(rules, k + 1);
      assert rules[..k + 1][..k] == rules[..k];
    } else {
      assert rules[..k] == rules;
    }
  }

  /** The rules before k take the next one up. */
  lemma NextRule(rules: seq<Rule>, k: nat)
    requires k < |rules| && InOrder(rules[..k]) && Level1Rule(rules[k], rules[k].v_base / MB)
    ensures InOrder(rules[..k + 1]) <==> rules[k].v_base / MB == |AllCells(rules[..k])|
    ensures InOrder(rules[..k + 1]) ==>
      AllCells(rules[..k + 1]) == AllCells(rules[..k]) + CellsOf(rules[k], CellCount(rules[k]))
    ensures Fines(rules[..k + 1]) == Fines(rules[..k]) + if rules[k].entrytype.I? then 1 else 0
  {
    assert rules[..k + 1][..k] == rules[..k];
  }

  /** The memory takes all tables that the rules announce. */
  ghost predicate MemorySuffices(rules: seq<Rule>, size: nat) {
    forall k {:trigger rules[..k]} :: 0 <= k <= |rules| && InOrder(rules[..k]) ==>
      |AllCells(rules[..k])| <= 0x1000 && 0x4000 + TableOff(AllCells(rules[..k])) <= 4 * size
  }

  /** A walk finds every address of every rule where that rule says, with the access bits and cb bits it says. */
  ghost predicate Means(base: nat, level1: seq<Rule>, level2: seq<Rule>, words: seq<u32>)
    requires InOrder(level1) && Tiles(AllCells(level1), level2)
  {
    && (forall j, va: u32 {:trigger Covers1(level1[j], va)} ::
          0 <= j < |level1| && Covers1(level1[j], va) && level1[j].Sensible() ==>
          Walk(base, words, va) == Promise1(level1[j], va))
    && (forall j, va: u32 {:trigger Covers2(level2[j], va)} ::
          0 <= j < |level2| && Covers2(level2[j], va) && level2[j].Sensible() ==>
          var c := AllCells(level1)[va / MB];
          c.Table() && Walk(base, words, va) == Promise(level2[j], c.domain, va))
  }

  ghost predicate Covers2(r: Rule, va: nat) {
    r.v_base <= va < End(r)
  }

  /** Every address from v_base up to v_end of a section rule is mapped, and that of a fault rule is not. */
  lemma SectionRuleHolds(base: nat, level1: seq<Rule>, level2: seq<Rule>, words: seq<u32>, j: nat, va: u32)
    requires InOrder(level1) && Tiles(AllCells(level1), level2) && Means(base, level1, level2, words)
    requires j < |level1| && level1[j].Sensible() && level1[j].v_base <= va < level1[j].v_end
    ensures var r := level1[j];
            var pa := (r.p_base + va - r.v_base) % 0x1_0000_0000;
            && (r.entrytype.S? ==> Walk(base, words, va) == Mapped(pa, r.access[0], r.domain, r.cb))
            && (r.entrytype.F? ==> Walk(base, words, va) == Fault)
  {
    hide Walk, AllCells, Tiles;
    var r := level1[j];
    UpToMultiple(r.v_end - r.v_base, MB);
    assert r.entrytype.S? || r.entrytype.F? ==> Covers1(r, va);
  }

  /** Every address from v_base up to v_end of a page rule is mapped, with the access bits of its quarter of the page. */
  lemma PageRuleHolds(base: nat, level1: seq<Rule>, level2: seq<Rule>, words: seq<u32>, j: nat, va: u32)
    requires InOrder(level1) && Tiles(AllCells(level1), level2) && Means(base, level1, level2, words)
    requires j < |level2| && level2[j].Sensible() && level2[j].v_base <= va < level2[j].v_end
    ensures AllCells(level1)[va / 0x10_0000].Table()
    ensures var r := level2[j];
            var access := match r.entrytype
              case L => r.access[va / 0x4000 % 4]
              case S => r.access[va / 0x400 % 4]
              case _ => r.access[0];
            Walk(base, words, va) == Mapped((r.p_base + va - r.v_base) % 0x1_0000_0000, access,
                                            AllCells(level1)[va / 0x10_0000].domain, r.cb)
  {
    hide Walk, AllCells, Tiles;
    var r := level2[j];
    UpToMultiple(r.v_end - r.v_base, PageSize(r.entrytype));
    assert Covers2(r, va);
  }

  lemma UpToMultiple(n: nat, k: nat)
    requires k > 0
    ensures n <= (n + k - 1) / k * k < n + k
  {
    var q, r := DivDef(n + k - 1, k);
  }

  ghost predicate AllFilled(cells: seq<Cell>, rules: seq<Rule>, words: seq<u32>)
    requires |cells| == 0x1000
  {
    forall j :: 0 <= j < |rules| ==> Fits(cells, rules[j]) && Filled(cells, rules[j], words)
  }

  lemma AllFilledOn(cells: seq<Cell>, rules: seq<Rule>, words: seq<u32>, words': seq<u32>)
    requires |cells| == 0x1000 && AllFilled(cells, rules, words) && words <= words'
    ensures AllFilled(cells, rules, words')
  {
    hide Filled, Fits;
    forall j | 0 <= j < |rules|
      ensures Fits(cells, rules[j]) && End(rules[j]) < TOP && rules[j].Sensible() && Filled(cells, rules[j], words')
    {
      FitsFacts(cells, rules[j]);
      FilledOn(cells, rules[j], words, words');
    }
  }

  lemma MeansAll(base: nat, level1: seq<Rule>, level2: seq<Rule>, words: seq<u32>)
    requires InOrder(level1) && Tiles(AllCells(level1), level2) && base % 0x1000 == 0
    requires Laid(base, AllCells(level1), words) && AllFilled(AllCells(level1), level2, words)
    ensures Means(base, level1, level2, words)
  {
    hide Laid, Filled, Fits, Walk, Promise1, Promise, AllCells;
    forall j, va: u32 | 0 <= j < |level1| && Covers1(level1[j], va) && level1[j].Sensible()
      ensures Walk(base, words, va) == Promise1(level1[j], va)
    {
      Level1Meaning(base, level1, words, j, va);
    }
    CellsSensible(level1);
    forall j, va: u32 | 0 <= j < |level2| && Covers2(level2[j], va) && level2[j].Sensible()
      ensures AllCells(level1)[va / MB].Table()
      ensures Walk(base, words, va) == Promise(level2[j], AllCells(level1)[va / MB].domain, va)
    {
      Level2Meaning(base, AllCells(level1), words, level2[j], va);
    }
  }

  /** The first k rules have been parsed and written to level 1. */
  ghost predicate Level1Done(g: Generator, rules: seq<Rule>, k: nat)
    requires k <= |rules|
    reads g, g.words, g.Fine_Page_Region
  {
    && InOrder(rules[..k]) && g.state == 1 && g.Total_Fine_Pages == Fines(rules[..k])
    && g.Level1State(AllCells(rules[..k])) && Recognised(g.Regions(), AllCells(rules[..k]))
    && g.level2_page_size == 0 && g.level2_previous_region == 0
  }

  /** The next rule of level 1. */
  method Level1Turn(g: Generator, rules: seq<Rule>, k: nat) returns (status: int)
    requires k < |rules| && Level1Done(g, rules, k) && Level1Rule(rules[k], rules[k].v_base / MB)
    requires MemorySuffices(rules, g.words.Length) && Fines(rules) <= 128
    modifies g, g.words, g.Fine_Page_Region
    ensures if status == -1 then !InOrder(rules) else Level1Done(g, rules, k + 1)
  {
    hide Recognised, Laid, Generator.HasRoom, CellsOf, Level1Rule, Cursor, Slot, PrevOk, Follows, Fits;
    NextRule(rules, k);
    PrefixFacts(rules, k + 1);
    ghost var cells := AllCells(rules[..k]);
    RoomForCells(rules, k + 1, g);
    hide AllCells, InOrder, Fines, MemorySuffices;
    g.ParseRule(rules[k], cells);
    status := g.WriteTableEntries(rules[k], cells, 0);
  }

  /** The rules behind LEVEL 1, up to the first that is out of order. */
  method WriteLevel1Rules(g: Generator, rules: seq<Rule>) returns (ok: bool)
    requires g.Level1State([]) && Recognised(g.Regions(), []) && g.Total_Fine_Pages == 0
    requires g.level2_page_size == 0 && g.level2_previous_region == 0
    requires forall k :: 0 <= k < |rules| ==> Level1Rule(rules[k], rules[k].v_base / MB)
    requires MemorySuffices(rules, g.words.Length) && Fines(rules) <= 128
    modifies g, g.words, g.Fine_Page_Region
    ensures ok <==> InOrder(rules)
    ensures ok ==> g.Level1State(AllCells(rules)) && Recognised(g.Regions(), AllCells(rules))
    ensures ok ==> g.level2_page_size == 0 && g.level2_previous_region == 0
  {
    hide Recognised, Laid, Generator.HasRoom, CellsOf, Level1Rule, Cursor, Slot, PrevOk, Follows, Fits;
    g.state := 1;
    var k := 0;
    while k < |rules|
      invariant 0 <= k <= |rules| && Level1Done(g, rules, k)
    {
      var status := Level1Turn(g, rules, k);
      if status == -1 {
        return false;
      }
      k := k + 1;
    }
    assert rules[..k] == rules;
    ok := true;
  }

  lemma RoomForCells(rules: seq<Rule>, k: nat, g: Generator)
    requires k <= |rules| && MemorySuffices(rules, g.words.Length)
    ensures InOrder(rules[..k]) ==> g.HasRoom(AllCells(rules[..k]))
  {
  }

  lemma Level2Starts(cells: seq<Cell>)
    requires |cells| == 0x1000
    ensures Cursor(cells, 0) == 0 && PrevOk(cells, 0, false)
  {
  }

  lemma TilesOn(cells: seq<Cell>, rules: seq<Rule>, k: nat)
    requires Tiles(cells, rules) && k < |rules|
    ensures Fits(cells, rules[k]) && Follows(cells, Reached(rules[..k]), rules[k].v_base)
    ensures Reached(rules[..k + 1]) == End(rules[k])
    decreases |rules|
  {
    if k < |rules| - 1 {
      var init := rules[..|rules| - 1];
      TilesOn(cells, init, k);
      assert init[..k] == rules[..k] && init[..k + 1] == rules[..k + 1];
    }
  }

  lemma AllFilledNext(cells: seq<Cell>, rules: seq<Rule>, k: nat, words: seq<u32>)
    requires |cells| == 0x1000 && k < |rules| && AllFilled(cells, rules[..k], words)
    requires Fits(cells, rules[k]) && Filled(cells, rules[k], words)
    ensures AllFilled(cells, rules[..k + 1], words)
  {
    hide Fits, Filled;
  }

  /** The rules behind LEVEL 2. */
  method WriteLevel2Rules(g: Generator, rules: seq<Rule>, ghost cells: seq<Cell>) returns (ok: bool)
    requires g.Level1State(cells) && Recognised(g.Regions(), cells)
    requires g.level2_page_size == 0 && g.level2_previous_region == 0
    requires Tiles(cells, rules)
    modifies g, g.words
    ensures ok && g.Valid() && Laid(g.base_address, cells, g.Out()) && AllFilled(cells, rules, g.Out())
  {
    hide Recognised, Laid, Generator.HasRoom, Level1Rule, Cursor, Slot, PrevOk, Follows, Fits, Filled, AllFilled, Reached,
      CellsOf;
    g.state := 2;
    Level2Starts(cells);
    NothingFilled(cells, rules, g.Out());
    var k := 0;
    while k < |rules|
      invariant 0 <= k <= |rules| && g.state == 2 && g.level2_previous_region <= 1
      invariant g.Level2State(cells, Reached(rules[..k])) && AllFilled(cells, rules[..k], g.Out())
    {
      TilesOn(cells, rules, k);
      ghost var before := g.Out();
      var status := g.WriteTableEntries(rules[k], cells, Reached(rules[..k]));
      AllFilledOn(cells, rules[..k], before, g.Out());
      AllFilledNext(cells, rules, k, g.Out());
      if status == -1 {
        return false;
      }
      k := k + 1;
    }
    assert rules[..k] == rules;
    ok := true;
  }

  lemma NothingFilled(cells: seq<Cell>, rules: seq<Rule>, words: seq<u32>)
    requires |cells| == 0x1000
    ensures Reached(rules[..0]) == 0 && AllFilled(cells, rules[..0], words)
  {
  }

  lemma WholeMemory(base: nat, cells: seq<Cell>, rules: seq<Rule>, words: seq<u32>, memory: seq<u32>)
    requires |cells| == 0x1000 && words <= memory && Laid(base, cells, words) && AllFilled(cells, rules, words)
    ensures Laid(base, cells, memory) && AllFilled(cells, rules, memory)
  {
    AllFilledOn(cells, rules, words, memory);
    LaidKept(base, cells, words, memory);
  }

  /**
   * mmugen: it succeeds exactly if the level-1 rules are in order, and then translation by the tables agrees with
   * every rule of either level.
   */
  method Mmugen(base_address: u32, words: array<u32>, level1: seq<Rule>, level2: seq<Rule>) returns (ok: bool)
    requires base_address % 0x4000 == 0 && base_address + 4 * words.Length < TOP && words.Length >= 0x1000
    requires forall k :: 0 <= k < |level1| ==> Level1Rule(level1[k], level1[k].v_base / MB)
    requires MemorySuffices(level1, words.Length) && Fines(level1) <= 128
    requires InOrder(level1) ==> Tiles(AllCells(level1), level2)
    modifies words
    ensures ok <==> InOrder(level1)
    ensures ok ==> Means(base_address, level1, level2, words[..])
  {
    hide Recognised, Laid, MemorySuffices, Means, AllCells, AllFilled, Tiles, Level1Rule;
    var g := new Generator(base_address, words);
    ok := WriteLevel1Rules(g, level1);
    if ok {
      ok := WriteLevel2Rules(g, level2, AllCells(level1));
      TilesSize(AllCells(level1), level2);
      WholeMemory(base_address, AllCells(level1), level2, g.Out(), words[..]);
      MeansAll(base_address, level1, level2, words[..]);
    }
  }

  lemma TilesSize(cells: seq<Cell>, rules: seq<Rule>)
    requires Tiles(cells, rules)
    ensures |cells| == 0x1000
  {
  }
}
