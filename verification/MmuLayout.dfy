/** Where the level-1 and level-2 tables lie, and when a walk through them agrees with the rules (cpu/mmugen.c). */
module MmuLayout {
  import opened Arithmetic
  import opened Words
  import opened Bitwise
  import opened MmuFormat
  import opened MmuRules

  /** What level 1 says about a megabyte. */
  datatype Cell =
    | Section(pa: u32, ap: nat, domain: nat, cb: nat)
    | Unmapped(pa: u32)
    | Coarse(domain: nat)
    | Fine(domain: nat)
  {
    predicate Table() {
      Coarse? || Fine?
    }

    predicate Sensible() {
      match this
      case Section(pa, ap, domain, cb) => pa % MB == 0 && pa + MB <= TOP && ap < 4 && domain < 0x10 && cb < 4
      case Unmapped(pa) => pa % 4 == 0
      case Coarse(domain) => domain < 0x10
      case Fine(domain) => domain < 0x10
    }
  }

  /** The next multiple of 4K. */
  function Up(n: nat): (r: nat)
    ensures r % 0x1000 == 0 && r % 0x400 == 0 && n <= r < n + 0x1000
  {
    var q := (n + 0xFFF) / 0x1000;
    Div(q, 0, 0x1000);
    Div(q * 4, 0, 0x400);
    q * 0x1000
  }

  lemma NextKilobytes(n: nat)
    requires n % 0x400 == 0
    ensures (n + 0x400) % 0x400 == 0 && (n + 0x1000) % 0x400 == 0
  {
    var q, _ := DivDef(n, 0x400);
    Div(q + 1, 0, 0x400);
    Div(q + 4, 0, 0x400);
  }

  /** The end of a table behind off bytes of tables; a fine table is aligned to 4K. */
  function TableEnd(c: Cell, off: nat): (n: nat)
    requires off % 0x400 == 0
    ensures n % 0x400 == 0
  {
    match c
    case Coarse(_) =>
      NextKilobytes(off);
      off + 0x400
    case Fine(_) =>
      NextKilobytes(Up(off));
      Up(off) + 0x1000
    case _ => off
  }

  /** Size of the level-2 tables of the given megabytes. */
  ghost function TableOff(cells: seq<Cell>): (n: nat)
    ensures n % 0x400 == 0
  {
    if |cells| == 0 then 0 else TableEnd(cells[|cells| - 1], TableOff(cells[..|cells| - 1]))
  }

  /** Where the level-2 table of megabyte mb starts, relative to the first. */
  ghost function TableStart(cells: seq<Cell>, mb: nat): (n: nat)
    requires mb < |cells|
    ensures n % 0x400 == 0 && (cells[mb].Fine? ==> n % 0x1000 == 0)
  {
    if cells[mb].Fine? then Up(TableOff(cells[..mb])) else TableOff(cells[..mb])
  }

  /** The bytes of virtual address space behind one level-2 entry. */
  function Gran(c: Cell): (n: nat)
    ensures n == 0x1000 || n == 0x400
  {
    if c.Coarse? then 0x1000 else 0x400
  }

  /** The number of entries in the table of a megabyte. */
  function TableWords(c: Cell): nat {
    if c.Coarse? then 0x100 else 0x400
  }

  /** Index of the level-2 entry for va among all words. */
  ghost function Slot(cells: seq<Cell>, va: nat): nat
    requires va / MB < |cells|
  {
    0x1000 + TableStart(cells, va / MB) / 4 + va % MB / Gran(cells[va / MB])
  }

  lemma TableOffNext(cells: seq<Cell>, mb: nat)
    requires mb < |cells|
    ensures TableOff(cells[..mb + 1])
         == if cells[mb].Table() then TableStart(cells, mb) + TableWords(cells[mb]) * 4 else TableOff(cells[..mb])
  {
    assert cells[..mb + 1][..mb] == cells[..mb];
  }

  lemma {:induction false} TableOffGrows(cells: seq<Cell>, m: nat, n: nat)
    requires m <= n <= |cells|
    ensures TableOff(cells[..m]) <= TableOff(cells[..n])
  {
    if m < n {
      TableOffGrows(cells, m, n - 1);
      TableOffNext(cells, n - 1);
    }
  }

  /** Nothing but tables moves the end of the tables. */
  lemma {:induction false} TableOffFlat(cells: seq<Cell>, m: nat, n: nat)
    requires m <= n <= |cells| && forall k :: m <= k < n ==> !cells[k].Table()
    ensures TableOff(cells[..m]) == TableOff(cells[..n])
  {
    if m < n {
      TableOffFlat(cells, m, n - 1);
      TableOffNext(cells, n - 1);
    }
  }

  /** The level-1 descriptor of megabyte mb. */
  ghost function Level1Word(base: nat, cells: seq<Cell>, mb: nat): int
    requires mb < |cells|
  {
    match cells[mb]
    case Section(pa, ap, domain, cb) => Or(pa, SectionFields(ap, domain, cb))
    case Unmapped(pa) => Or(pa, 0)
    case Coarse(domain) => 0x11 + domain * 0x20 + (base + 0x4000 + TableStart(cells, mb))
    case Fine(domain) => 0x13 + domain * 0x20 + (base + 0x4000 + TableStart(cells, mb))
  }

  /** The first words are the level-1 table. */
  ghost predicate Laid(base: nat, cells: seq<Cell>, words: seq<u32>) {
    |cells| <= |words| && forall mb :: 0 <= mb < |cells| ==> words[mb] == Level1Word(base, cells, mb)
  }

  lemma LaidOn(base: nat, cells: seq<Cell>, c: Cell, words: seq<u32>, w: u32)
    requires Laid(base, cells, words) && |words| == |cells|
    requires w == Level1Word(base, cells + [c], |cells|)
    ensures Laid(base, cells + [c], words + [w])
  {
    hide Or, SectionFields, TableOff, Up;
    var cells' := cells + [c];
    forall mb | 0 <= mb < |cells'|
      ensures (words + [w])[mb] == Level1Word(base, cells', mb)
    {
      if mb < |cells| {
        assert cells'[..mb] == cells[..mb];
      }
    }
  }

  ghost predicate AllSensible(cells: seq<Cell>) {
    forall mb {:trigger cells[mb]} :: 0 <= mb < |cells| ==> cells[mb].Sensible()
  }

  lemma SectionPacked(q: nat, ap: nat, domain: nat, cb: nat)
    requires q * MB + MB <= TOP && ap < 4 && domain < 0x10 && cb < 4
    ensures Or(q * MB, SectionFields(ap, domain, cb)) == q * MB + (ap * 0x400 + domain * 0x20 + 0x12 + cb * 4)
  {
    SectionFieldsAdd(ap, domain, cb);
    Powers();
    hide Or, SectionFields, Pow2;
    OrFields(q * MB, q, SectionFields(ap, domain, cb), 20);
  }

  lemma SectionDecoded(q: nat, ap: nat, domain: nat, cb: nat)
    requires q * MB + MB <= TOP && ap < 4 && domain < 0x10 && cb < 4
    ensures var d := Or(q * MB, SectionFields(ap, domain, cb));
            d % 4 == 2 && d / MB == q && d / 0x400 % 4 == ap && d / 0x20 % 0x10 == domain && d / 4 % 4 == cb
  {
    hide Or, SectionFields;
    SectionPacked(q, ap, domain, cb);
    SectionUnpacked(q, ap, domain, cb);
  }

  lemma SectionUnpacked(q: nat, ap: nat, domain: nat, cb: nat)
    requires ap < 4 && domain < 0x10 && cb < 4
    ensures var d := q * MB + (ap * 0x400 + domain * 0x20 + 0x12 + cb * 4);
            d % 4 == 2 && d / MB == q && d / 0x400 % 4 == ap && d / 0x20 % 0x10 == domain && d / 4 % 4 == cb
  {
    Div(q, ap * 0x400 + domain * 0x20 + 0x12 + cb * 4, MB);
    Div(q * 0x400 + ap, domain * 0x20 + 0x12 + cb * 4, 0x400);
    Div(q * 0x100, ap, 4);
    Div((q * 0x400 + ap) * 0x20 + domain, 0x12 + cb * 4, 0x20);
    Div((q * 0x400 + ap) * 2, domain, 0x10);
    Div(((q * 0x400 + ap) * 0x20 + domain) * 8 + 4 + cb, 2, 4);
    Div(((q * 0x400 + ap) * 0x20 + domain) * 2 + 1, cb, 4);
  }

  lemma TableUnpacked(q: nat, domain: nat)
    requires domain < 0x10
    ensures var d := 0x11 + domain * 0x20 + q * 0x400;
            d % 4 == 1 && d / 0x400 == q && d / 0x20 % 0x10 == domain
    ensures var d := 0x13 + domain * 0x20 + q * 0x1000;
            d % 4 == 3 && d / 0x1000 == q && d / 0x20 % 0x10 == domain
  {
    Div(q, 0x11 + domain * 0x20, 0x400);
    Div(q, 0x13 + domain * 0x20, 0x1000);
    Div(q * 0x20 + domain, 0x11, 0x20);
    Div(q * 0x80 + domain, 0x13, 0x20);
    Div(q * 2, domain, 0x10);
    Div(q * 8, domain, 0x10);
    Div(q * 0x100 + domain * 8 + 4, 1, 4);
    Div(q * 0x400 + domain * 8 + 4, 3, 4);
  }

  lemma CoarseUnpacked(address: nat, domain: nat)
    requires domain < 0x10 && DivisibleBy(address, 0x400)
    ensures var d := 0x11 + domain * 0x20 + address;
            d % 4 == 1 && d / 0x400 * 0x400 == address && d / 0x20 % 0x10 == domain
  {
    var q, _ := DivDef(address, 0x400);
    TableUnpacked(q, domain);
  }

  lemma FineUnpacked(address: nat, domain: nat)
    requires domain < 0x10 && DivisibleBy(address, 0x1000)
    ensures var d := 0x13 + domain * 0x20 + address;
            d % 4 == 3 && d / 0x1000 * 0x1000 == address && d / 0x20 % 0x10 == domain
  {
    var q, _ := DivDef(address, 0x1000);
    TableUnpacked(q, domain);
  }

  /** A section is mapped where its level-1 entry says. */
  lemma WalkSection(base: nat, cells: seq<Cell>, words: seq<u32>, va: u32)
    requires Laid(base, cells, words) && AllSensible(cells) && va / MB < |cells| && cells[va / MB].Section?
    ensures var c := cells[va / MB];
            Walk(base, words, va) == Mapped(c.pa + va % MB, c.ap, c.domain, c.cb)
  {
    hide Or, SectionFields;
    var c := cells[va / MB];
    assert c.Sensible();
    var q, _ := DivDef(c.pa, MB);
    SectionDecoded(q, c.ap, c.domain, c.cb);
  }

  lemma FaultDecoded(pa: u32)
    ensures Or(pa, 0) == pa
  {
    Powers();
    OrZero(pa, 32);
  }

  lemma WalkFault(base: nat, cells: seq<Cell>, words: seq<u32>, va: u32)
    requires Laid(base, cells, words) && AllSensible(cells) && va / MB < |cells| && cells[va / MB].Unmapped?
    ensures Walk(base, words, va) == Fault
  {
    hide Or, SectionFields, Walk2;
    var c := cells[va / MB];
    assert c.Sensible();
    FaultDecoded(c.pa);
  }

  /** The bits of an address that select a level-2 entry. */
  lemma SlotIndex(va: nat)
    ensures va / 0x1000 % 0x100 == va % MB / 0x1000
    ensures va / 0x400 % 0x400 == va % MB / 0x400
  {
    var mb, r := DivDef(va, MB);
    var h, l := DivDef(r, 0x1000);
    Div(mb * 0x100 + h, l, 0x1000);
    Div(mb, h, 0x100);
    h, l := DivDef(r, 0x400);
    Div(mb * 0x400 + h, l, 0x400);
    Div(mb, h, 0x400);
  }

  lemma SlotAddress(base: nat, start: nat, i: nat, words: seq<u32>)
    requires DivisibleBy(start, 4) && 0x1000 + start / 4 + i < |words|
    ensures Fetch(base, words, base + 0x4000 + start + i * 4) == words[0x1000 + start / 4 + i]
  {
  }

  /** A table lies at a multiple of its alignment, in words. */
  lemma TableAligned(base: nat, start: nat)
    requires DivisibleBy(base, 0x1000) && DivisibleBy(start, 0x400)
    ensures DivisibleBy(start, 4) && DivisibleBy(base + 0x4000 + start, 0x400)
    ensures DivisibleBy(start, 0x1000) ==> DivisibleBy(base + 0x4000 + start, 0x1000)
  {
    var b, _ := DivDef(base, 0x1000);
    var a, _ := DivDef(start, 0x400);
    Div(a * 0x100, 0, 4);
    Div(b * 4 + 0x10 + a, 0, 0x400);
    if DivisibleBy(start, 0x1000) {
      var c, _ := DivDef(start, 0x1000);
      Div(b + 4 + c, 0, 0x1000);
    }
  }

  lemma FineIsAligned(start: nat)
    requires DivisibleBy(start, 0x1000)
    ensures DivisibleBy(start, 0x400)
  {
    var c, _ := DivDef(start, 0x1000);
    Div(c * 4, 0, 0x400);
  }

  lemma CoarseStep(base: nat, words: seq<u32>, va: u32, domain: nat, address: nat)
    requires var d := Fetch(base, words, base + va / MB * 4);
             d >= 0 && d % 4 == 1 && d / 0x20 % 0x10 == domain && d / 0x400 * 0x400 + va / 0x1000 % 0x100 * 4 == address
    ensures Walk(base, words, va) == Walk2(domain, Fetch(base, words, address), va)
  {
    hide Fetch, Walk2;
  }

  lemma FineStep(base: nat, words: seq<u32>, va: u32, domain: nat, address: nat)
    requires var d := Fetch(base, words, base + va / MB * 4);
             d >= 0 && d % 4 == 3 && d / 0x20 % 0x10 == domain && d / 0x1000 * 0x1000 + va / 0x400 % 0x400 * 4 == address
    ensures Walk(base, words, va) == Walk2(domain, Fetch(base, words, address), va)
  {
    hide Fetch, Walk2;
  }

  lemma WalkCoarse(base: nat, words: seq<u32>, va: u32, domain: nat, start: nat)
    requires DivisibleBy(base, 0x1000) && DivisibleBy(start, 0x400) && domain < 0x10 && va / MB < |words|
    requires words[va / MB] == 0x11 + domain * 0x20 + (base + 0x4000 + start)
    requires 0x1000 + start / 4 + va % MB / 0x1000 < |words|
    ensures Walk(base, words, va) == Walk2(domain, words[0x1000 + start / 4 + va % MB / 0x1000], va)
  {
    hide Walk, Walk2, Fetch, DivisibleBy;
    TableAligned(base, start);
    var i := va % MB / 0x1000;
    CoarseUnpacked(base + 0x4000 + start, domain);
    FirstLevel(base, words, va);
    SlotIndex(va);
    SlotAddress(base, start, i, words);
    CoarseStep(base, words, va, domain, base + 0x4000 + start + i * 4);
  }

  lemma FirstLevel(base: nat, words: seq<u32>, va: nat)
    requires va / MB < |words|
    ensures Fetch(base, words, base + va / MB * 4) == words[va / MB]
  {
  }

  lemma WalkFine(base: nat, words: seq<u32>, va: u32, domain: nat, start: nat)
    requires DivisibleBy(base, 0x1000) && DivisibleBy(start, 0x1000) && domain < 0x10 && va / MB < |words|
    requires words[va / MB] == 0x13 + domain * 0x20 + (base + 0x4000 + start)
    requires 0x1000 + start / 4 + va % MB / 0x400 < |words|
    ensures Walk(base, words, va) == Walk2(domain, words[0x1000 + start / 4 + va % MB / 0x400], va)
  {
    hide Walk, Walk2, Fetch, DivisibleBy;
    FineIsAligned(start);
    TableAligned(base, start);
    var i := va % MB / 0x400;
    FineUnpacked(base + 0x4000 + start, domain);
    FirstLevel(base, words, va);
    SlotIndex(va);
    SlotAddress(base, start, i, words);
    FineStep(base, words, va, domain, base + 0x4000 + start + i * 4);
  }

  /** A walk through a table goes on with the word in the slot of the address. */
  lemma WalkTable(base: nat, cells: seq<Cell>, words: seq<u32>, va: u32)
    requires Laid(base, cells, words) && AllSensible(cells) && base % 0x1000 == 0
    requires va / MB < |cells| && cells[va / MB].Table() && Slot(cells, va) < |words|
    ensures Walk(base, words, va) == Walk2(cells[va / MB].domain, words[Slot(cells, va)], va)
  {
    hide Walk, Walk2, Or, SectionFields, TableStart;
    var c := cells[va / MB];
    assert c.Sensible();
    if c.Coarse? {
      WalkCoarse(base, words, va, c.domain, TableStart(cells, va / MB));
    } else {
      WalkFine(base, words, va, c.domain, TableStart(cells, va / MB));
    }
  }
}
