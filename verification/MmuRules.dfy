/** The rules of a memory map, and the words they stand for (cpu/mmugen.c). */
module MmuRules {
  import opened Arithmetic
  import opened Words
  import opened Bitwise
  import opened MmuFormat

  /** The entry types: S is a section in level 1 and a small page in level 2. */
  datatype EntryType = S | F | C | I | L | T

  datatype Rule = Rule(v_base: u32, v_end: u32, p_base: u32, entrytype: EntryType, access: seq<nat>, domain: nat, cb: nat)
  {
    /** The fields hold what their keywords can give them. */
    ghost predicate Sensible() {
      && |access| == 4 && (forall q :: 0 <= q < 4 ==> access[q] < 4)
      && domain < 0x10 && cb < 4 && v_base < v_end
    }
  }

  /** `x & ~(align - 1)` for align a power of two */
  function Mask(x: u32, align: u32): u32
    requires align > 0
  {
    x - x % align
  }

  /** ALIGN: the next multiple of align. */
  function ALIGN(val: u32, align: u32): (r: u32)
    requires align == 0x1000
    ensures val + align <= TOP ==> r % align == 0 && val <= r < val + align
  {
    if val == 0 then val
    else if val < align then align
    else if Mask(val, align) != 0 then Mask((val + (align - 1)) % TOP, align)
    else val
  }

  function SectionFields(ap: nat, domain: nat, cb: nat): u32 {
    Or(Or(Or(0x12, ap * 0x400), domain * 0x20), cb * 4)
  }

  lemma SectionFieldsAdd(ap: nat, domain: nat, cb: nat)
    requires ap < 4 && domain < 0x10 && cb < 4
    ensures SectionFields(ap, domain, cb) == ap * 0x400 + domain * 0x20 + 0x12 + cb * 4
  {
    hide Pow2;
    Powers();
    hide OrBits;
    OrComm(0x12, ap * 0x400, 32);
    OrIsSum(ap, 0x12, 10, 32);
    OrSplit(ap * 0x20, 0x12, domain, 0, 5, 32);
    OrIsSum(ap, domain, 5, 27);
    OrZero(0x12, 5);
    var x := ap * 0x40 + domain * 2 + 1;
    OrSplit(x, 2, 0, cb * 4, 4, 32);
    OrZero(x, 28);
    OrComm(2, cb * 4, 4);
    OrIsSum(cb, 2, 2, 4);
  }

  function PageFields(r: Rule): u32
    requires |r.access| == 4
  {
    match r.entrytype
    case T => Or(Or(r.access[0] * 0x10, r.cb * 4), 3)
    case L => Or(Or(Or(Or(Or(r.access[3] * 0x400, r.access[2] * 0x100), r.access[1] * 0x40), r.access[0] * 0x10), r.cb * 4), 1)
    case _ => Or(Or(Or(Or(Or(r.access[3] * 0x400, r.access[2] * 0x100), r.access[1] * 0x40), r.access[0] * 0x10), r.cb * 4), 2)
  }

  /** The four access fields side by side, above the cb field and the type of the descriptor. */
  lemma AccessAdd(a: nat, b: nat, c: nat, d: nat, cb: nat, kind: nat)
    requires a < 4 && b < 4 && c < 4 && d < 4 && cb < 4 && kind < 4
    ensures Or(Or(Or(Or(Or(a * 0x400, b * 0x100), c * 0x40), d * 0x10), cb * 4), kind)
         == a * 0x400 + b * 0x100 + c * 0x40 + d * 0x10 + cb * 4 + kind
  {
    hide Pow2;
    Powers();
    hide OrBits;
    OrIsSum(a, b * 0x100, 10, 32);
    OrIsSum(a * 4 + b, c * 0x40, 8, 32);
    OrIsSum(a * 0x10 + b * 4 + c, d * 0x10, 6, 32);
    OrIsSum(a * 0x40 + b * 0x10 + c * 4 + d, cb * 4, 4, 32);
    OrIsSum(a * 0x100 + b * 0x40 + c * 0x10 + d * 4 + cb, kind, 2, 32);
  }

  lemma TinyAdd(a: nat, cb: nat)
    requires a < 4 && cb < 4
    ensures Or(Or(a * 0x10, cb * 4), 3) == a * 0x10 + cb * 4 + 3
  {
    hide Pow2;
    Powers();
    hide OrBits;
    OrIsSum(a, cb * 4, 4, 32);
    OrIsSum(a * 4 + cb, 3, 2, 32);
  }

  /** Or of an address with fields below its alignment. */
  lemma OrFields(address: u32, q: nat, fields: u32, k: nat)
    requires address == q * Pow2(k) && fields < Pow2(k) && address + fields < TOP
    ensures Or(address, fields) == address + fields
  {
    assert Pow2(32) == TOP by {
      Powers();
    }
    OrIsSum(q, fields, k, 32);
  }

  function PageSize(t: EntryType): (r: u32)
    ensures r > 0
  {
    match t
    case L => 0x1_0000
    case S => 0x1000
    case _ => 0x400
  }

  /** The address that follows the last page a level-2 rule covers. */
  function End(r: Rule): nat {
    r.v_base + (r.v_end - r.v_base + PageSize(r.entrytype) - 1) / PageSize(r.entrytype) * PageSize(r.entrytype)
  }

  /** The address that follows the last section a level-1 rule covers. */
  function Megs(r: Rule): (n: nat)
    requires r.v_base < r.v_end
  {
    (r.v_end - r.v_base + MB - 1) / MB
  }

  /** Where rule r puts the page of va. */
  function PageBase(r: Rule, va: nat): u32
    requires r.v_base <= va
  {
    (r.p_base + (va - r.v_base) / PageSize(r.entrytype) * PageSize(r.entrytype)) % TOP
  }

  /** The level-2 descriptor that rule r gives to the page of va. */
  function Descriptor(r: Rule, va: nat): u32
    requires |r.access| == 4 && r.v_base <= va
  {
    Or(PageBase(r, va), PageFields(r))
  }

  function Target(r: Rule, va: nat): u32
    requires r.v_base <= va
  {
    (r.p_base + (va - r.v_base)) % TOP
  }

  /** What rule r says about va, an address in one of its pages. */
  function Promise(r: Rule, domain: nat, va: nat): Outcome
    requires |r.access| == 4 && r.v_base <= va
  {
    var quarter := match r.entrytype case L => va / 0x4000 % 4 case S => va / 0x400 % 4 case _ => 0;
    Mapped(Target(r, va), r.access[quarter], domain, r.cb)
  }

  lemma WrapAt(w: nat, q: nat, rem: nat, page: nat, n: nat, top: nat)
    requires rem < page && q < n && n * page == top
    ensures ((w * n + q) * page + rem) % top == q * page + rem && q * page + page <= top
  {
    Distribute(w, n, q, page);
    MulMono(q + 1, n, page);
    Distribute(q, 1, 1, page);
    Div(w, q * page + rem, top);
  }

  /** The page that holds an address, when pages of both spaces are aligned. */
  lemma PageAddress(a: nat, off: nat, page: nat) returns (q: nat)
    requires page == 0x1_0000 || page == 0x1000 || page == 0x400 || page == MB
    ensures (a * page + off / page * page) % TOP == q * page
    ensures q * page + off % page == (a * page + off) % TOP
    ensures q * page + page <= TOP
  {
    var n := if page == 0x1_0000 then 0x1_0000 else if page == 0x1000 then MB else if page == 0x400 then 0x40_0000 else 0x1000;
    var o, rem := off / page, off % page;
    assert off == o * page + rem;
    var w;
    w, q := DivDef(a + o, n);
    Distribute(a, 1, o, page);
    WrapAt(w, q, rem, page, n, TOP);
    WrapAt(w, q, 0, page, n, TOP);
  }

  function Packed(q: nat, a: nat, b: nat, c: nat, d: nat, cb: nat, kind: nat): nat {
    (((((q * 4 + a) * 4 + b) * 4 + c) * 4 + d) * 4 + cb) * 4 + kind
  }

  lemma Unpacked(q: nat, a: nat, b: nat, c: nat, d: nat, cb: nat, kind: nat)
    requires a < 4 && b < 4 && c < 4 && d < 4 && cb < 4 && kind < 4
    ensures var x := Packed(q, a, b, c, d, cb, kind);
            x % 4 == kind && x / 4 % 4 == cb && x / 0x10 % 4 == d && x / 0x40 % 4 == c && x / 0x100 % 4 == b
            && x / 0x400 % 4 == a && x / 0x1000 == q
  {
    var y0 := q * 4 + a;
    var y1 := y0 * 4 + b;
    var y2 := y1 * 4 + c;
    var y3 := y2 * 4 + d;
    var y4 := y3 * 4 + cb;
    var x := y4 * 4 + kind;
    Div(y4, kind, 4);
    Div(y3, cb * 4 + kind, 0x10);
    Div(y2, d * 0x10 + cb * 4 + kind, 0x40);
    Div(y1, c * 0x40 + d * 0x10 + cb * 4 + kind, 0x100);
    Div(y0, b * 0x100 + c * 0x40 + d * 0x10 + cb * 4 + kind, 0x400);
    Div(q, a * 0x400 + b * 0x100 + c * 0x40 + d * 0x10 + cb * 4 + kind, 0x1000);
    Div(y3, cb, 4);
    Div(y2, d, 4);
    Div(y1, c, 4);
    Div(y0, b, 4);
    Div(q, a, 4);
  }

  function PackedFields(q: nat, access: seq<nat>, cb: nat, kind: nat): nat
    requires |access| == 4
  {
    Packed(q, access[3], access[2], access[1], access[0], cb, kind)
  }

  lemma LargePacked(r: Rule, q: nat)
    requires r.Sensible() && r.entrytype == L && q * 0x1_0000 + 0x1_0000 <= TOP
    ensures Or(q * 0x1_0000, PageFields(r)) == PackedFields(q * 0x10, r.access, r.cb, 1)
  {
    AccessAdd(r.access[3], r.access[2], r.access[1], r.access[0], r.cb, 1);
    Powers();
    hide Pow2, Or;
    OrFields(q * 0x1_0000, q, PageFields(r), 16);
  }

  lemma SmallPacked(r: Rule, q: nat)
    requires r.Sensible() && r.entrytype == S && q * 0x1000 + 0x1000 <= TOP
    ensures Or(q * 0x1000, PageFields(r)) == PackedFields(q, r.access, r.cb, 2)
  {
    AccessAdd(r.access[3], r.access[2], r.access[1], r.access[0], r.cb, 2);
    Powers();
    hide Pow2, Or;
    OrFields(q * 0x1000, q, PageFields(r), 12);
  }

  lemma TinyPacked(r: Rule, q: nat)
    requires r.Sensible() && r.entrytype == T && q * 0x400 + 0x400 <= TOP
    ensures Or(q * 0x400, PageFields(r)) == q * 0x400 + r.access[0] * 0x10 + r.cb * 4 + 3
  {
    TinyAdd(r.access[0], r.cb);
    Powers();
    hide Pow2, Or;
    OrFields(q * 0x400, q, PageFields(r), 10);
  }

  lemma LargeDecoded(domain: nat, q: nat, access: seq<nat>, cb: nat, va: u32)
    requires |access| == 4 && (forall i :: 0 <= i < 4 ==> access[i] < 4) && cb < 4
    ensures Walk2(domain, PackedFields(q * 0x10, access, cb, 1), va)
         == Mapped(q * 0x1_0000 + va % 0x1_0000, access[va / 0x4000 % 4], domain, cb)
  {
    Unpacked(q * 0x10, access[3], access[2], access[1], access[0], cb, 1);
    Div(q, PackedFields(0, access, cb, 1), 0x1_0000);
  }

  lemma SmallDecoded(domain: nat, q: nat, access: seq<nat>, cb: nat, va: u32)
    requires |access| == 4 && (forall i :: 0 <= i < 4 ==> access[i] < 4) && cb < 4
    ensures Walk2(domain, PackedFields(q, access, cb, 2), va)
         == Mapped(q * 0x1000 + va % 0x1000, access[va / 0x400 % 4], domain, cb)
  {
    Unpacked(q, access[3], access[2], access[1], access[0], cb, 2);
  }

  lemma TinyDecoded(domain: nat, q: nat, ap: nat, cb: nat, va: u32)
    requires ap < 4 && cb < 4
    ensures Walk2(domain, q * 0x400 + ap * 0x10 + cb * 4 + 3, va) == Mapped(q * 0x400 + va % 0x400, ap, domain, cb)
  {
    Div(q, ap * 0x10 + cb * 4 + 3, 0x400);
    Div(q * 0x40 + ap, cb * 4 + 3, 0x10);
    Div(q * 0x10, ap, 4);
    Div(q * 0x100 + ap * 4 + cb, 3, 4);
    Div(q * 0x40 + ap, cb, 4);
  }

  lemma PageSizes(t: EntryType)
    ensures PageSize(t) == 0x1_0000 || PageSize(t) == 0x1000 || PageSize(t) == 0x400
  {
  }

  lemma PageOf(r: Rule, va: u32) returns (q: nat)
    requires r.v_base <= va
    requires r.v_base % PageSize(r.entrytype) == 0 && r.p_base % PageSize(r.entrytype) == 0
    ensures var page := PageSize(r.entrytype);
            PageBase(r, va) == q * page && q * page + va % page == Target(r, va) && q * page + page <= TOP
  {
    hide PageSize;
    PageSizes(r.entrytype);
    var off, page := va - r.v_base, PageSize(r.entrytype);
    var a, _ := DivDef(r.p_base, page);
    var b, _ := DivDef(r.v_base, page);
    var o, rem := DivDef(off, page);
    q := PageAddress(a, off, page);
    assert va == (b + o) * page + rem by {
      Distribute(b, 1, o, page);
    }
    Div(b + o, rem, page);
  }

  /** The bits of a descriptor: the page address on top, access field 3 to 0, cacheable and bufferable, the kind. */
  lemma DescriptorFields(r: Rule, va: u32)
    requires r.Sensible() && r.v_base <= va && r.entrytype in {L, S, T}
    requires r.v_base % PageSize(r.entrytype) == 0 && r.p_base % PageSize(r.entrytype) == 0
    ensures var page := match r.entrytype case L => 0x1_0000 case S => 0x1000 case _ => 0x400;
            var access := r.access[3] * 0x400 + r.access[2] * 0x100 + r.access[1] * 0x40 + r.access[0] * 0x10;
            Descriptor(r, va) == (r.p_base + va - r.v_base) % 0x1_0000_0000 - va % page
              + match r.entrytype
                case L => access + r.cb * 4 + 1
                case S => access + r.cb * 4 + 2
                case _ => r.access[0] * 0x10 + r.cb * 4 + 3
  {
    hide Or, PageFields, PageBase;
    var q := PageOf(r, va);
    match r.entrytype
    case L => LargePacked(r, q);
    case S => SmallPacked(r, q);
    case T => TinyPacked(r, q);
  }

  /** The second level of the walk undoes the packing of a descriptor. */
  lemma DescriptorDecoded(r: Rule, domain: nat, va: u32)
    requires r.Sensible() && r.v_base <= va && r.entrytype in {L, S, T}
    requires r.v_base % PageSize(r.entrytype) == 0 && r.p_base % PageSize(r.entrytype) == 0
    ensures Walk2(domain, Descriptor(r, va), va) == Promise(r, domain, va)
  {
    hide Walk2, Or, PageFields, PackedFields, PageBase, Target;
    var q := PageOf(r, va);
    match r.entrytype
    case L =>
      LargePacked(r, q);
      LargeDecoded(domain, q, r.access, r.cb, va);
    case S =>
      SmallPacked(r, q);
      SmallDecoded(domain, q, r.access, r.cb, va);
    case T =>
      TinyPacked(r, q);
      TinyDecoded(domain, q, r.access[0], r.cb, va);
  }
}
