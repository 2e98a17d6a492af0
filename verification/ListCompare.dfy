/** The two comparators of the list kernel, which rewrite the data they compare. */
module ListCompare {
  import opened Words
  import opened WordBits
  import opened ListCells
  import Crc

  /** The part of `core_results` that the comparators use. */
  class CoreResults {
    const seed3: s16
    // core_bench_state and core_bench_matrix, as functions of dtype and the running crc.
    const benchState: (u8, bv16) -> Word16
    const benchMatrix: (u8, bv16) -> Word16
    var list: ListHead
    var crc: bv16
    var crcstate: Word16
    var crcmatrix: Word16

    constructor (seed3: s16, benchState: (u8, bv16) -> Word16, benchMatrix: (u8, bv16) -> Word16, list: ListHead)
      ensures this.list == list && crc == 0 && crcstate == crcmatrix == Word16(0, 0)
      ensures this.seed3 == seed3 && this.benchState == benchState && this.benchMatrix == benchMatrix
    {
      this.seed3, this.benchState, this.benchMatrix, this.list := seed3, benchState, benchMatrix, list;
      crc, crcstate, crcmatrix := 0, Word16(0, 0), Word16(0, 0);
    }
  }

  /** `f(a, b) <= 0` says that a may stand before b. */
  ghost predicate TotalPreorder(f: (Item, Item) -> int) {
    && (forall a, b :: f(a, b) <= 0 || f(b, a) <= 0)
    && (forall a, b, c :: f(a, b) <= 0 && f(b, c) <= 0 ==> f(a, c) <= 0)
  }

  type Order = f: (Item, Item) -> int | TotalPreorder(f) witness (a: Item, b: Item) => 0

  /** `list_cmp`: the two comparators of the benchmark, which write data, and any total preorder that only reads it. */
  datatype Comparator = CmpComplex | CmpIdx | CmpBy(order: Order)

  ghost function AllItems(): set<Item> {
    set hi: int, lo: int, idx: int | 0 <= hi < 0x100 && 0 <= lo < 0x100 && -0x8000 <= idx < 0x8000 ::
      Item(Word16(hi, lo), idx)
  }

  /** The items that must stand before x. */
  ghost function Below(order: Order, x: Item): set<Item> {
    set y | y in AllItems() && order(x, y) > 0
  }

  lemma AllAreItems(x: Item)
    ensures x in AllItems()
  {
    var hi: int, lo: int, idx: int := x.data16.hi, x.data16.lo, x.idx;
    assert x == Item(Word16(hi, lo), idx);
  }

  lemma ProperSubset<T>(a: set<T>, b: set<T>, x: T)
    requires a <= b && x in b && x !in a
    ensures |a| < |b|
  {
    Subset(a, b - {x});
  }

  lemma {:induction false} Subset<T>(a: set<T>, b: set<T>)
    requires a <= b
    ensures |a| <= |b|
    decreases a
  {
    if a != {} {
      var x :| x in a;
      Subset(a - {x}, b - {x});
    }
  }

  /** A total preorder of the items is the order of a number: how many items must stand before. */
  lemma OrderIsRank(order: Order, a: Item, b: Item)
    ensures order(a, b) <= 0 <==> |Below(order, a)| <= |Below(order, b)|
  {
    hide AllItems;
    if order(a, b) <= 0 {
      Subset(Below(order, a), Below(order, b));
    } else {
      AllAreItems(b);
      assert order(b, b) <= 0;
      ProperSubset(Below(order, b), Below(order, a), b);
    }
  }

  /** Bit 7: the lower seven bits hold a cached function result. */
  predicate Cached(data: Word16) { data.lo >= 0x80 }

  /** data & 0x007f */
  function Low7(data: Word16): (v: u8) {
    if data.lo >= 0x80 then data.lo - 0x80 else data.lo
  }

  /** The upper byte equals the lower byte. */
  predicate Rebuilt(data: Word16) { data.lo == data.hi }

  /** calc_func will not call a benchmark for this word, and its result can be read off from it. */
  predicate Foreseen(data: Word16) {
    Cached(data) || data.lo % 8 >= 2
  }

  /** Bits 3-6, copied into both halves of a byte. */
  function DType(data: Word16): u8 {
    var nibble := Low7(data) / 8;
    nibble * 16 + nibble
  }

  /** The value calc_func computes for data whose cache bit is clear; bits 0-2 choose the operation. */
  function Calculate(data: Word16, res: CoreResults, crc: bv16): Word16 {
    match data.lo % 8
    case 0 => res.benchState(if DType(data) < 0x22 then 0x22 else DType(data), crc)
    case 1 => res.benchMatrix(DType(data), crc)
    case _ => data
  }

  /**
   * What calc_func does, in terms of the bits of the data word w it finds. If bit 7 is set it returns bits 0 to 6 and
   * writes nothing. Otherwise bits 0 to 2 choose the benchmark and bits 3 to 6, taken twice, are its dtype; the result
   * enters the crc, its low seven bits are returned and cached, and the first result of each benchmark is recorded.
   */
  ghost predicate Calculated(w: bv16, w': bv16, retval: u8, res: CoreResults, crc: bv16, crc': bv16,
                             crcstate: Word16, crcstate': Word16, crcmatrix: Word16, crcmatrix': Word16)
  {
    if w & 0x80 != 0 then
      retval as int == (w & 0x7f) as int && w' == w && crc' == crc && crcstate' == crcstate && crcmatrix' == crcmatrix
    else
      var dtype: int := ((w >> 3) & 0xf) as int * 0x11;
      var op := (w & 7) as int;
      var value := if op == 0 then Bits(res.benchState(if dtype < 0x22 then 0x22 else dtype, crc))
                   else if op == 1 then Bits(res.benchMatrix(dtype, crc)) else w;
      && retval as int == (value & 0x7f) as int && w' == (w & 0xff00) | 0x80 | (value & 0x7f)
      && crc' == Crc.CrcU16(value, crc)
      && (Bits(crcstate') == if op == 0 && crcstate == Word16(0, 0) then value else Bits(crcstate))
      && (Bits(crcmatrix') == if op == 1 && crcmatrix == Word16(0, 0) then value else Bits(crcmatrix))
  }

  lemma Low7Is(d: Word16)
    ensures Low7(d) as int == d.lo as int % 0x80
  {
  }

  /** The low byte of the new data word: bit 7 and seven bits of the result. */
  lemma NewLowByte(value: Word16)
    ensures (0x80 + Low7(value) as int) as bv8 == 0x80 | ((value.lo as bv8) & 0x7f)
  {
    hide Low7;
    Low7Is(value);
    ByteValue(value.lo);
    var b := value.lo as bv8;
    ByteFields(b);
    SetTopBit(b);
    ByteAgain(0x80 | (b & 0x7f));
  }

  lemma SetTopBit(b: bv8)
    ensures (0x80 | (b & 0x7f)) as int == 0x80 + (b & 0x7f) as int
  {
  }

  lemma NewBytes(hi: bv8, lo: bv8, vhi: bv8, vlo: bv8)
    ensures (hi as bv16 << 8) | (0x80 | (vlo & 0x7f)) as bv16
         == (((hi as bv16 << 8) | lo as bv16) & 0xff00) | 0x80 | (((vhi as bv16 << 8) | vlo as bv16) & 0x7f)
  {
  }

  /** The new data word. */
  lemma NewWord(data: Word16, value: Word16)
    ensures Bits(Word16(data.hi, 0x80 + Low7(value))) == (Bits(data) & 0xff00) | 0x80 | (Bits(value) & 0x7f)
  {
    hide Low7;
    NewLowByte(value);
    NewBytes(data.hi as bv8, data.lo as bv8, value.hi as bv8, value.lo as bv8);
  }

  lemma TypeIs(data: Word16)
    requires !Cached(data)
    ensures DType(data) as int == ((Bits(data) >> 3) & 0xf) as int * 0x11
    ensures Bits(data) & 0x80 == 0 && (Bits(data) & 7) as int == data.lo as int % 8
  {
    hide Bits, Low7;
    LowerFields(data);
    Low7Is(data);
  }

  /** The cached case. */
  lemma CachedIs(data: Word16, res: CoreResults, crc: bv16, crcstate: Word16, crcmatrix: Word16)
    requires Cached(data)
    ensures Calculated(Bits(data), Bits(data), Low7(data), res, crc, crc, crcstate, crcstate, crcmatrix, crcmatrix)
  {
    hide Bits, Low7;
    LowerFields(data);
    Low7Is(data);
  }

  /** The other case. */
  lemma CalculatedIs(data: Word16, value: Word16, res: CoreResults, crc: bv16, crcstate: Word16, crcmatrix: Word16)
    requires value == Calculate(data, res, crc) && !Cached(data)
    ensures Calculated(Bits(data), Bits(Word16(data.hi, 0x80 + Low7(value))), Low7(value), res,
                       crc, Crc.CrcWord(value, crc),
                       crcstate, if data.lo % 8 == 0 && crcstate == Word16(0, 0) then value else crcstate,
                       crcmatrix, if data.lo % 8 == 1 && crcmatrix == Word16(0, 0) then value else crcmatrix)
  {
    hide Bits, Low7, DType, Crc.CrcWord, Crc.CrcU16;
    TypeIs(data);
    NewWord(data, value);
    LowerFields(value);
    Low7Is(value);
    Crc.CrcWordIs(value, crc);
  }

  method CalcFunc(d: ListData, res: CoreResults) returns (retval: u8)
    modifies d`data16, res`crc, res`crcstate, res`crcmatrix
    ensures Cached(d.data16) && d.data16.hi == old(d.data16.hi)
    ensures retval == Low7(d.data16)
    ensures if old(Cached(d.data16)) then
              d.data16 == old(d.data16) && res.crc == old(res.crc)
            else
              var value := Calculate(old(d.data16), res, old(res.crc));
              retval == Low7(value) && res.crc == Crc.CrcWord(value, old(res.crc))
    ensures KeyForeseen(CmpComplex, d)
    ensures Calculated(Bits(old(d.data16)), Bits(d.data16), retval, res, old(res.crc), res.crc,
                       old(res.crcstate), res.crcstate, old(res.crcmatrix), res.crcmatrix)
  {
    hide Calculated, Bits, DType, Crc.CrcWord;
    var data := d.data16;
    ghost var crc, crcstate, crcmatrix := res.crc, res.crcstate, res.crcmatrix;
    if Cached(data) {
      CachedIs(data, res, crc, crcstate, crcmatrix);
      return Low7(data);
    }
    var dtype := DType(data);
    var value: Word16;
    if data.lo % 8 == 0 {
      if dtype < 0x22 {
        dtype := 0x22;
      }
      value := res.benchState(dtype, res.crc);
      if res.crcstate == Word16(0, 0) {
        res.crcstate := value;
      }
    } else if data.lo % 8 == 1 {
      value := res.benchMatrix(dtype, res.crc);
      if res.crcmatrix == Word16(0, 0) {
        res.crcmatrix := value;
      }
    } else {
      value := data;
    }
    res.crc := Crc.CrcWord(value, res.crc);
    retval := Low7(value);
    d.data16 := Word16(data.hi, 0x80 + retval);
    CalculatedIs(data, value, res, crc, crcstate, crcmatrix);
  }

  /** What a comparator sorts by, once it has looked at the cell. */
  ghost function Key(cmp: Comparator, d: ListData): int
    reads d
  {
    match cmp
    case CmpComplex => Low7(d.data16)
    case CmpIdx => d.idx
    case CmpBy(order) => |Below(order, ItemOf(d))|
  }

  /** The comparator has already looked at the cell, so it will not change it again. */
  predicate Settled(cmp: Comparator, res: CoreResults?, d: ListData)
    reads d
  {
    match cmp
    case CmpComplex => Cached(d.data16)
    case CmpIdx => res == null ==> Rebuilt(d.data16)
    case CmpBy(_) => true
  }

  /** What no comparator ever changes: the index and the backup byte. */
  twostate predicate BackupKept(d: ListData)
    reads d
  {
    d.idx == old(d.idx) && d.data16.hi == old(d.data16.hi)
  }

  /** A result that could be foreseen is the one that is now cached. */
  twostate predicate KeyForeseen(cmp: Comparator, d: ListData)
    reads d
  {
    cmp.CmpComplex? && Foreseen(old(d.data16)) ==> Foreseen(d.data16) && Low7(d.data16) == old(Low7(d.data16))
  }

  /** The objects behind a possibly NULL results pointer. */
  function ResultsOf(res: CoreResults?): set<CoreResults> {
    if res == null then {} else {res}
  }

  /** Nothing is lost, and a data word the comparator had already looked at is not changed at all. */
  twostate predicate DataKept(cmp: Comparator, res: CoreResults?, d: ListData)
    reads d
  {
    BackupKept(d) && KeyForeseen(cmp, d) && (old(Settled(cmp, res, d)) ==> d.data16 == old(d.data16))
  }

  method Compare(cmp: Comparator, a: ListData, b: ListData, res: CoreResults?) returns (r: int)
    requires cmp.CmpComplex? ==> res != null
    modifies a`data16, b`data16, ResultsOf(res)`crc, ResultsOf(res)`crcstate, ResultsOf(res)`crcmatrix
    ensures Settled(cmp, res, a) && Settled(cmp, res, b)
    ensures r <= 0 <==> Key(cmp, a) <= Key(cmp, b)
    ensures match cmp
            case CmpBy(order) => r == order(ItemOf(a), ItemOf(b))
            case _ => r == Key(cmp, a) - Key(cmp, b)
    ensures DataKept(cmp, res, a) && DataKept(cmp, res, b)
    ensures old(Settled(cmp, res, a)) ==> Key(cmp, a) == old(Key(cmp, a))
    ensures old(Settled(cmp, res, b)) ==> Key(cmp, b) == old(Key(cmp, b))
  {
    hide Calculated, Calculate;
    match cmp
    case CmpComplex =>
      var val1 := CalcFunc(a, res);
      var val2 := CalcFunc(b, res);
      r := val1 as int - val2 as int;
    case CmpIdx =>
      if res == null {
        a.data16 := Word16(a.data16.hi, a.data16.hi);
        b.data16 := Word16(b.data16.hi, b.data16.hi);
      }
      r := a.idx - b.idx;
    case CmpBy(order) =>
      r := order(ItemOf(a), ItemOf(b));
      OrderIsRank(order, ItemOf(a), ItemOf(b));
  }
}
