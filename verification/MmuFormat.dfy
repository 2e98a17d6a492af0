/** The ARM short descriptors: section B4.7 of the ARM Architecture Reference Manual, DDI 0100I. */
module MmuFormat {
  import opened Words

  const MB := 0x10_0000
  const TOP := 0x1_0000_0000

  function Or(x: int, y: int): (r: u32) {
    Powers();
    OrBits(x, y, 32)
  }

  /** What the hardware finds for a virtual address. Outside: it would have to read beyond the given words. */
  datatype Outcome = Fault | Outside | Mapped(pa: nat, ap: nat, domain: nat, cb: nat)

  /** The word at an address, when words lie in memory from base on. */
  function Fetch(base: nat, words: seq<u32>, address: nat): (r: int) {
    if base <= address && (address - base) / 4 < |words| then words[(address - base) / 4] else -1
  }

  /** Translation table walk, with base in the translation table base register. */
  function Walk(base: nat, words: seq<u32>, va: u32): Outcome {
    var d := Fetch(base, words, base + va / MB * 4);
    if d < 0 then Outside
    else match d % 4
      case 0 => Fault
      case 1 => Walk2(d / 0x20 % 0x10, Fetch(base, words, d / 0x400 * 0x400 + va / 0x1000 % 0x100 * 4), va)
      case 2 => Mapped(d / MB * MB + va % MB, d / 0x400 % 4, d / 0x20 % 0x10, d / 4 % 4)
      case _ => Walk2(d / 0x20 % 0x10, Fetch(base, words, d / 0x1000 * 0x1000 + va / 0x400 % 0x400 * 4), va)
  }

  /** The second level: large pages and small pages have access bits for each quarter of the page. */
  function Walk2(domain: nat, d: int, va: u32): Outcome {
    if d < 0 then Outside
    else match d % 4
      case 0 => Fault
      case 1 => Mapped(d / 0x1_0000 * 0x1_0000 + va % 0x1_0000, Quarter(d, va / 0x4000 % 4), domain, d / 4 % 4)
      case 2 => Mapped(d / 0x1000 * 0x1000 + va % 0x1000, Quarter(d, va / 0x400 % 4), domain, d / 4 % 4)
      case _ => Mapped(d / 0x400 * 0x400 + va % 0x400, d / 0x10 % 4, domain, d / 4 % 4)
  }

  /** The access bits of quarter q. */
  function Quarter(d: nat, q: nat): nat {
    match q
    case 0 => d / 0x10 % 4
    case 1 => d / 0x40 % 4
    case 2 => d / 0x100 % 4
    case _ => d / 0x400 % 4
  }
}
