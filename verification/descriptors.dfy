/** The 4KB-granule translation descriptors of DDI 0487 section D8.3, as the builders
    encode them and as the hardware decodes them. */
module Descriptors {
  import opened Words

  const ADDRESS_MASK: Word := 0x0000_ffff_ffff_f000  // PA_48_MASK & PAGE_MASK
  const PAGE_MASK: Word := 0xffff_ffff_ffff_f000
  const INPUT_LIMIT: int := 0x80_0000_0000           // 39 input address bits
  const PAGES: int := 0x800_0000                     // 2^27 pages below INPUT_LIMIT

  /** The arguments of a mapping request: stage 2 (s2_map_page) or EL2 stage 1 (map_page). */
  datatype Attr =
    | S2(read: bool, write: bool, exec: bool)
    | El2(attrIdx: nat, ro: bool, exec: bool)

  /** The leaf descriptor written for one page, as the C expression builds it. */
  function LeafBits(attr: Attr, pa: Word): nat {
    match attr
    case S2(read, write, exec) =>
      var desc := Or(Or(Or(Or(Or(Or(And(pa, ADDRESS_MASK), 0x3), 0x400), 0x300), 0),
                        if read then 0x40 else 0),
                     if write then 0x80 else 0);
      if exec then desc else Or(desc, 0x40_0000_0000_0000)
    case El2(idx, ro, exec) =>
      var desc := Or(Or(Or(Or(And(pa, ADDRESS_MASK), 0x3), idx % 8 * 4), 0x300), 0x400);
      var desc' := if ro then Or(desc, 0x80) else desc;
      if exec then desc' else Or(desc', 0x60_0000_0000_0000)
  }

  /** Bits 11:0 of a leaf: type, attribute index, access permissions, shareability, AF. */
  function LowFlags(attr: Attr): nat {
    match attr
    case S2(read, write, _) => 0x703 + (if read then 0x40 else 0) + (if write then 0x80 else 0)
    case El2(idx, ro, _) => 0x703 + idx % 8 * 4 + (if ro then 0x80 else 0)
  }

  /** Bits 63:48 of a leaf, in units of 2^48. */
  function HighFlags(attr: Attr): nat {
    match attr
    case S2(_, _, exec) => if exec then 0 else 0x40
    case El2(_, _, exec) => if exec then 0 else 0x60
  }

  lemma OrTop(lo: nat, flags: nat)
    requires lo < 0x1_0000_0000_0000
    ensures Or(lo, flags * 0x1_0000_0000_0000) == flags * 0x1_0000_0000_0000 + lo
  {
    Powers();
    Scale(flags, 48, 0x1_0000_0000_0000);
    OrHigh(lo, flags, 48);
  }

  /** The low twelve bits of a stage-2 leaf, field by field. */
  lemma S2LowFields(frame: nat, read: bool, write: bool)
    ensures Or(Or(Or(Or(Or(Or(frame * 0x1000, 0x3), 0x400), 0x300), 0), if read then 0x40 else 0), if write then 0x80 else 0)
         == frame * 0x1000 + LowFlags(S2(read, write, true))
  {
    hide And, Or, Pow2;
    Powers();
    OrInsert(frame, 0, 3, 0, 12, 1, 0x1000);
    OrInsert(frame, 3, 1, 10, 12, 0x400, 0x1000);
    OrInsert(frame * 4 + 1, 3, 3, 8, 10, 0x100, 0x400);
    var d := frame * 0x1000 + 0x703;
    Zeros(d);
    OrInsert(frame * 0x10 + 7, 3, 1, 6, 8, 0x40, 0x100);
    var d' := if read then d + 0x40 else d;
    Zeros(d');
    OrInsert(frame * 0x10 + 7, if read then 0x43 else 3, 1, 7, 8, 0x80, 0x100);
  }

  /** The low twelve bits of an EL2 leaf, field by field. */
  lemma El2LowFields(frame: nat, idx: nat)
    requires idx < 8
    ensures Or(Or(Or(Or(frame * 0x1000, 0x3), idx * 4), 0x300), 0x400) == frame * 0x1000 + 0x703 + idx * 4
    ensures Or(frame * 0x1000 + 0x703 + idx * 4, 0x80) == frame * 0x1000 + 0x783 + idx * 4
  {
    hide And, Or, Pow2;
    Powers();
    OrInsert(frame, 0, 3, 0, 12, 1, 0x1000);
    OrInsert(frame, 3, idx, 2, 12, 4, 0x1000);
    OrInsert(frame, 3 + idx * 4, 3, 8, 12, 0x100, 0x1000);
    OrInsert(frame, 0x303 + idx * 4, 1, 10, 12, 0x400, 0x1000);
    OrInsert(frame * 0x10 + 7, 3 + idx * 4, 1, 7, 8, 0x80, 0x100);
  }

  /** No two fields of a leaf overlap: the `|` chain is the sum of its fields. */
  lemma LeafFields(attr: Attr, pa: Word)
    ensures LeafBits(attr, pa) ==
            pa / 0x1000 % 0x10_0000_0000 * 0x1000 + LowFlags(attr) + HighFlags(attr) * 0x1_0000_0000_0000
  {
    hide And, Or;
    var frame := pa / 0x1000 % 0x10_0000_0000;
    AndAddressMask(pa);
    match attr
    case S2(read, write, _) =>
      S2LowFields(frame, read, write);
      OrTop(frame * 0x1000 + LowFlags(attr), 0x40);
    case El2(idx, _, _) =>
      El2LowFields(frame, idx % 8);
      OrTop(frame * 0x1000 + LowFlags(attr), 0x60);
  }

  /** Bits 4:2 of a leaf hold its MAIR index (stage 2 always asks for index 0) and bits 9:8 say
      inner shareable. */
  lemma MemoryAttributes(attr: Attr, pa: Word)
    ensures LeafBits(attr, pa) / 4 % 8 == match attr case S2(_, _, _) => 0 case El2(idx, _, _) => idx % 8
    ensures LeafBits(attr, pa) / 0x100 % 4 == 3
  {
    hide LeafBits, And, Or;
    LeafFields(attr, pa);
    FlagDigits(attr);
    hide LowFlags, HighFlags;
    var frame := pa / 0x1000 % 0x10_0000_0000;
    LowDigits(frame + HighFlags(attr) * 0x10_0000_0000, LowFlags(attr));
  }

  lemma FlagDigits(attr: Attr)
    ensures LowFlags(attr) < 0x1000 && LowFlags(attr) / 0x100 % 4 == 3
    ensures LowFlags(attr) / 4 % 8 == match attr case S2(_, _, _) => 0 case El2(idx, _, _) => idx % 8
  {
  }

  lemma LowDigits(n: nat, low: nat)
    requires low < 0x1000
    ensures (n * 0x1000 + low) / 4 % 8 == low / 4 % 8
    ensures (n * 0x1000 + low) / 0x100 % 4 == low / 0x100 % 4
  {
    DivModUnique(n * 0x1000 + low, 4, n * 0x400 + low / 4, low % 4);
    DivModUnique(n * 0x400 + low / 4, 8, n * 0x80 + low / 4 / 8, low / 4 % 8);
    DivModUnique(n * 0x1000 + low, 0x100, n * 0x10 + low / 0x100, low % 0x100);
    DivModUnique(n * 0x10 + low / 0x100, 4, n * 4 + low / 0x100 / 4, low / 0x100 % 4);
  }

  function Leaf(attr: Attr, pa: Word): Word {
    LeafFields(attr, pa);
    LeafBits(attr, pa)
  }

  /** The table descriptor written for a table at address `a` (s2_mmu.c keeps PA_48_MASK). */
  function TableBits(a: Word): nat {
    Or(And(a, ADDRESS_MASK), 0x3)
  }

  /** The EL2 builder masks with PAGE_MASK alone. */
  function TableBitsEl2(a: Word): nat {
    Or(And(a, PAGE_MASK), 0x3)
  }

  /** Both builders write the same descriptor for a table in a pool at `base`, and it decodes
      to the table's address. */
  lemma TableFields(base: Word, pages: nat)
    requires base % 0x1000 == 0 && base + 0x1000 * pages < 0x1_0000_0000_0000
    ensures var a := base + 0x1000 * pages;
            && TableBits(a) == TableBitsEl2(a) == a + 3
            && And(a + 3, ADDRESS_MASK) == a
            && (a + 3) % 4 == 3
  {
    hide And, Or, Pow2;
    var n := base / 0x1000 + pages;
    var a := base + 0x1000 * pages;
    assert a == n * 0x1000;
    DivModUnique(a, 0x1000, n, 0);
    DivModUnique(a + 3, 0x1000, n, 3);
    DivModUnique(a + 3, 4, n * 0x400, 3);
    AndAddressMask(a);
    AndPageMask(a);
    AndAddressMask(a + 3);
    Powers();
    OrInsert(n, 0, 3, 0, 12, 1, 0x1000);
  }

  // ----- What the hardware reads -----

  /** Which translation regime interprets a leaf. */
  datatype Regime = Stage2 | El2Stage1

  datatype Translation =
    | Fault
    | Mapped(pa: int, read: bool, write: bool, exec: bool)

  /** A descriptor found by a walk, with the number of input bytes it maps. */
  datatype Walked = NoLeaf | Found(desc: Word, span: nat)

  predicate Bit(d: nat, weight: nat)
    requires weight > 0
  {
    d / weight % 2 == 1
  }

  /** S2AP[0]/S2AP[1] at bits 6 and 7 and XN at bit 54 for stage 2; AP[2] at bit 7 and XN at
      bit 54 for EL2 stage 1. A clear access flag (bit 10) faults. */
  function Translate(regime: Regime, w: Walked, x: int): Translation {
    if w.NoLeaf? || w.span == 0 || !Bit(w.desc, 0x400) then Fault
    else
      var pa := And(w.desc, ADDRESS_MASK) / w.span * w.span + x % w.span;
      match regime
      case Stage2 => Mapped(pa, Bit(w.desc, 0x40), Bit(w.desc, 0x80), !Bit(w.desc, 0x40_0000_0000_0000))
      case El2Stage1 => Mapped(pa, true, !Bit(w.desc, 0x80), !Bit(w.desc, 0x40_0000_0000_0000))
  }

  /** What a request asks for, with no bits in sight. */
  function Intended(attr: Attr, pa: int): Translation {
    match attr
    case S2(read, write, exec) => Mapped(pa, read, write, exec)
    case El2(_, ro, exec) => Mapped(pa, true, !ro, exec)
  }

  function RegimeOf(attr: Attr): Regime {
    if attr.S2? then Stage2 else El2Stage1
  }

  /** The bit of weight w, with 2 * w * n == 0x1000, does not depend on bits 12 and up. */
  lemma LowBit(top: nat, lo: nat, w: nat, n: nat)
    requires w > 0 && 2 * w * n == 0x1000
    ensures Bit(top * 0x1000 + lo, w) == Bit(lo, w)
  {
    var q := lo / w;
    assert lo == q * w + lo % w;
    assert top * 0x1000 == top * (2 * n) * w by {
      assert top * (2 * n) * w == top * (2 * w * n);
    }
    assert (top * (2 * n) + q) * w == top * (2 * n) * w + q * w;
    DivModUnique(top * 0x1000 + lo, w, top * (2 * n) + q, lo % w);
    assert top * (2 * n) == 2 * (top * n);
  }

  /** The flag bits 0 to 11 do not depend on the bits above them. */
  lemma LowBits(top: nat, lo: nat)
    requires lo < 0x1000
    ensures var d := top * 0x1000 + lo;
            && d / 0x1000 == top && d % 4 == lo % 4
            && Bit(d, 0x40) == Bit(lo, 0x40) && Bit(d, 0x80) == Bit(lo, 0x80)
            && Bit(d, 0x400) == Bit(lo, 0x400)
  {
    hide Bit;
    DivModUnique(top * 0x1000 + lo, 0x1000, top, lo);
    LowBit(top, lo, 0x40, 0x20);
    LowBit(top, lo, 0x80, 0x10);
    LowBit(top, lo, 0x400, 2);
  }

  /** Reading one field of a descriptor ignores the others. */
  lemma FieldBits(frame: nat, lo: nat, hi: nat)
    requires frame < 0x10_0000_0000 && lo < 0x1000 && hi < 0x1_0000
    ensures var d := frame * 0x1000 + lo + hi * 0x1_0000_0000_0000;
            && And(d, ADDRESS_MASK) == frame * 0x1000
            && d % 4 == lo % 4
            && Bit(d, 0x40) == Bit(lo, 0x40) && Bit(d, 0x80) == Bit(lo, 0x80)
            && Bit(d, 0x400) == Bit(lo, 0x400)
            && Bit(d, 0x40_0000_0000_0000) == Bit(hi, 0x40)
  {
    hide And, Bit;
    var top := frame + hi * 0x10_0000_0000;
    var d := frame * 0x1000 + lo + hi * 0x1_0000_0000_0000;
    assert d == top * 0x1000 + lo;
    LowBits(top, lo);
    AndAddressMask(d);
    DivModUnique(top, 0x10_0000_0000, hi, frame);
    TopBit(frame * 0x1000 + lo, hi);
  }

  lemma TopBit(rest: nat, hi: nat)
    requires rest < 0x1_0000_0000_0000 && hi < 0x1_0000
    ensures Bit(hi * 0x1_0000_0000_0000 + rest, 0x40_0000_0000_0000) == Bit(hi, 0x40)
  {
    DivModUnique(hi * 0x1_0000_0000_0000 + rest, 0x40_0000_0000_0000, hi / 0x40,
                 hi % 0x40 * 0x1_0000_0000_0000 + rest);
  }

  /** What the flag fields of a leaf say. */
  lemma FlagValues(attr: Attr)
    ensures var lo, hi := LowFlags(attr), HighFlags(attr);
            && lo % 4 == 3 && Bit(lo, 0x400)
            && (attr.S2? ==> Bit(lo, 0x40) == attr.read && Bit(lo, 0x80) == attr.write && Bit(hi, 0x40) == !attr.exec)
            && (attr.El2? ==> Bit(lo, 0x80) == attr.ro && Bit(hi, 0x40) == !attr.exec)
  {
  }

  /** Encode then decode: the hardware reads back the requested address and permissions. */
  lemma LeafDecodes(attr: Attr, pa: Word, x: int)
    ensures Leaf(attr, pa) % 4 == 3
    ensures Translate(RegimeOf(attr), Found(Leaf(attr, pa), 0x1000), x)
         == Intended(attr, pa / 0x1000 % 0x10_0000_0000 * 0x1000 + x % 0x1000)
  {
    hide And, Or, LeafBits, Bit;
    LeafFields(attr, pa);
    var frame, lo, hi := pa / 0x1000 % 0x10_0000_0000, LowFlags(attr), HighFlags(attr);
    FieldBits(frame, lo, hi);
    FlagValues(attr);
    DivModUnique(frame * 0x1000, 0x1000, frame, 0);
  }
}
