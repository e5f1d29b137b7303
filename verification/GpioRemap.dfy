/**
 GPIO_PinRemapConfig: which pins a peripheral uses, kept in fields of PCFR1 and PCFR2, some of them split over both
 registers, and set by codes that pack where the field is with its value.
 */
module GpioRemap {

  const POSITION_MASK: bv32 := 0x000F_0000
  const LOCATION_MASK: bv32 := 0x0020_0000
  const NUMBITS_MASK: bv32 := 0x0010_0000
  const REMAP_MASK: bv32 := 0xC000_0000
  const REMAP_NUM_MASK: bv32 := 0x3800_0000
  const LSB_MASK: bv32 := 0x0000_FFFF

  // ----- The plain picture: each peripheral has a mapping number

  datatype Peripheral =
    SPI1 | I2C1 | USART1 | USART2 | TIM1 | TIM2 | USART3 | TIM3 | TIM4 | CAN1 | PD01 | USART4 | LPTIM

  /** The bits of a peripheral's field in PCFR1, */
  function Mask1(p: Peripheral): bv32 {
    match p
    case SPI1 => 0x0001
    case I2C1 => 0x0002
    case USART1 => 0x0004
    case USART2 => 0x0008
    case TIM1 => 0x00C0
    case TIM2 => 0x0300
    case USART3 => 0x0030
    case TIM3 => 0x0400
    case TIM4 => 0x1000
    case CAN1 => 0x6000
    case PD01 => 0x8000
    case USART4 => 0
    case LPTIM => 0
  }

  /** and in PCFR2. */
  function Mask2(p: Peripheral): bv32 {
    match p
    case SPI1 => 0x0100_0000
    case I2C1 => 0x0080_0000
    case USART1 => 0x0018_0000
    case USART2 => 0x0004_0000
    case TIM1 => 0x0040_0000
    case TIM2 => 0x0020_0000
    case USART4 => 0x0001_0000
    case LPTIM => 0x0200_0000
    case _ => 0
  }

  /** The mapping number, from the two parts of the field; PCFR2 holds the upper bits. */
  function Number(p: Peripheral, part1: bv32, part2: bv32): bv32 {
    match p
    case SPI1 => part1 | (part2 >> 23)
    case I2C1 => (part1 >> 1) | (part2 >> 22)
    case USART1 => (part1 >> 2) | (part2 >> 18)
    case USART2 => (part1 >> 3) | (part2 >> 17)
    case TIM1 => (part1 >> 6) | (part2 >> 20)
    case TIM2 => (part1 >> 8) | (part2 >> 19)
    case USART3 => part1 >> 4
    case TIM3 => part1 >> 10
    case TIM4 => part1 >> 12
    case CAN1 => part1 >> 13
    case PD01 => part1 >> 15
    case USART4 => part2 >> 16
    case LPTIM => part2 >> 25
  }

  /** The codes of the header file, but for the one that disables the debug port: the peripheral and the mapping each
      one names. */
  predicate Names(code: bv32, p: Peripheral, n: bv32) {
    match p
    case SPI1 => (code == 0xC000_0001 && n == 1) || (code == 0xC100_0000 && n == 2) || (code == 0xC100_0001 && n == 3)
    case I2C1 => (code == 0xC880_0000 && n == 2) || (code == 0xC880_0002 && n == 3)
    case USART1 =>
      || (code == 0xD000_0004 && n == 1) || (code == 0xD008_0000 && n == 2) || (code == 0xD008_0004 && n == 3)
      || (code == 0xD010_0000 && n == 4) || (code == 0xD010_0004 && n == 5)
    case USART2 => (code == 0xD800_0008 && n == 1) || (code == 0xD804_0000 && n == 2) || (code == 0xD804_0008 && n == 3)
    case TIM1 =>
      || (code == 0xE000_0040 && n == 1) || (code == 0xE000_0080 && n == 2) || (code == 0xE000_00C0 && n == 3)
      || (code == 0xE040_0000 && n == 4) || (code == 0xE040_0040 && n == 5) || (code == 0xE040_00C0 && n == 7)
    case TIM2 =>
      || (code == 0xE800_0100 && n == 1) || (code == 0xE800_0200 && n == 2) || (code == 0xE800_0300 && n == 3)
      || (code == 0xE820_0000 && n == 4) || (code == 0xE820_0100 && n == 5) || (code == 0xE820_0300 && n == 7)
    case USART3 => (code == 0x0014_0020 && n == 2) || (code == 0x0014_0030 && n == 3)
    case TIM3 => code == 0x0000_0400 && n == 1
    case TIM4 => code == 0x0000_1000 && n == 1
    case CAN1 => (code == 0x001D_4000 && n == 2) || (code == 0x001D_6000 && n == 3)
    case PD01 => code == 0x0000_8000 && n == 1
    case USART4 => code == 0x4000_0001 && n == 1
    case LPTIM => code == 0x4000_0200 && n == 1
  }

  /** The code that disables the debug port. */
  const DISABLE_SWJ: bv32 := 0x0030_0400

  /** The field SW_CFG of PCFR1, all that DBGAFR_SWJCFG_MASK leaves out. */
  const SW_CFG: bv32 := 0x0700_0000

  datatype Pcfr = Pcfr(one: bv32, two: bv32)

  function Part(w: bv32, mask: bv32): bv32 {
    w & mask
  }

  function Mapping(r: Pcfr, p: Peripheral): bv32 {
    Number(p, Part(r.one, Mask1(p)), Part(r.two, Mask2(p)))
  }

  /** The bits that belong neither to a field nor to SW_CFG. */
  const REST1: bv32 := 0xF8FF_0800
  const REST2: bv32 := 0xFC02_FFFF

  // ----- Bits

  function Cut(w: bv32, mask: bv32): bv32 {
    w & !mask
  }

  function Join(w: bv32, bits: bv32): bv32 {
    w | bits
  }

  predicate Apart(a: bv32, b: bv32) {
    a & b == 0
  }

  /** The bits lie in a field. */
  predicate Within(bits: bv32, mask: bv32) {
    bits & !mask == 0
  }

  /** A register whose field now holds `v`. Nothing else has changed but what `swCfg` covers. */
  ghost predicate Replaced(was: bv32, now: bv32, mask: bv32, v: bv32, swCfg: bv32) {
    && Part(now, mask) == v
    && forall x: bv32 :: Apart(mask, x) && Apart(swCfg, x) ==> Part(now, x) == Part(was, x)
  }

  lemma PartOfJoin(w: bv32, bits: bv32, x: bv32)
    requires Apart(bits, x)
    ensures Part(Join(w, bits), x) == Part(w, x)
  {
  }

  lemma JoinedHere(w: bv32, bits: bv32, mask: bv32)
    requires Part(w, mask) == 0
    ensures Part(Join(w, bits), mask) == Part(bits, mask)
  {
  }

  lemma WithinApart(bits: bv32, mask: bv32, x: bv32)
    requires Within(bits, mask) && Apart(mask, x)
    ensures Apart(bits, x)
  {
  }

  lemma CutReplaces(w: bv32, mask: bv32)
    ensures Replaced(w, Cut(w, mask), mask, 0, 0)
  {
  }

  lemma JoinReplaces(was: bv32, w: bv32, bits: bv32, mask: bv32, swCfg: bv32)
    requires Replaced(was, w, mask, 0, swCfg) && Within(bits, mask)
    ensures Replaced(was, Join(w, bits), mask, Part(bits, mask), swCfg)
  {
    JoinedHere(w, bits, mask);
    forall x: bv32 | Apart(mask, x) && Apart(swCfg, x)
      ensures Part(Join(w, bits), x) == Part(was, x)
    {
      WithinApart(bits, mask, x);
      PartOfJoin(w, bits, x);
    }
  }

  lemma SwCfgReplaces(was: bv32, w: bv32, mask: bv32, v: bv32)
    requires Replaced(was, w, mask, v, 0) && Apart(SW_CFG, mask)
    ensures Replaced(was, Join(w, SW_CFG), mask, v, SW_CFG)
  {
  }

  lemma FieldsApart(p: Peripheral, q: Peripheral)
    requires p != q
    ensures Apart(Mask1(p), Mask1(q)) && Apart(Mask2(p), Mask2(q))
  {
  }

  lemma SwCfgApart(q: Peripheral)
    ensures Apart(SW_CFG, Mask1(q)) && Apart(0, Mask2(q))
  {
  }

  /** Every bit of PCFR1 is of a field, of SW_CFG, or of the rest; `FieldsApart` and `RestApart` say that these do not
      overlap. */
  lemma AllOfFirst()
    ensures Mask1(SPI1) | Mask1(I2C1) | Mask1(USART1) | Mask1(USART2) | Mask1(TIM1) | Mask1(TIM2) | Mask1(USART3)
      | Mask1(TIM3) | Mask1(TIM4) | Mask1(CAN1) | Mask1(PD01) | 0x0700_0000 | REST1 == 0xFFFF_FFFF
  {
  }

  /** And every bit of PCFR2 is of a field or of the rest. */
  lemma AllOfSecond()
    ensures Mask2(SPI1) | Mask2(I2C1) | Mask2(USART1) | Mask2(USART2) | Mask2(TIM1) | Mask2(TIM2) | Mask2(USART4)
      | Mask2(LPTIM) | REST2 == 0xFFFF_FFFF
  {
  }

  lemma RestApart(p: Peripheral)
    ensures Apart(Mask1(p), REST1) && Apart(Mask2(p), REST2) && Apart(SW_CFG, REST1) && Apart(0, REST2)
  {
  }

  /** The bits outside every field are what they were. */
  predicate RestKept(was: Pcfr, now: Pcfr) {
    Part(now.one, REST1) == Part(was.one, REST1) && Part(now.two, REST2) == Part(was.two, REST2)
  }

  /** The peripheral named has the mapping, and every other one and every other bit what it had. */
  ghost predicate Remapped(was: Pcfr, now: Pcfr, p: Peripheral, n: bv32) {
    && (forall q :: Mapping(now, q) == if q == p then n else Mapping(was, q))
    && RestKept(was, now)
  }

  lemma FieldRemapped(r: Pcfr, now: Pcfr, p: Peripheral, v1: bv32, v2: bv32)
    requires Replaced(r.one, now.one, Mask1(p), v1, SW_CFG) && Replaced(r.two, now.two, Mask2(p), v2, 0)
    ensures Remapped(r, now, p, Number(p, v1, v2))
  {
    forall q
      ensures Mapping(now, q) == if q == p then Number(p, v1, v2) else Mapping(r, q)
    {
      if q != p {
        FieldsApart(p, q);
        SwCfgApart(q);
      }
    }
    RestApart(p);
  }

  // ----- The codes

  /** Where the first branch clears, by the number in the code. */
  function Clear1(number: bv32): bv32 {
    if number == 0 then 1 << 0 else if number == 1 then 1 << 1 else if number == 2 then 1 << 2
    else if number == 3 then 1 << 3 else if number == 4 then 3 << 6 else if number == 5 then 3 << 8 else 0
  }

  function Clear2(number: bv32): bv32 {
    if number == 0 then 1 << 24 else if number == 1 then 1 << 23 else if number == 2 then 3 << 19
    else if number == 3 then 1 << 18 else if number == 4 then 1 << 22 else if number == 5 then 1 << 21 else 0
  }

  function NumberIn(code: bv32): bv32 {
    (code & REMAP_NUM_MASK) >> 27
  }

  /** What the first branch sets in either register. */
  function LowBits(code: bv32): bv32 {
    code & 0xFFFF
  }

  function HighBits(code: bv32): bv32 {
    code & 0x01FF_0000
  }

  /** Where the second and the third branch clear. */
  function Second(code: bv32): bv32 {
    (code & !REMAP_MASK) << 16
  }

  function Third(code: bv32): bv32
    requires code < 0x40_0000
  {
    if code & NUMBITS_MASK == NUMBITS_MASK then 3 << ((code & POSITION_MASK) >> 16)
    else (code & LSB_MASK) << ((code >> 21) * 16)
  }

  /** The code has both marks of the three-bit field. */
  predicate NamesSwj(code: bv32) {
    code & (LOCATION_MASK | NUMBITS_MASK) == LOCATION_MASK | NUMBITS_MASK
  }

  /** The value the third branch sets, moved to the upper half for a code with the location mark. */
  function Moved(code: bv32): bv32
    requires code < 0x40_0000
  {
    (code & LSB_MASK) << (((code & 0x7FFF_FFFF) >> 21) * 16)
  }

  lemma BothCodes(code: bv32, p: Peripheral, n: bv32)
    requires Names(code, p, n) && code & 0xC000_0000 == 0xC000_0000
    ensures Clear1(NumberIn(code)) == Mask1(p) && Clear2(NumberIn(code)) == Mask2(p) && Apart(SW_CFG, Mask1(p))
    ensures Within(LowBits(code), Mask1(p)) && Within(HighBits(code), Mask2(p))
    ensures Number(p, Part(LowBits(code), Mask1(p)), Part(HighBits(code), Mask2(p))) == n && Number(p, 0, 0) == 0
    ensures p != USART4 && p != LPTIM
  {
    match p
    case SPI1 =>
    case I2C1 =>
    case USART1 =>
    case USART2 =>
    case TIM1 =>
    case TIM2 =>
    case _ =>
  }

  lemma SecondCodes(code: bv32, p: Peripheral, n: bv32)
    requires Names(code, p, n) && code & 0xC000_0000 == 0x4000_0000
    ensures Mask1(p) == 0 && Second(code) == Mask2(p) && Within(Second(code), Mask2(p))
    ensures Number(p, 0, Part(Second(code), Mask2(p))) == n && Number(p, 0, 0) == 0
  {
    match p
    case USART4 =>
    case LPTIM =>
    case _ =>
  }

  lemma ThirdCodes(code: bv32, p: Peripheral, n: bv32)
    requires Names(code, p, n) && code & 0xC000_0000 == 0
    ensures code < 0x40_0000 && !NamesSwj(code)
    ensures Mask2(p) == 0 && Third(code) == Mask1(p) && Within(Moved(code), Mask1(p)) && Apart(SW_CFG, Mask1(p))
    ensures Number(p, Part(Moved(code), Mask1(p)), 0) == n && Number(p, 0, 0) == 0
  {
    match p
    case USART3 =>
    case TIM3 =>
    case TIM4 =>
    case CAN1 =>
    case PD01 =>
    case _ =>
  }

  lemma CodeBranches(code: bv32, p: Peripheral, n: bv32)
    requires Names(code, p, n)
    ensures code & 0xC000_0000 == 0xC000_0000 || code & 0xC000_0000 == 0x4000_0000 || code & 0xC000_0000 == 0
  {
  }

  lemma Untouched(w: bv32, swCfg: bv32)
    ensures Replaced(w, w, 0, 0, swCfg)
  {
  }

  lemma BothRemapped(code: bv32, enable: bool, p: Peripheral, n: bv32, was: Pcfr, now: Pcfr)
    requires Number(p, Part(LowBits(code), Mask1(p)), Part(HighBits(code), Mask2(p))) == n && Number(p, 0, 0) == 0
    requires Replaced(was.one, now.one, Mask1(p), if enable then Part(LowBits(code), Mask1(p)) else 0, SW_CFG)
    requires Replaced(was.two, now.two, Mask2(p), if enable then Part(HighBits(code), Mask2(p)) else 0, 0)
    ensures Remapped(was, now, p, if enable then n else 0)
  {
    if enable {
      FieldRemapped(was, now, p, Part(LowBits(code), Mask1(p)), Part(HighBits(code), Mask2(p)));
    } else {
      FieldRemapped(was, now, p, 0, 0);
    }
  }

  lemma SecondRemapped(code: bv32, enable: bool, p: Peripheral, n: bv32, was: Pcfr, now: Pcfr)
    requires Number(p, 0, Part(Second(code), Mask2(p))) == n && Number(p, 0, 0) == 0 && Mask1(p) == 0
    requires was.one == now.one
    requires Replaced(was.two, now.two, Mask2(p), if enable then Part(Second(code), Mask2(p)) else 0, 0)
    ensures Remapped(was, now, p, if enable then n else 0)
  {
    Untouched(was.one, SW_CFG);
    if enable {
      FieldRemapped(was, now, p, 0, Part(Second(code), Mask2(p)));
    } else {
      FieldRemapped(was, now, p, 0, 0);
    }
  }

  lemma ThirdRemapped(code: bv32, enable: bool, p: Peripheral, n: bv32, was: Pcfr, now: Pcfr)
    requires code < 0x40_0000 && Number(p, Part(Moved(code), Mask1(p)), 0) == n && Number(p, 0, 0) == 0 && Mask2(p) == 0
    requires was.two == now.two
    requires Replaced(was.one, now.one, Mask1(p), if enable then Part(Moved(code), Mask1(p)) else 0, SW_CFG)
    ensures Remapped(was, now, p, if enable then n else 0)
  {
    Untouched(was.two, 0);
    if enable {
      FieldRemapped(was, now, p, Part(Moved(code), Mask1(p)), 0);
    } else {
      FieldRemapped(was, now, p, 0, 0);
    }
  }

  lemma SwjCode()
    ensures DISABLE_SWJ < 0x40_0000 && NamesSwj(DISABLE_SWJ) && Within(Moved(DISABLE_SWJ), SW_CFG)
    ensures Part(Moved(DISABLE_SWJ), SW_CFG) == 0x0400_0000
  {
  }

  /** The debug port field as it was last written; it cannot be read back. */
  function SwCfg(r: Pcfr): bv32 {
    Part(r.one, SW_CFG)
  }

  /** Every call but those for the two peripherals in PCFR2 alone writes all its bits as ones. */
  function SwCfgAfter(p: Peripheral, initially: bv32): bv32 {
    if p == USART4 || p == LPTIM then initially else 0x0700_0000
  }

  lemma JoinOnes(w: bv32)
    ensures Part(Join(w, SW_CFG), SW_CFG) == 0x0700_0000
  {
  }

  lemma OnesStay(w: bv32, bits: bv32)
    requires Part(w, SW_CFG) == 0x0700_0000
    ensures Part(Join(w, bits), SW_CFG) == 0x0700_0000
  {
  }

  lemma CutNothing(x: bv32)
    ensures Cut(x, 0) == x
  {
  }

  /** A call, with the peripheral and the mapping its code names. */
  datatype Call = Remap(code: bv32, enable: bool, p: Peripheral, n: bv32) | DisableSwj(enable: bool) {
    predicate Valid() {
      Remap? ==> Names(code, p, n)
    }
  }

  function Last(calls: seq<Call>, q: Peripheral, initially: bv32): bv32 {
    if calls == [] then initially
    else
      var c := calls[|calls| - 1];
      if c.Remap? && c.p == q then (if c.enable then c.n else 0) else Last(calls[..|calls| - 1], q, initially)
  }

  /** What the debug port field was last given. */
  function LastSwCfg(calls: seq<Call>, initially: bv32): bv32 {
    if calls == [] then initially
    else
      var c, before := calls[|calls| - 1], LastSwCfg(calls[..|calls| - 1], initially);
      match c
      case Remap(_, _, p, _) => SwCfgAfter(p, before)
      case DisableSwj(enable) => if enable then 0x0400_0000 else 0
  }

  lemma LastOneMore(calls: seq<Call>, i: int, q: Peripheral, initially: bv32)
    requires 0 <= i < |calls|
    ensures Last(calls[..i + 1], q, initially) ==
      if calls[i].Remap? && calls[i].p == q then (if calls[i].enable then calls[i].n else 0)
      else Last(calls[..i], q, initially)
  {
    assert calls[..i + 1][..i] == calls[..i];
  }

  lemma LastSwCfgOneMore(calls: seq<Call>, i: int, initially: bv32)
    requires 0 <= i < |calls|
    ensures LastSwCfg(calls[..i + 1], initially) ==
      match calls[i]
      case Remap(_, _, p, _) => SwCfgAfter(p, LastSwCfg(calls[..i], initially))
      case DisableSwj(enable) => if enable then 0x0400_0000 else 0
  {
    assert calls[..i + 1][..i] == calls[..i];
  }

  class Afio {
    var pcfr1: bv32
    var pcfr2: bv32

    function Value(): Pcfr
      reads this
    {
      Pcfr(pcfr1, pcfr2)
    }

    /** Cleared bits set, if the call enables. */
    method SetBits(w: bv32, enable: bool, bits: bv32, ghost was: bv32, ghost mask: bv32,
        ghost swCfg: bv32) returns (r: bv32)
      requires Replaced(was, w, mask, 0, swCfg) && Within(bits, mask)
      ensures Replaced(was, r, mask, if enable then Part(bits, mask) else 0, swCfg)
      ensures r == if enable then Join(w, bits) else w
    {
      r := w;
      if enable {
        JoinReplaces(was, w, bits, mask, swCfg);
        r := Join(r, bits);
      }
    }

    method ClearBoth(number: bv32, w1: bv32, w2: bv32) returns (r1: bv32, r2: bv32)
      ensures r1 == Cut(w1, Clear1(number)) && r2 == Cut(w2, Clear2(number))
    {
      if number == 0 {
        r1, r2 := Cut(w1, 1 << 0), Cut(w2, 1 << 24);
      } else if number == 1 {
        r1, r2 := Cut(w1, 1 << 1), Cut(w2, 1 << 23);
      } else if number == 2 {
        r1, r2 := Cut(w1, 1 << 2), Cut(w2, 3 << 19);
      } else if number == 3 {
        r1, r2 := Cut(w1, 1 << 3), Cut(w2, 1 << 18);
      } else if number == 4 {
        r1, r2 := Cut(w1, 3 << 6), Cut(w2, 1 << 22);
      } else if number == 5 {
        r1, r2 := Cut(w1, 3 << 8), Cut(w2, 1 << 21);
      } else {
        CutNothing(w1);
        CutNothing(w2);
        r1, r2 := w1, w2;
      }
    }

    /** The same in PCFR1, and the bits of SW_CFG. */
    method SetFirst(w: bv32, enable: bool, bits: bv32, ghost was: bv32, ghost mask: bv32) returns (r: bv32)
      requires Replaced(was, w, mask, 0, 0) && Within(bits, mask) && Apart(SW_CFG, mask)
      ensures Replaced(was, r, mask, if enable then Part(bits, mask) else 0, SW_CFG)
      ensures Part(r, SW_CFG) == 0x0700_0000
    {
      r := SetBits(w, enable, bits, was, mask, 0);
      SwCfgReplaces(was, r, mask, if enable then Part(bits, mask) else 0);
      JoinOnes(r);
      r := Join(r, SW_CFG);
    }

    /** The branch for codes of fields in both registers. */
    method RemapBoth(code: bv32, enable: bool, ghost p: Peripheral)
      requires Clear1(NumberIn(code)) == Mask1(p) && Clear2(NumberIn(code)) == Mask2(p) && Apart(SW_CFG, Mask1(p))
      requires Within(LowBits(code), Mask1(p)) && Within(HighBits(code), Mask2(p))
      modifies this
      ensures Replaced(old(pcfr1), pcfr1, Mask1(p), if enable then Part(LowBits(code), Mask1(p)) else 0, SW_CFG)
      ensures Replaced(old(pcfr2), pcfr2, Mask2(p), if enable then Part(HighBits(code), Mask2(p)) else 0, 0)
      ensures SwCfg(Value()) == 0x0700_0000
    {
      CutReplaces(pcfr1, Mask1(p));
      CutReplaces(pcfr2, Mask2(p));
      var tmpreg1, tmpreg2 := ClearBoth(NumberIn(code), pcfr1, pcfr2);
      tmpreg1 := SetFirst(tmpreg1, enable, LowBits(code), pcfr1, Mask1(p));
      tmpreg2 := SetBits(tmpreg2, enable, HighBits(code), pcfr2, Mask2(p), 0);
      pcfr1 := tmpreg1;
      pcfr2 := tmpreg2;
    }

    /** The branch for codes of fields in PCFR2. */
    method RemapSecond(code: bv32, enable: bool, ghost p: Peripheral)
      requires Second(code) == Mask2(p) && Within(Second(code), Mask2(p))
      modifies `pcfr2
      ensures Replaced(old(pcfr2), pcfr2, Mask2(p), if enable then Part(Second(code), Mask2(p)) else 0, 0)
    {
      var tmp1 := Second(code);
      CutReplaces(pcfr2, tmp1);
      var tmpreg2 := Cut(pcfr2, tmp1);
      tmpreg2 := SetBits(tmpreg2, enable, tmp1, pcfr2, Mask2(p), 0);
      pcfr2 := tmpreg2;
    }

    /** The branch for codes of fields in PCFR1. */
    method RemapFirst(code: bv32, enable: bool, ghost p: Peripheral)
      requires code < 0x40_0000
      requires if NamesSwj(code) then Within(Moved(code), SW_CFG)
               else Third(code) == Mask1(p) && Within(Moved(code), Mask1(p)) && Apart(SW_CFG, Mask1(p))
      modifies `pcfr1
      ensures NamesSwj(code) ==>
        Replaced(old(pcfr1), pcfr1, SW_CFG, if enable then Part(Moved(code), SW_CFG) else 0, 0)
      ensures !NamesSwj(code) ==> SwCfg(Value()) == 0x0700_0000
      ensures !NamesSwj(code) ==>
        Replaced(old(pcfr1), pcfr1, Mask1(p), if enable then Part(Moved(code), Mask1(p)) else 0, SW_CFG)
    {
      ghost var was := pcfr1;
      var tmpreg1 := pcfr1;
      if NamesSwj(code) {
        CutReplaces(was, SW_CFG);
        tmpreg1 := Cut(tmpreg1, SW_CFG);
        pcfr1 := Cut(pcfr1, SW_CFG);
        tmpreg1 := SetBits(tmpreg1, enable, Moved(code), was, SW_CFG, 0);
      } else {
        CutReplaces(was, Third(code));
        tmpreg1 := Cut(tmpreg1, Third(code));
        SwCfgReplaces(was, tmpreg1, Mask1(p), 0);
        JoinOnes(tmpreg1);
        tmpreg1 := Join(tmpreg1, SW_CFG);
        OnesStay(tmpreg1, Moved(code));
        tmpreg1 := SetBits(tmpreg1, enable, Moved(code), was, Mask1(p), SW_CFG);
      }
      pcfr1 := tmpreg1;
    }

    method RemapBothCode(code: bv32, enable: bool, ghost p: Peripheral, ghost n: bv32)
      requires Names(code, p, n) && code & 0xC000_0000 == 0xC000_0000
      modifies this
      ensures Remapped(old(Value()), Value(), p, if enable then n else 0)
      ensures SwCfg(Value()) == SwCfgAfter(p, old(SwCfg(Value())))
    {
      BothCodes(code, p, n);
      RemapBothFields(code, enable, p, n);
    }

    method RemapBothFields(code: bv32, enable: bool, ghost p: Peripheral, ghost n: bv32)
      requires Clear1(NumberIn(code)) == Mask1(p) && Clear2(NumberIn(code)) == Mask2(p) && Apart(SW_CFG, Mask1(p))
      requires Within(LowBits(code), Mask1(p)) && Within(HighBits(code), Mask2(p))
      requires Number(p, Part(LowBits(code), Mask1(p)), Part(HighBits(code), Mask2(p))) == n && Number(p, 0, 0) == 0
      modifies this
      ensures Remapped(old(Value()), Value(), p, if enable then n else 0)
      ensures SwCfg(Value()) == 0x0700_0000
    {
      RemapBoth(code, enable, p);
      BothRemapped(code, enable, p, n, old(Value()), Value());
    }

    method RemapSecondCode(code: bv32, enable: bool, ghost p: Peripheral, ghost n: bv32)
      requires Names(code, p, n) && code & 0xC000_0000 == 0x4000_0000
      modifies this
      ensures Remapped(old(Value()), Value(), p, if enable then n else 0)
      ensures SwCfg(Value()) == SwCfgAfter(p, old(SwCfg(Value())))
    {
      SecondCodes(code, p, n);
      RemapSecond(code, enable, p);
      SecondRemapped(code, enable, p, n, old(Value()), Value());
    }

    method RemapFirstCode(code: bv32, enable: bool, ghost p: Peripheral, ghost n: bv32)
      requires Names(code, p, n) && code & 0xC000_0000 == 0
      modifies this
      ensures Remapped(old(Value()), Value(), p, if enable then n else 0)
      ensures SwCfg(Value()) == SwCfgAfter(p, old(SwCfg(Value())))
    {
      ThirdCodes(code, p, n);
      RemapFirst(code, enable, p);
      ThirdRemapped(code, enable, p, n, old(Value()), Value());
    }

    /** GPIO_PinRemapConfig, on any code of the header file but DISABLE_SWJ. */
    method PinRemapConfig(code: bv32, enable: bool, ghost p: Peripheral, ghost n: bv32)
      requires Names(code, p, n)
      modifies this
      ensures Remapped(old(Value()), Value(), p, if enable then n else 0)
      ensures SwCfg(Value()) == SwCfgAfter(p, old(SwCfg(Value())))
    {
      CodeBranches(code, p, n);
      if code & 0xC000_0000 == 0xC000_0000 {
        RemapBothCode(code, enable, p, n);
      } else if code & 0xC000_0000 == 0x4000_0000 {
        RemapSecondCode(code, enable, p, n);
      } else if code & 0xC000_0000 == 0 {
        RemapFirstCode(code, enable, p, n);
      }
    }

    /** The same on DISABLE_SWJ: nothing changes but SW_CFG, which takes the value that disables the port, or 0. */
    method PinRemapSwj(enable: bool)
      modifies this
      ensures forall q :: Mapping(Value(), q) == old(Mapping(Value(), q))
      ensures RestKept(old(Value()), Value()) && SwCfg(Value()) == if enable then 0x0400_0000 else 0
    {
      SwjCode();
      RemapFirst(DISABLE_SWJ, enable, SPI1);
      RestApart(SPI1);
      forall q
        ensures Mapping(Value(), q) == old(Mapping(Value(), q))
      {
        SwCfgApart(q);
      }
    }

    /** After any run of calls each peripheral has the mapping of the last call that named it, and the bits outside
        every field are what they were. */
    method Run(calls: seq<Call>)
      requires forall i :: 0 <= i < |calls| ==> calls[i].Valid()
      modifies this
      ensures forall q :: Mapping(Value(), q) == Last(calls, q, old(Mapping(Value(), q)))
      ensures RestKept(old(Value()), Value()) && SwCfg(Value()) == LastSwCfg(calls, old(SwCfg(Value())))
    {
      ghost var was := Value();
      for i := 0 to |calls|
        invariant forall q :: Mapping(Value(), q) == Last(calls[..i], q, Mapping(was, q))
        invariant RestKept(was, Value()) && SwCfg(Value()) == LastSwCfg(calls[..i], SwCfg(was))
      {
        LastSwCfgOneMore(calls, i, SwCfg(was));
        ghost var before := Value();
        match calls[i] {
          case Remap(code, enable, p, n) => PinRemapConfig(code, enable, p, n);
          case DisableSwj(enable) => PinRemapSwj(enable);
        }
        forall q
          ensures Mapping(Value(), q) == Last(calls[..i + 1], q, Mapping(was, q))
        {
          LastOneMore(calls, i, q, Mapping(was, q));
        }
      }
      assert calls[..|calls|] == calls;
    }
  }
}
