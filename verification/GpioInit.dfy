/**
 GPIO_Init: sixteen pins, four configuration bits each in CFGLR and CFGHR, and an output latch that BSHR and BCR set
 and clear.
 */
module GpioInit {
  import opened Registers

  const IPD: bv32 := 0x28
  const IPU: bv32 := 0x48

  /** The pins are those whose bits are set. */
  datatype Init = Init(pins: bv32, mode: bv32, speed: bv32) {
    predicate Valid() {
      pins <= 0xFFFF && speed <= 0xF
    }
  }

  datatype Port = Port(cfglr: bv32, cfghr: bv32, outdr: bv32)

  // ----- The plain picture: sixteen pins, each with a configuration and a latch

  datatype Pin = Pin(config: bv32, latch: bool)

  datatype Pull = Down | Up | Keep {
    function Applied(latch: bool): bool {
      match this
      case Down => false
      case Up => true
      case Keep => latch
    }
  }

  /** What a call does to each pin it names. */
  datatype Setting = Setting(config: bv32, pull: Pull) {
    function Applied(p: Pin): Pin {
      Pin(config, pull.Applied(p.latch))
    }

    /** The same configuration, and not pulled in opposite directions. */
    predicate Agrees(other: Setting) {
      config == other.config && (pull == Keep || other.pull == Keep || pull == other.pull)
    }
  }

  lemma SettingsCommuteExactly(a: Setting, b: Setting, p: Pin)
    ensures a.Applied(b.Applied(p)) == b.Applied(a.Applied(p)) <==> a.Agrees(b)
  {
  }

  predicate Selected(pins: bv32, q: bv32)
    requires q <= 15
  {
    (pins >> q) & 1 == 1
  }

  function Config(s: Port, q: bv32): bv32
    requires q <= 15
  {
    if q < 8 then Four(s.cfglr, q) else Four(s.cfghr, q - 8)
  }

  function Latch(outdr: bv32, q: bv32): bool
    requires q <= 15
  {
    (outdr >> q) & 1 == 1
  }

  function PinOf(s: Port, q: bv32): Pin
    requires q <= 15
  {
    Pin(Config(s, q), Latch(s.outdr, q))
  }

  /** The bits above the sixteen latches. */
  function Upper(outdr: bv32): bv32 {
    outdr & 0xFFFF_0000
  }

  /** The speed counts for output modes only. */
  function Nibble(i: Init): (r: bv32)
    ensures i.Valid() ==> r <= 0xF
  {
    if i.mode & 0x10 != 0 then (i.mode & 0x0F) | i.speed else i.mode & 0x0F
  }

  /** The two pulled inputs choose the direction of the pull by the latch. */
  function PullOf(mode: bv32): Pull {
    if mode == IPD then Down else if mode == IPU then Up else Keep
  }

  function SettingOf(i: Init): Setting {
    Setting(Nibble(i), PullOf(i.mode))
  }

  /** Exactly the selected pins have been set. */
  ghost predicate Configured(was: Port, now: Port, pins: bv32, setting: Setting) {
    && (forall q: bv32 :: q <= 15 ==>
          PinOf(now, q) == if Selected(pins, q) then setting.Applied(PinOf(was, q)) else PinOf(was, q))
    && Upper(now.outdr) == Upper(was.outdr)
  }

  // ----- What the port makes of it

  /** The modes of the header file: analog, floating, pulled down, pulled up, and four outputs. */
  predicate HeaderMode(mode: bv32) {
    mode == 0x00 || mode == 0x04 || mode == 0x28 || mode == 0x48 || OutputMode(mode)
  }

  /** Push-pull and open drain, plain and of a peripheral. */
  predicate OutputMode(mode: bv32) {
    mode == 0x10 || mode == 0x14 || mode == 0x18 || mode == 0x1C
  }

  /** The four bits of a pin: above, bits 3 and 2 of the mode; below, the speed of an output, and 0 for an input. */
  predicate Drives(four: bv32, mode: bv32, speed: bv32) {
    four >> 2 == (mode >> 2) & 3 && four & 3 == if OutputMode(mode) then speed else 0
  }

  predicate BitOf(w: bv32, b: bv32)
    requires b <= 31
  {
    (w >> b) & 1 == 1
  }

  /** For any mode: each of the four bits is that of the mode, or'ed with that of the speed if bit 4 of the mode is
      set. */
  predicate Mixes(four: bv32, mode: bv32, speed: bv32) {
    && four <= 15
    && (BitOf(four, 0) <==> BitOf(mode, 0) || (BitOf(mode, 4) && BitOf(speed, 0)))
    && (BitOf(four, 1) <==> BitOf(mode, 1) || (BitOf(mode, 4) && BitOf(speed, 1)))
    && (BitOf(four, 2) <==> BitOf(mode, 2) || (BitOf(mode, 4) && BitOf(speed, 2)))
    && (BitOf(four, 3) <==> BitOf(mode, 3) || (BitOf(mode, 4) && BitOf(speed, 3)))
  }

  predicate Configures(four: bv32, i: Init) {
    Mixes(four, i.mode, i.speed) && (HeaderMode(i.mode) && i.speed <= 3 ==> Drives(four, i.mode, i.speed))
  }

  /** The four bits of pin `q`, */
  function PinBits(s: Port, q: bv32): bv32
    requires q <= 15
  {
    if q <= 7 then (s.cfglr >> (4 * q)) & 0xF else (s.cfghr >> (4 * q - 32)) & 0xF
  }

  /** its bit in the output register, */
  predicate Level(s: Port, q: bv32)
    requires q <= 15
  {
    s.outdr & (1 << q) != 0
  }

  /** and whether a mask names it. */
  predicate Named(pins: bv32, q: bv32)
    requires q <= 15
  {
    pins & (1 << q) != 0
  }

  /** A pin after a call: one that is named has the mode and the speed, and a pulled input its level; every other one is
      what it was. */
  predicate PinDriven(was: Port, now: Port, i: Init, q: bv32)
    requires q <= 15
  {
    if Named(i.pins, q) then
      && Configures(PinBits(now, q), i)
      && Level(now, q) == (if i.mode == 0x28 then false else if i.mode == 0x48 then true else Level(was, q))
    else
      PinBits(now, q) == PinBits(was, q) && Level(now, q) == Level(was, q)
  }

  lemma NibbleMixes(i: Init)
    requires i.Valid()
    ensures Mixes(Nibble(i), i.mode, i.speed)
  {
  }

  lemma NibbleDrives(i: Init)
    requires HeaderMode(i.mode) && i.speed <= 3
    ensures Drives(Nibble(i), i.mode, i.speed)
  {
  }

  lemma NibbleConfigures(i: Init)
    requires i.Valid()
    ensures Configures(Nibble(i), i)
  {
    NibbleMixes(i);
    if HeaderMode(i.mode) && i.speed <= 3 {
      NibbleDrives(i);
    }
  }

  lemma BitsAreConfig(s: Port, q: bv32)
    requires q <= 15
    ensures PinBits(s, q) == Config(s, q)
  {
  }

  lemma LevelIsLatch(s: Port, q: bv32)
    requires q <= 15
    ensures Level(s, q) <==> Latch(s.outdr, q)
  {
  }

  lemma NamedIsSelected(pins: bv32, q: bv32)
    requires q <= 15
    ensures Named(pins, q) <==> Selected(pins, q)
  {
  }

  /** So much for every mode and speed. */
  lemma ConfiguredDrives(was: Port, now: Port, i: Init, q: bv32)
    requires Configured(was, now, i.pins, SettingOf(i)) && i.Valid() && q <= 15
    ensures PinDriven(was, now, i, q)
  {
    NibbleConfigures(i);
    NamedIsSelected(i.pins, q);
    BitsAreConfig(was, q);
    BitsAreConfig(now, q);
    LevelIsLatch(was, q);
    LevelIsLatch(now, q);
    assert PinOf(now, q) == if Selected(i.pins, q) then SettingOf(i).Applied(PinOf(was, q)) else PinOf(was, q);
  }

  // ----- The loops

  function PinBit(q: bv32): bv32
    requires q <= 15
  {
    1 << q
  }

  /** The latches after a write to BCR, */
  function Lowered(outdr: bv32, mask: bv32): bv32 {
    outdr & !mask
  }

  /** and to BSHR. */
  function Raised(outdr: bv32, mask: bv32): bv32 {
    outdr | mask
  }

  lemma TestIsSelected(pins: bv32, q: bv32)
    requires q <= 15
    ensures pins & PinBit(q) == PinBit(q) <==> Selected(pins, q)
  {
  }

  /** Pin `q` is among the first `k` of the eight pins from `first`, and selected. */
  predicate Done(first: bv32, k: bv32, pins: bv32, q: bv32)
    requires first <= 8 && k <= 8 && q <= 15
  {
    first <= q < first + k && Selected(pins, q)
  }

  lemma DoneOneMore(first: bv32, k: bv32, pins: bv32, q: bv32)
    requires first <= 8 && k <= 7 && q <= 15
    ensures Done(first, k + 1, pins, q) <==> Done(first, k, pins, q) || (q == k + first && Selected(pins, k + first))
    ensures q == k + first ==> !Done(first, k, pins, q)
  {
  }

  /** After the first `k` turns of the loop over the eight pins from `first`, the register value being built, */
  ghost predicate Built(first: bv32, k: bv32, i: Init, cfg: bv32, tmpreg: bv32)
    requires first <= 8 && k <= 8
  {
    forall q: bv32 :: q <= 7 ==>
      Four(tmpreg, q) == if Done(first, k, i.pins, q + first) then Nibble(i) else Four(cfg, q)
  }

  /** and the latch. */
  ghost predicate Pulling(first: bv32, k: bv32, i: Init, was: bv32, now: bv32)
    requires first <= 8 && k <= 8
  {
    && (forall q: bv32 :: q <= 15 ==>
          Latch(now, q) == if Done(first, k, i.pins, q) then PullOf(i.mode).Applied(Latch(was, q)) else Latch(was, q))
    && Upper(now) == Upper(was)
  }

  lemma BuildOneMore(first: bv32, k: bv32, i: Init, cfg: bv32, tmpreg: bv32)
    requires first <= 8 && k <= 7 && i.Valid() && Selected(i.pins, k + first) && Built(first, k, i, cfg, tmpreg)
    ensures Built(first, k + 1, i, cfg, PutFour(tmpreg, k, Nibble(i)))
  {
    forall q: bv32 | q <= 7
      ensures Four(PutFour(tmpreg, k, Nibble(i)), q)
        == if Done(first, k + 1, i.pins, q + first) then Nibble(i) else Four(cfg, q)
    {
      FourAfterPut(tmpreg, k, q, Nibble(i));
      SamePin(first, k, q);
      DoneOneMore(first, k, i.pins, q + first);
    }
  }

  lemma BuildSkipped(first: bv32, k: bv32, i: Init, cfg: bv32, tmpreg: bv32)
    requires first <= 8 && k <= 7 && !Selected(i.pins, k + first) && Built(first, k, i, cfg, tmpreg)
    ensures Built(first, k + 1, i, cfg, tmpreg)
  {
    forall q: bv32 | q <= 7
      ensures Four(tmpreg, q) == if Done(first, k + 1, i.pins, q + first) then Nibble(i) else Four(cfg, q)
    {
      DoneOneMore(first, k, i.pins, q + first);
    }
  }

  lemma SamePin(first: bv32, k: bv32, q: bv32)
    requires first <= 8 && k <= 7 && q <= 7
    ensures q + first == k + first <==> q == k
  {
  }

  /** Of all latches only that of pin `p` has been pulled. */
  ghost predicate PulledAt(pull: Pull, p: bv32, was: bv32, now: bv32) {
    && (forall q: bv32 :: q <= 15 ==> Latch(now, q) == if q == p then pull.Applied(Latch(was, q)) else Latch(was, q))
    && Upper(now) == Upper(was)
  }

  lemma LatchLowered(outdr: bv32, p: bv32, q: bv32)
    requires p <= 15 && q <= 15
    ensures Latch(Lowered(outdr, PinBit(p)), q) == if q == p then false else Latch(outdr, q)
  {
  }

  lemma LatchRaised(outdr: bv32, p: bv32, q: bv32)
    requires p <= 15 && q <= 15
    ensures Latch(Raised(outdr, PinBit(p)), q) == if q == p then true else Latch(outdr, q)
  {
  }

  lemma UpperLowered(outdr: bv32, p: bv32)
    requires p <= 15
    ensures Upper(Lowered(outdr, PinBit(p))) == Upper(outdr)
  {
  }

  lemma UpperRaised(outdr: bv32, p: bv32)
    requires p <= 15
    ensures Upper(Raised(outdr, PinBit(p))) == Upper(outdr)
  {
  }

  lemma PulledDown(outdr: bv32, p: bv32, now: bv32)
    requires p <= 15 && now == Lowered(outdr, PinBit(p))
    ensures PulledAt(Down, p, outdr, now)
  {
    UpperLowered(outdr, p);
    forall q: bv32 | q <= 15
      ensures Latch(now, q) == if q == p then Down.Applied(Latch(outdr, q)) else Latch(outdr, q)
    {
      LatchLowered(outdr, p, q);
    }
  }

  lemma PulledUp(outdr: bv32, p: bv32, now: bv32)
    requires p <= 15 && now == Raised(outdr, PinBit(p))
    ensures PulledAt(Up, p, outdr, now)
  {
    UpperRaised(outdr, p);
    forall q: bv32 | q <= 15
      ensures Latch(now, q) == if q == p then Up.Applied(Latch(outdr, q)) else Latch(outdr, q)
    {
      LatchRaised(outdr, p, q);
    }
  }

  lemma PullOneMore(first: bv32, k: bv32, i: Init, was: bv32, before: bv32, now: bv32)
    requires first <= 8 && k <= 7 && Selected(i.pins, k + first) && Pulling(first, k, i, was, before)
    requires PulledAt(PullOf(i.mode), k + first, before, now)
    ensures Pulling(first, k + 1, i, was, now)
  {
    forall q: bv32 | q <= 15
      ensures Latch(now, q)
        == if Done(first, k + 1, i.pins, q) then PullOf(i.mode).Applied(Latch(was, q)) else Latch(was, q)
    {
      DoneOneMore(first, k, i.pins, q);
    }
  }

  lemma PullSkipped(first: bv32, k: bv32, i: Init, was: bv32, now: bv32)
    requires first <= 8 && k <= 7 && !Selected(i.pins, k + first) && Pulling(first, k, i, was, now)
    ensures Pulling(first, k + 1, i, was, now)
  {
    forall q: bv32 | q <= 15
      ensures Done(first, k + 1, i.pins, q) <==> Done(first, k, i.pins, q)
    {
      DoneOneMore(first, k, i.pins, q);
    }
  }

  lemma NoneLow(pins: bv32)
    requires pins & 0x00FF == 0
    ensures forall q: bv32 :: q <= 7 ==> !Selected(pins, q)
  {
  }

  lemma NoneHigh(pins: bv32)
    requires pins <= 0x00FF
    ensures forall q: bv32 :: 8 <= q <= 15 ==> !Selected(pins, q)
  {
  }

  /** The two halves make up the whole. */
  lemma Together(was: Port, between: bv32, now: Port, i: Init)
    requires Built(0, 8, i, was.cfglr, now.cfglr) && Built(8, 8, i, was.cfghr, now.cfghr)
    requires Pulling(0, 8, i, was.outdr, between) && Pulling(8, 8, i, between, now.outdr)
    ensures Configured(was, now, i.pins, SettingOf(i))
  {
  }

  // ----- The order of two calls

  /** A pin in both masks. */
  lemma CommonPin(pins: bv32, q: bv32) returns (p: bv32)
    requires q <= 15 && pins <= 0xFFFF && pins >> q != 0
    ensures p <= 15 && Selected(pins, p)
    decreases 16 - q
  {
    if Selected(pins, q) {
      p := q;
    } else {
      HigherPin(pins, q);
      p := CommonPin(pins, q + 1);
    }
  }

  lemma HigherPin(pins: bv32, q: bv32)
    requires q <= 15 && pins <= 0xFFFF && pins >> q != 0 && !Selected(pins, q)
    ensures q < 15 && pins >> (q + 1) != 0
  {
  }

  ghost predicate Disjoint(a: bv32, b: bv32) {
    forall q: bv32 :: q <= 15 ==> !(Selected(a, q) && Selected(b, q))
  }

  lemma SelectedInBoth(a: bv32, b: bv32, q: bv32)
    requires q <= 15
    ensures Selected(a & b, q) <==> Selected(a, q) && Selected(b, q)
  {
  }

  lemma NoneSelected(q: bv32)
    requires q <= 15
    ensures !Selected(0, q)
  {
  }

  lemma DisjointMasks(a: bv32, b: bv32)
    requires a <= 0xFFFF && b <= 0xFFFF
    ensures Disjoint(a, b) <==> a & b == 0
  {
    if a & b == 0 {
      forall q: bv32 | q <= 15
        ensures !(Selected(a, q) && Selected(b, q))
      {
        NoneSelected(q);
        SelectedInBoth(a, b, q);
      }
    } else {
      var p := CommonPin(a & b, 0);
      SelectedInBoth(a, b, p);
    }
  }

  lemma SixteenBits(x: bv32, y: bv32)
    requires Upper(x) == Upper(y)
    requires Latch(x, 0) == Latch(y, 0) && Latch(x, 1) == Latch(y, 1) && Latch(x, 2) == Latch(y, 2) &&
        Latch(x, 3) == Latch(y, 3)
    requires Latch(x, 4) == Latch(y, 4) && Latch(x, 5) == Latch(y, 5) && Latch(x, 6) == Latch(y, 6) &&
        Latch(x, 7) == Latch(y, 7)
    requires Latch(x, 8) == Latch(y, 8) && Latch(x, 9) == Latch(y, 9) && Latch(x, 10) == Latch(y, 10) &&
        Latch(x, 11) == Latch(y, 11)
    requires Latch(x, 12) == Latch(y, 12) && Latch(x, 13) == Latch(y, 13) && Latch(x, 14) == Latch(y, 14) &&
        Latch(x, 15) == Latch(y, 15)
    ensures x == y
  {
  }

  lemma SameLatches(x: bv32, y: bv32)
    requires Upper(x) == Upper(y) && forall q: bv32 :: q <= 15 ==> Latch(x, q) == Latch(y, q)
    ensures x == y
  {
    SixteenBits(x, y);
  }

  /** The sixteen pins and the reserved bits are all there is. */
  lemma SamePort(x: Port, y: Port)
    requires forall q: bv32 :: q <= 15 ==> PinOf(x, q) == PinOf(y, q)
    requires Upper(x.outdr) == Upper(y.outdr)
    ensures x == y
  {
    forall q: bv32 | q <= 15
      ensures Config(x, q) == Config(y, q) && Latch(x.outdr, q) == Latch(y.outdr, q)
    {
      assert PinOf(x, q) == PinOf(y, q);
    }
    SameConfig(x, y);
    SameLatches(x.outdr, y.outdr);
  }

  lemma SameConfig(x: Port, y: Port)
    requires forall q: bv32 :: q <= 15 ==> Config(x, q) == Config(y, q)
    ensures x.cfglr == y.cfglr && x.cfghr == y.cfghr
  {
    forall q: bv32 | q <= 7
      ensures Four(x.cfglr, q) == Four(y.cfglr, q) && Four(x.cfghr, q) == Four(y.cfghr, q)
    {
      assert Config(x, q) == Config(y, q) && Config(x, q + 8) == Config(y, q + 8);
    }
    SameFours(x.cfglr, y.cfglr);
    SameFours(x.cfghr, y.cfghr);
  }

  /** Pin `q` after two calls. */
  lemma AfterBoth(s: Port, sa: Port, sab: Port, m: bv32, a: Setting, n: bv32, b: Setting, q: bv32)
    requires Configured(s, sa, m, a) && Configured(sa, sab, n, b) && q <= 15
    ensures
      var p := if Selected(m, q) then a.Applied(PinOf(s, q)) else PinOf(s, q);
      PinOf(sab, q) == if Selected(n, q) then b.Applied(p) else p
  {
  }

  lemma Commute(s: Port, m: bv32, a: Setting, n: bv32, b: Setting, sa: Port, sab: Port, sb: Port, sba: Port)
    requires Configured(s, sa, m, a) && Configured(sa, sab, n, b) && Configured(s, sb, n, b) &&
        Configured(sb, sba, m, a)
    requires Disjoint(m, n) || a.Agrees(b)
    ensures sab == sba
  {
    forall q: bv32 | q <= 15
      ensures PinOf(sab, q) == PinOf(sba, q)
    {
      AfterBoth(s, sa, sab, m, a, n, b, q);
      AfterBoth(s, sb, sba, n, b, m, a, q);
      SettingsCommuteExactly(a, b, PinOf(s, q));
    }
    SamePort(sab, sba);
  }

  lemma Clash(s: Port, m: bv32, a: Setting, n: bv32, b: Setting, sa: Port, sab: Port, sb: Port, sba: Port)
    requires Configured(s, sa, m, a) && Configured(sa, sab, n, b) && Configured(s, sb, n, b) &&
        Configured(sb, sba, m, a)
    requires !Disjoint(m, n) && !a.Agrees(b)
    ensures sab != sba
  {
  }

  /** Two calls may be exchanged just when they name no common pin or their settings agree. */
  lemma CommuteExactly(s: Port, i: Init, j: Init, si: Port, sij: Port, sj: Port, sji: Port)
    requires i.Valid() && j.Valid()
    requires Configured(s, si, i.pins, SettingOf(i)) && Configured(si, sij, j.pins, SettingOf(j))
    requires Configured(s, sj, j.pins, SettingOf(j)) && Configured(sj, sji, i.pins, SettingOf(i))
    ensures sij == sji <==> i.pins & j.pins == 0 || SettingOf(i).Agrees(SettingOf(j))
  {
    DisjointMasks(i.pins, j.pins);
    if Disjoint(i.pins, j.pins) || SettingOf(i).Agrees(SettingOf(j)) {
      Commute(s, i.pins, SettingOf(i), j.pins, SettingOf(j), si, sij, sj, sji);
    } else {
      Clash(s, i.pins, SettingOf(i), j.pins, SettingOf(j), si, sij, sj, sji);
    }
  }

  class Gpio {
    var cfglr: bv32
    var cfghr: bv32
    var outdr: bv32

    function Value(): Port
      reads this
    {
      Port(cfglr, cfghr, outdr)
    }

    method WriteBcr(mask: bv32)
      modifies `outdr
      ensures outdr == Lowered(old(outdr), mask)
    {
      outdr := Lowered(outdr, mask);
    }

    method WriteBshr(mask: bv32)
      modifies `outdr
      ensures outdr == Raised(old(outdr), mask)
    {
      outdr := Raised(outdr, mask);
    }

    method WriteLatch(mode: bv32, p: bv32)
      requires p <= 15
      modifies `outdr
      ensures PulledAt(PullOf(mode), p, old(outdr), outdr)
    {
      if mode == IPD {
        WriteBcr(PinBit(p));
        PulledDown(old(outdr), p, outdr);
      } else if mode == IPU {
        WriteBshr(PinBit(p));
        PulledUp(old(outdr), p, outdr);
      }
    }

    /** The loop over the eight pins from `first`: the new value of their configuration register, which starts as
        `cfg`. */
    method Loop(first: bv32, i: Init, cfg: bv32) returns (tmpreg: bv32)
      requires i.Valid() && (first == 0 || first == 8)
      modifies `outdr
      ensures Built(first, 8, i, cfg, tmpreg) && Pulling(first, 8, i, old(outdr), outdr)
    {
      var currentmode := Nibble(i);
      tmpreg := cfg;
      var pinpos: bv32 := 0;
      while pinpos < 8
        invariant pinpos <= 8 && Built(first, pinpos, i, cfg, tmpreg) && Pulling(first, pinpos, i, old(outdr), outdr)
        decreases 8 - pinpos
      {
        tmpreg := Turn(first, pinpos, i, currentmode, cfg, tmpreg, old(outdr));
        pinpos := pinpos + 1;
      }
    }

    /** The body of the loop. */
    method Turn(first: bv32, pinpos: bv32, i: Init, currentmode: bv32, ghost cfg: bv32, tmpreg: bv32, ghost was: bv32)
      returns (r: bv32)
      requires i.Valid() && (first == 0 || first == 8) && pinpos < 8 && currentmode == Nibble(i)
      requires Built(first, pinpos, i, cfg, tmpreg) && Pulling(first, pinpos, i, was, outdr)
      modifies `outdr
      ensures Built(first, pinpos + 1, i, cfg, r) && Pulling(first, pinpos + 1, i, was, outdr)
    {
      TestIsSelected(i.pins, pinpos + first);
      if i.pins & PinBit(pinpos + first) == PinBit(pinpos + first) {
        BuildOneMore(first, pinpos, i, cfg, tmpreg);
        r := PutFour(tmpreg, pinpos, currentmode);
        WriteLatch(i.mode, pinpos + first);
        PullOneMore(first, pinpos, i, was, old(outdr), outdr);
      } else {
        BuildSkipped(first, pinpos, i, cfg, tmpreg);
        PullSkipped(first, pinpos, i, was, outdr);
        r := tmpreg;
      }
    }

    method InitLow(i: Init)
      requires i.Valid()
      modifies `cfglr, `outdr
      ensures Built(0, 8, i, old(cfglr), cfglr) && Pulling(0, 8, i, old(outdr), outdr)
    {
      if i.pins & 0x00FF != 0 {
        cfglr := Loop(0, i, cfglr);
      } else {
        NoneLow(i.pins);
      }
    }

    method InitHigh(i: Init)
      requires i.Valid()
      modifies `cfghr, `outdr
      ensures Built(8, 8, i, old(cfghr), cfghr) && Pulling(8, 8, i, old(outdr), outdr)
    {
      if i.pins > 0x00FF {
        cfghr := Loop(8, i, cfghr);
      } else {
        NoneHigh(i.pins);
      }
    }

    /** GPIO_Init. */
    method Init(i: Init)
      requires i.Valid()
      modifies this
      ensures Configured(old(Value()), Value(), i.pins, SettingOf(i))
      ensures forall q: bv32 :: q <= 15 ==> PinDriven(old(Value()), Value(), i, q)
    {
      InitLow(i);
      ghost var between := outdr;
      InitHigh(i);
      Together(old(Value()), between, Value(), i);
      forall q: bv32 | q <= 15
        ensures PinDriven(old(Value()), Value(), i, q)
      {
        ConfiguredDrives(old(Value()), Value(), i, q);
      }
    }
  }
}
