/**
 The flash program/erase controller as the driver sees it: the registers it writes, the BSY flag it
 polls, the 256-byte page buffer, the flash array and the four option words. Every access the driver makes to a
 register is one method of `Flash`. README.md lists what is assumed of the hardware.
 */
module FlashDevice {

  type Word = bv32

  type u32 = x: int | 0 <= x < 0x1_0000_0000

  const KEY1: Word := 0x45670123
  const KEY2: Word := 0xCDEF89AB

  const OB_BASE: u32 := 0x1FFF_F800

  const ERASE_TIMEOUT: u32 := 0x000B_0000
  const PROGRAM_TIMEOUT: u32 := 0x0000_5000

  /** The control register bits the driver uses. */
  datatype Bit = PER | MER | OBER | LOCK | OBWRE | FLOCK | FTPG | FTER | BER32

  const MODES: set<Bit> := {PER, MER, OBER, FTPG, FTER, BER32}

  datatype KeyRegister = Keyr | ObKeyr | ModeKeyr

  /** What the controller was told to do: STRT with these mode bits and this ADDR, a page buffer load, a buffer reset.
      What it is told while BSY is set is logged like the rest and has no effect. */
  datatype Event = Start(modes: set<Bit>, addr: int) | Load(addr: int, word: Word) | Reset

  /** The mode among `bits`, if there is just one. */
  function ModeOf(bits: set<Bit>): Bit {
    if PER in bits then PER
    else if MER in bits then MER
    else if OBER in bits then OBER
    else if FTPG in bits then FTPG
    else if FTER in bits then FTER
    else BER32
  }

  /** What the driver's functions return. */
  datatype Status = Busy | ErrorWrp | Complete | Timeout | ReadProtected | OpRangeError | AlignError | AdrRangeError

  /** A single mode bit. */
  predicate OneMode(modes: set<Bit>) {
    exists m :: m in MODES && modes == {m}
  }

  predicate NoMode(bits: set<Bit>) {
    bits * MODES == {}
  }

  ghost predicate OneModeAtEachStart(trace: seq<Event>) {
    forall i :: 0 <= i < |trace| && trace[i].Start? ==> OneMode(trace[i].modes)
  }

  lemma SetMode(bits: set<Bit>, m: Bit)
    requires NoMode(bits) && m in MODES
    ensures (bits + {m}) * MODES == {m}
    ensures bits - {OBER, FTER} == bits
    ensures (bits + {m}) - {m} == bits
  {
    forall b | b in MODES
      ensures b !in bits
    {
      assert b in bits ==> b in bits * MODES;
    }
  }

  /** A part: its flash array [base, end), what an erased word reads as, what programming a word over an old
      one leaves, whether programming the option words takes OBWRE as erasing them does, and how many polls the n-th
      operation stays busy for. */
  datatype Part = Part(base: u32, end: u32, blank: Word, blend: (Word, Word) -> Word, optionsGuarded: bool,
    delay: nat -> nat) {

    ghost predicate Valid() {
      && base % 0x100 == 0 && base <= end <= 0x1FFF_F800 && end % 4 == 0
      && forall w :: blend(blank, w) == w
    }

    /** The words of [lo, lo + size) erased. */
    function Erased(mem: seq<Word>, lo: int, size: int): (r: seq<Word>)
      ensures |r| == |mem|
      ensures forall i :: 0 <= i < |mem| ==> r[i] == if lo <= base + 4 * i < lo + size then blank else mem[i]
    {
      seq(|mem|, i requires 0 <= i < |mem| => if lo <= base + 4 * i < lo + size then blank else mem[i])
    }

    /** The 256-byte page at `page` programmed from the page buffer. */
    function Programmed(mem: seq<Word>, page: int, buffer: seq<Word>): (r: seq<Word>)
      requires |buffer| == 64
      ensures |r| == |mem|
      ensures forall i :: 0 <= i < |mem| ==>
        r[i] == if page <= base + 4 * i < page + 0x100 then blend(mem[i], buffer[(base + 4 * i - page) / 4]) else mem[i]
    {
      seq(|mem|, i requires 0 <= i < |mem| =>
        if page <= base + 4 * i < page + 0x100 then blend(mem[i], buffer[(base + 4 * i - page) / 4]) else mem[i])
    }

    /** What STRT does to the flash array in a given mode; the fast modes need the fast lock open. */
    function MemAfter(mem: seq<Word>, mode: Bit, addr: u32, fast: bool, buffer: seq<Word>): (r: seq<Word>)
      requires |buffer| == 64
      ensures |r| == |mem|
    {
      match mode
      case PER => Erased(mem, addr - addr % 0x800, 0x800)
      case MER => Erased(mem, base, end - base)
      case FTER => if fast then Erased(mem, addr - addr % 0x100, 0x100) else mem
      case BER32 => if fast then Erased(mem, addr - addr % 0x8000, 0x8000) else mem
      case FTPG => if fast then Programmed(mem, addr - addr % 0x100, buffer) else mem
      case _ => mem
    }

    /** What STRT does to the option words. */
    function OptionsAfter(words: seq<Word>, mode: Bit, addr: u32, fast: bool, enabled: bool,
        buffer: seq<Word>): (r: seq<Word>)
      requires |words| == 4 && |buffer| == 64
      ensures |r| == 4
    {
      if mode == OBER && enabled then
        [blank, blank, blank, blank]
      else if mode == FTPG && fast && (enabled || !optionsGuarded) && addr - addr % 0x100 == 0x1FFF_F800 then
        seq(4, i requires 0 <= i < 4 => blend(words[i], buffer[i]))
      else
        words
    }
  }

  class Flash {
    const part: Part

    var ctlr: set<Bit>
    var addr: u32
    var keyed: set<KeyRegister>  // key registers that hold KEY1 and wait for KEY2
    var busyFor: nat             // how many more reads of STATR show BSY
    var wrprterr: bool           // the WRPRTERR flag of STATR
    var readProtected: bool      // the RDPRT flag of OBR, as it was at reset
    var mem: seq<Word>
    var optionWords: seq<Word>
    var pageBuffer: seq<Word>
    var latched: (u32, Word)     // the last word stored to a flash address
    var trace: seq<Event>

    ghost predicate Valid()
      reads this
    {
      && part.Valid()
      && 4 * |mem| == part.end - part.base && |optionWords| == 4 && |pageBuffer| == 64
      && keyed == {}
      && OneModeAtEachStart(trace)
    }

    /** The state every driver call starts from and returns to. */
    ghost predicate Ready()
      reads this
    {
      Valid() && NoMode(ctlr)
    }

    /** After reset: both locks closed, no mode selected, nothing under way and nothing logged. */
    constructor (part: Part, mem: seq<Word>, optionWords: seq<Word>, pageBuffer: seq<Word>, wrprterr: bool,
        readProtected: bool)
      requires part.Valid() && 4 * |mem| == part.end - part.base && |optionWords| == 4 && |pageBuffer| == 64
      ensures Ready() && this.part == part && ctlr == {LOCK, FLOCK} && busyFor == 0 && trace == []
      ensures this.mem == mem && this.optionWords == optionWords && this.pageBuffer == pageBuffer
      ensures this.wrprterr == wrprterr && this.readProtected == readProtected
    {
      this.part, this.mem, this.optionWords, this.pageBuffer := part, mem, optionWords, pageBuffer;
      this.wrprterr, this.readProtected := wrprterr, readProtected;
      ctlr, addr, keyed, busyFor, latched, trace := {LOCK, FLOCK}, 0, {}, 0, (0, 0), [];
    }

    /** `CTLR |= bit`; ignored while the controller is locked. */
    method SetBit(b: Bit)
      modifies `ctlr
      ensures ctlr == if LOCK in old(ctlr) then old(ctlr) else old(ctlr) + {b}
    {
      if LOCK !in ctlr {
        ctlr := ctlr + {b};
      }
    }

    /** `CTLR &= ~bits`; ignored while the controller is locked. */
    method ClearBits(bs: set<Bit>)
      modifies `ctlr
      ensures ctlr == if LOCK in old(ctlr) then old(ctlr) else old(ctlr) - bs
    {
      if LOCK !in ctlr {
        ctlr := ctlr - bs;
      }
    }

    /** KEY1 followed by KEY2 opens what the register guards; any other write closes the attempt. */
    method WriteKey(r: KeyRegister, key: Word)
      modifies `ctlr, `keyed
      ensures keyed == if key == 0x45670123 && r !in old(keyed) then old(keyed) + {r} else old(keyed) - {r}
      ensures ctlr == if key == 0xCDEF89AB && r in old(keyed) then Opened(r, old(ctlr)) else old(ctlr)
    {
      if key == KEY2 && r in keyed {
        ctlr := Opened(r, ctlr);
      }
      keyed := if key == KEY1 && r !in keyed then keyed + {r} else keyed - {r};
    }

    static function Opened(r: KeyRegister, bits: set<Bit>): set<Bit> {
      match r
      case Keyr => bits - {LOCK}
      case ModeKeyr => bits - {FLOCK}
      case ObKeyr => bits + {OBWRE}
    }

    method WriteAddr(a: u32)
      modifies `addr
      ensures addr == a
    {
      addr := a;
    }

    /** A word stored to a flash address is latched for the next buffer load. */
    method Store(a: u32, w: Word)
      modifies `latched
      ensures latched == (a, w)
    {
      latched := (a, w);
    }

    /** `CTLR |= STRT`. A locked controller ignores it. Otherwise it is logged with the mode bits it finds; it takes
        effect if no operation is under way and there is just one of them, which is then `mode`. */
    method Strt(ghost mode: Bit)
      requires |optionWords| == 4 && |pageBuffer| == 64
      modifies `busyFor, `mem, `optionWords, `trace
      ensures trace == if LOCK in ctlr then old(trace) else old(trace) + [Start(ctlr * MODES, addr)]
      ensures LOCK in ctlr || old(busyFor) > 0 || !OneMode(ctlr * MODES) ==>
        busyFor == old(busyFor) && mem == old(mem) && optionWords == old(optionWords)
      ensures LOCK !in ctlr && old(busyFor) == 0 && mode in MODES && ctlr * MODES == {mode} ==>
        && busyFor == part.delay(|old(trace)|)
        && mem == part.MemAfter(old(mem), mode, addr, FLOCK !in ctlr, pageBuffer)
        && optionWords == part.OptionsAfter(old(optionWords), mode, addr, FLOCK !in ctlr, OBWRE in ctlr, pageBuffer)
      ensures |optionWords| == 4
    {
      if LOCK !in ctlr {
        if busyFor == 0 && OneMode(ctlr * MODES) {
          var m := ModeOf(ctlr);
          assert ctlr * MODES == {mode} ==> m == mode by {
            assert forall b :: b in MODES && b in ctlr ==> b in ctlr * MODES;
            assert ctlr * MODES == {mode} ==> mode in ctlr * MODES;
          }
          mem := part.MemAfter(mem, m, addr, FLOCK !in ctlr, pageBuffer);
          optionWords := part.OptionsAfter(optionWords, m, addr, FLOCK !in ctlr, OBWRE in ctlr, pageBuffer);
          busyFor := part.delay(|trace|);
        }
        trace := trace + [Start(ctlr * MODES, addr)];
      }
    }

    /** Whether the page buffer answers: page programming selected and neither lock closed. */
    predicate BufferOpen()
      reads `ctlr
    {
      FTPG in ctlr && LOCK !in ctlr && FLOCK !in ctlr
    }

    /** `CTLR |= BUF_RST`. */
    method BufRst()
      requires |pageBuffer| == 64
      modifies `busyFor, `pageBuffer, `trace
      ensures |pageBuffer| == 64
      ensures trace == if BufferOpen() then old(trace) + [Reset] else old(trace)
      ensures !BufferOpen() || old(busyFor) > 0 ==> busyFor == old(busyFor) && pageBuffer == old(pageBuffer)
      ensures BufferOpen() && old(busyFor) == 0 ==>
        && (forall k :: 0 <= k < 64 ==> pageBuffer[k] == part.blank)
        && busyFor == part.delay(|old(trace)|)
    {
      if BufferOpen() {
        if busyFor == 0 {
          pageBuffer := seq(64, i => part.blank);
          busyFor := part.delay(|trace|);
        }
        trace := trace + [Reset];
      }
    }

    /** `CTLR |= BUF_LOAD`: the latched word goes to its slot of the page buffer. */
    method BufLoad()
      requires |pageBuffer| == 64
      modifies `busyFor, `pageBuffer, `trace
      ensures |pageBuffer| == 64
      ensures trace == if BufferOpen() then old(trace) + [Load(latched.0, latched.1)] else old(trace)
      ensures !BufferOpen() || old(busyFor) > 0 ==> busyFor == old(busyFor) && pageBuffer == old(pageBuffer)
      ensures BufferOpen() && old(busyFor) == 0 ==>
        && pageBuffer == old(pageBuffer)[(latched.0 % 0x100) / 4 := latched.1]
        && busyFor == part.delay(|old(trace)|)
    {
      if BufferOpen() {
        if busyFor == 0 {
          pageBuffer := pageBuffer[(latched.0 % 0x100) / 4 := latched.1];
          busyFor := part.delay(|trace|);
        }
        trace := trace + [Load(latched.0, latched.1)];
      }
    }

    /** `STATR & BSY`. */
    method ReadBusy() returns (busy: bool)
      modifies `busyFor
      ensures busy == (old(busyFor) > 0)
      ensures busyFor == if busy then old(busyFor) - 1 else 0
    {
      busy := busyFor > 0;
      if busy {
        busyFor := busyFor - 1;
      }
    }

    /** `while(STATR & BSY);` */
    method WaitWhileBusy()
      modifies `busyFor
      ensures busyFor == 0
    {
      var busy := ReadBusy();
      while busy
        invariant !busy ==> busyFor == 0
        decreases busyFor, busy
      {
        busy := ReadBusy();
      }
    }
  }
}
