/**
 The single operations of the flash driver: waiting with a time-out, the page and block erases, the page buffer.
 */
module FlashOperations {
  import opened FlashDevice
  import opened FlashErase

  /** FLASH_WaitForLastOperation: `polls` reads of the status. With `busyFor` polls still to show BSY it gives the
      status that follows if that comes before the time-out has run down, and Timeout otherwise; never Busy. */
  method WaitForLastOperation(f: Flash, timeout: u32) returns (status: Status, ghost polls: nat)
    modifies f`busyFor
    ensures status == WaitResult(old(f.busyFor), f.wrprterr, timeout)
    ensures polls == (if old(f.busyFor) < timeout then old(f.busyFor) else timeout) + 1
    ensures f.busyFor == BusyAfter(old(f.busyFor), timeout)
    ensures f.busyFor == if old(f.busyFor) > polls then old(f.busyFor) - polls else 0
  {
    var left := timeout;
    status := GetBank1Status(f);
    polls := 1;
    while status == Busy && left != 0
      invariant 0 <= left && left + polls == timeout + 1 && polls <= old(f.busyFor) + 1
      invariant status == if old(f.busyFor) >= polls then Busy else WaitResult(0, f.wrprterr, 1)
      invariant f.busyFor == if old(f.busyFor) < polls then 0 else old(f.busyFor) - polls
      decreases left
    {
      status := GetBank1Status(f);
      polls := polls + 1;
      left := left - 1;
    }
    if left == 0 {
      status := Timeout;
    }
  }

  /** The numbers of the enumeration. */
  function Code(s: Status): int {
    match s
    case Busy => 1
    case ErrorWrp => 3
    case Complete => 4
    case Timeout => 5
    case ReadProtected => 6
    case OpRangeError => 0xFD
    case AlignError => 0xFE
    case AdrRangeError => 0xFF
  }

  const FLAG_BANK1_BSY := 1

  /** FLASH_WaitForLastBank1Operation compares the status with a flag of STATR instead, and does the same. */
  method WaitForLastBank1Operation(f: Flash, timeout: u32) returns (status: Status, ghost polls: nat)
    modifies f`busyFor
    ensures status == WaitResult(old(f.busyFor), f.wrprterr, timeout)
    ensures polls == (if old(f.busyFor) < timeout then old(f.busyFor) else timeout) + 1
    ensures f.busyFor == BusyAfter(old(f.busyFor), timeout)
    ensures f.busyFor == if old(f.busyFor) > polls then old(f.busyFor) - polls else 0
  {
    var left := timeout;
    status := GetBank1Status(f);
    polls := 1;
    while Code(status) == FLAG_BANK1_BSY && left != 0
      invariant 0 <= left && left + polls == timeout + 1 && polls <= old(f.busyFor) + 1
      invariant status == if old(f.busyFor) >= polls then Busy else WaitResult(0, f.wrprterr, 1)
      invariant f.busyFor == if old(f.busyFor) < polls then 0 else old(f.busyFor) - polls
      decreases left
    {
      status := GetBank1Status(f);
      polls := polls + 1;
      left := left - 1;
    }
    if left == 0 {
      status := Timeout;
    }
  }

  function WaitResult(busyFor: nat, wrprterr: bool, timeout: u32): Status {
    if busyFor >= timeout then Timeout else if wrprterr then ErrorWrp else Complete
  }

  /** How long the controller stays busy after a wait: not at all, unless the wait timed out. */
  function BusyAfter(busyFor: nat, timeout: u32): nat {
    if busyFor <= timeout then 0 else busyFor - (timeout + 1)
  }

  method GetBank1Status(f: Flash) returns (status: Status)
    modifies f`busyFor
    ensures status == if old(f.busyFor) > 0 then Busy else if f.wrprterr then ErrorWrp else Complete
    ensures f.busyFor == if old(f.busyFor) > 0 then old(f.busyFor) - 1 else 0
  {
    var busy := f.ReadBusy();
    status := if busy then Busy else if f.wrprterr then ErrorWrp else Complete;
  }

  /** What the two erases share once the mode is selected: start, wait, deselect. */
  method RunErase(f: Flash, mode: Bit) returns (status: Status)
    requires f.Valid() && f.busyFor == 0 && mode in {PER, MER} && (LOCK !in f.ctlr ==> f.ctlr * MODES == {mode})
    modifies f`ctlr, f`busyFor, f`mem, f`optionWords, f`trace
    ensures f.Valid() && f.optionWords == old(f.optionWords)
    ensures LOCK in old(f.ctlr) ==>
      && status == WaitResult(0, f.wrprterr, ERASE_TIMEOUT) && f.busyFor == 0
      && f.ctlr == old(f.ctlr) && f.mem == old(f.mem) && f.trace == old(f.trace)
    ensures LOCK !in old(f.ctlr) ==>
      && status == WaitResult(f.part.delay(|old(f.trace)|), f.wrprterr, ERASE_TIMEOUT)
      && f.busyFor == BusyAfter(f.part.delay(|old(f.trace)|), ERASE_TIMEOUT)
      && f.ctlr == old(f.ctlr) - {mode}
      && f.trace == old(f.trace) + [Start({mode}, f.addr)]
      && f.mem == f.part.MemAfter(old(f.mem), mode, f.addr, FLOCK !in old(f.ctlr), f.pageBuffer)
  {
    f.Strt(mode);
    ghost var polls;
    status, polls := WaitForLastOperation(f, ERASE_TIMEOUT);
    f.ClearBits({mode});
  }

  /** FLASH_ErasePage: the 2 KB page around an address. A locked controller ignores it; the answer is Complete all the
      same. */
  method ErasePage(f: Flash, page: u32) returns (status: Status)
    requires f.Ready()
    modifies f`ctlr, f`addr, f`busyFor, f`mem, f`optionWords, f`trace
    ensures f.Ready() && f.ctlr == old(f.ctlr) && f.optionWords == old(f.optionWords)
    ensures var first := WaitResult(old(f.busyFor), f.wrprterr, ERASE_TIMEOUT);
      if first != Complete then
        && status == first && f.busyFor == BusyAfter(old(f.busyFor), ERASE_TIMEOUT)
        && f.mem == old(f.mem) && f.trace == old(f.trace) && f.addr == old(f.addr)
      else if LOCK in f.ctlr then
        status == Complete && f.busyFor == 0 && f.mem == old(f.mem) && f.trace == old(f.trace) && f.addr == page
      else
        && status == WaitResult(f.part.delay(|old(f.trace)|), f.wrprterr, ERASE_TIMEOUT)
        && f.busyFor == BusyAfter(f.part.delay(|old(f.trace)|), ERASE_TIMEOUT)
        && f.trace == old(f.trace) + [Start({PER}, page)] && f.addr == page
        && f.mem == f.part.Erased(old(f.mem), page - page % 0x800, 0x800)
  {
    ghost var polls;
    status, polls := WaitForLastOperation(f, ERASE_TIMEOUT);
    if status == Complete {
      SetMode(f.ctlr, PER);
      f.ClearBits({OBER, FTER});
      f.SetBit(PER);
      f.WriteAddr(page);
      status := RunErase(f, PER);
    }
  }

  /** FLASH_EraseAllPages. */
  method EraseAllPages(f: Flash) returns (status: Status)
    requires f.Ready()
    modifies f`ctlr, f`busyFor, f`mem, f`optionWords, f`trace
    ensures f.Ready() && f.ctlr == old(f.ctlr) && f.optionWords == old(f.optionWords)
    ensures var first := WaitResult(old(f.busyFor), f.wrprterr, ERASE_TIMEOUT);
      if first != Complete then
        && status == first && f.busyFor == BusyAfter(old(f.busyFor), ERASE_TIMEOUT)
        && f.mem == old(f.mem) && f.trace == old(f.trace)
      else if LOCK in f.ctlr then
        status == Complete && f.busyFor == 0 && f.mem == old(f.mem) && f.trace == old(f.trace)
      else
        && status == WaitResult(f.part.delay(|old(f.trace)|), f.wrprterr, ERASE_TIMEOUT)
        && f.busyFor == BusyAfter(f.part.delay(|old(f.trace)|), ERASE_TIMEOUT)
        && f.trace == old(f.trace) + [Start({MER}, f.addr)]
        && |f.mem| == |old(f.mem)| && forall i :: 0 <= i < |f.mem| ==> f.mem[i] == f.part.blank
  {
    ghost var polls;
    status, polls := WaitForLastOperation(f, ERASE_TIMEOUT);
    if status == Complete {
      SetMode(f.ctlr, MER);
      f.ClearBits({OBER, FTER});
      f.SetBit(MER);
      status := RunErase(f, MER);
    }
  }

  method UnlockOptions(f: Flash)
    requires f.keyed == {}
    modifies f`ctlr, f`keyed
    ensures f.keyed == {} && f.ctlr == old(f.ctlr) - {LOCK} + {OBWRE}
  {
    f.WriteKey(Keyr, KEY1);
    f.WriteKey(Keyr, KEY2);
    f.WriteKey(ObKeyr, KEY1);
    f.WriteKey(ObKeyr, KEY2);
  }

  /** FLASH_EraseOptionBytes: unlocks by itself, and locks again once it has started the erase. */
  method EraseOptionBytes(f: Flash) returns (status: Status)
    requires f.Ready()
    modifies f`ctlr, f`keyed, f`busyFor, f`mem, f`optionWords, f`trace
    ensures f.Ready() && f.mem == old(f.mem)
    ensures WaitResult(old(f.busyFor), f.wrprterr, ERASE_TIMEOUT) != Complete ==>
      && status == WaitResult(old(f.busyFor), f.wrprterr, ERASE_TIMEOUT)
      && f.busyFor == BusyAfter(old(f.busyFor), ERASE_TIMEOUT)
      && f.optionWords == old(f.optionWords) && f.trace == old(f.trace) && f.ctlr == old(f.ctlr)
    ensures WaitResult(old(f.busyFor), f.wrprterr, ERASE_TIMEOUT) == Complete ==>
      && status == WaitResult(f.part.delay(|old(f.trace)|), f.wrprterr, ERASE_TIMEOUT)
      && f.busyFor == BusyAfter(f.part.delay(|old(f.trace)|), ERASE_TIMEOUT)
      && f.trace == old(f.trace) + [Start({OBER}, f.addr)]
      && f.optionWords == [f.part.blank, f.part.blank, f.part.blank, f.part.blank]
      && f.ctlr == old(f.ctlr) + {OBWRE, LOCK}
  {
    ghost var polls;
    status, polls := WaitForLastOperation(f, ERASE_TIMEOUT);
    if status == Complete {
      UnlockOptions(f);
      status := StartOptionErase(f);
      f.SetBit(LOCK);
    }
  }

  method StartOptionErase(f: Flash) returns (status: Status)
    requires f.Ready() && f.busyFor == 0 && LOCK !in f.ctlr && OBWRE in f.ctlr
    modifies f`ctlr, f`busyFor, f`mem, f`optionWords, f`trace
    ensures f.Ready() && f.mem == old(f.mem) && f.ctlr == old(f.ctlr)
    ensures status == WaitResult(f.part.delay(|old(f.trace)|), f.wrprterr, ERASE_TIMEOUT)
    ensures f.busyFor == BusyAfter(f.part.delay(|old(f.trace)|), ERASE_TIMEOUT)
    ensures f.trace == old(f.trace) + [Start({OBER}, f.addr)]
    ensures f.optionWords == [f.part.blank, f.part.blank, f.part.blank, f.part.blank]
  {
    SetMode(f.ctlr, OBER);
    f.ClearBits({OBER, FTER});
    f.SetBit(OBER);
    f.Strt(OBER);
    ghost var polls;
    status, polls := WaitForLastOperation(f, ERASE_TIMEOUT);
    f.ClearBits({OBER});
  }

  /** FLASH_BufReset; without effect while either lock is closed or the controller is busy. */
  method BufReset(f: Flash)
    requires f.Ready()
    modifies f`ctlr, f`busyFor, f`pageBuffer, f`trace
    ensures f.Ready() && f.busyFor == 0 && f.ctlr == old(f.ctlr)
    ensures f.trace == if LOCK in f.ctlr || FLOCK in f.ctlr then old(f.trace) else old(f.trace) + [Reset]
    ensures if LOCK in f.ctlr || FLOCK in f.ctlr || old(f.busyFor) > 0 then
        f.pageBuffer == old(f.pageBuffer)
      else
        forall k :: 0 <= k < 64 ==> f.pageBuffer[k] == f.part.blank
  {
    SetMode(f.ctlr, FTPG);
    f.ClearBits({OBER, FTER});
    f.SetBit(FTPG);
    f.BufRst();
    f.WaitWhileBusy();
    f.ClearBits({FTPG});
  }

  /** FLASH_BufLoad; without effect while either lock is closed or the controller is busy. */
  method BufLoad(f: Flash, address: u32, data: Word)
    requires f.Ready()
    modifies f`ctlr, f`busyFor, f`pageBuffer, f`latched, f`trace
    ensures f.Ready() && f.busyFor == 0 && f.ctlr == old(f.ctlr)
    ensures f.trace == if LOCK in f.ctlr || FLOCK in f.ctlr then old(f.trace) else old(f.trace) + [Load(address, data)]
    ensures f.pageBuffer ==
      if LOCK in f.ctlr || FLOCK in f.ctlr || old(f.busyFor) > 0 then old(f.pageBuffer)
      else old(f.pageBuffer)[(address % 0x100) / 4 := data]
  {
    SetMode(f.ctlr, FTPG);
    f.ClearBits({OBER, FTER});
    f.SetBit(FTPG);
    f.Store(address, data);
    f.BufLoad();
    f.WaitWhileBusy();
    f.ClearBits({FTPG});
  }

  /** What the three fast operations share: select the mode, start, wait, deselect. The fast lock, while closed, or the
      controller, while busy, keeps array and option words as they are; the other lock keeps the start from being seen
      at all. */
  method RunFast(f: Flash, mode: Bit, address: u32)
    requires f.Ready() && mode in {FTPG, FTER, BER32}
    modifies f`ctlr, f`addr, f`busyFor, f`mem, f`optionWords, f`trace
    ensures f.Ready() && f.busyFor == 0 && f.ctlr == old(f.ctlr) && f.addr == address
    ensures f.trace == if LOCK in f.ctlr then old(f.trace) else old(f.trace) + [Start({mode}, address)]
    ensures LOCK in f.ctlr || old(f.busyFor) > 0 ==> f.mem == old(f.mem) && f.optionWords == old(f.optionWords)
    ensures LOCK !in f.ctlr && old(f.busyFor) == 0 ==>
      && f.mem == f.part.MemAfter(old(f.mem), mode, address, FLOCK !in f.ctlr, f.pageBuffer)
      && f.optionWords ==
           f.part.OptionsAfter(old(f.optionWords), mode, address, FLOCK !in f.ctlr, OBWRE in f.ctlr, f.pageBuffer)
  {
    SetMode(f.ctlr, mode);
    f.ClearBits({OBER, FTER});
    f.SetBit(mode);
    f.WriteAddr(address);
    f.Strt(mode);
    f.WaitWhileBusy();
    f.ClearBits({mode});
  }

  /** Whether a fast operation takes effect: both locks open and the controller idle. */
  predicate TakesEffect(ctlr: set<Bit>, busyFor: nat) {
    LOCK !in ctlr && FLOCK !in ctlr && busyFor == 0
  }

  /** FLASH_ProgramPage_Fast. */
  method ProgramPageFast(f: Flash, page: u32)
    requires f.Ready()
    modifies f`ctlr, f`addr, f`busyFor, f`mem, f`optionWords, f`trace
    ensures f.Ready() && f.busyFor == 0 && f.ctlr == old(f.ctlr) && f.addr == page
    ensures f.trace == if LOCK in f.ctlr then old(f.trace) else old(f.trace) + [Start({FTPG}, page)]
    ensures f.mem == if !TakesEffect(f.ctlr, old(f.busyFor)) then old(f.mem)
                     else f.part.Programmed(old(f.mem), page - page % 0x100, f.pageBuffer)
    ensures f.optionWords ==
      if !TakesEffect(f.ctlr, old(f.busyFor)) then old(f.optionWords)
      else f.part.OptionsAfter(old(f.optionWords), FTPG, page, true, OBWRE in f.ctlr, f.pageBuffer)
  {
    RunFast(f, FTPG, page);
  }

  /** FLASH_ErasePage_Fast: the 256-byte page around an address. */
  method ErasePageFast(f: Flash, page: u32)
    requires f.Ready()
    modifies f`ctlr, f`addr, f`busyFor, f`mem, f`optionWords, f`trace
    ensures f.Ready() && f.busyFor == 0 && f.ctlr == old(f.ctlr) && f.addr == page
    ensures f.optionWords == old(f.optionWords)
    ensures f.trace == if LOCK in f.ctlr then old(f.trace) else old(f.trace) + [Start({FTER}, page)]
    ensures f.mem == if !TakesEffect(f.ctlr, old(f.busyFor)) then old(f.mem)
                     else f.part.Erased(old(f.mem), page - page % 0x100, 0x100)
  {
    RunFast(f, FTER, page);
  }

  /** FLASH_EraseBlock_32K_Fast. */
  method EraseBlock32KFast(f: Flash, block: u32)
    requires f.Ready()
    modifies f`ctlr, f`addr, f`busyFor, f`mem, f`optionWords, f`trace
    ensures f.Ready() && f.busyFor == 0 && f.ctlr == old(f.ctlr) && f.optionWords == old(f.optionWords)
    ensures f.addr == block - block % 0x8000
    ensures f.trace == if LOCK in f.ctlr then old(f.trace) else old(f.trace) + [Start({BER32}, block - block % 0x8000)]
    ensures f.mem == if !TakesEffect(f.ctlr, old(f.busyFor)) then old(f.mem)
                     else f.part.Erased(old(f.mem), block - block % 0x8000, 0x8000)
  {
    var base: u32 := block - block % 0x8000;
    assert base % 0x8000 == 0;
    RunFast(f, BER32, base);
  }
}
