/**
 Runs of the whole flash driver: any operations, in any order, whatever the controller is doing.
 */
module FlashRuns {
  import opened FlashDevice
  import opened FlashGranules
  import opened FlashErase
  import opened FlashWrite
  import opened FlashOperations
  import opened FlashOptions

  datatype Operation =
    | Unlock
    | Lock
    | UnlockFastMode
    | LockFastMode
    | ErasePage(page: u32)
    | EraseAllPages
    | EraseOptions
    | BufReset
    | BufLoad(address: u32, data: Word)
    | ErasePageFast(page: u32)
    | EraseBlock(block: u32)
    | ProgramPage(page: u32)
    | RomErase(startAddr: u32, length: u32)
    | RomWrite(startAddr: u32, pbuf: seq<Word>, length: u32)
    | Options(call: Call)

  /** A range may not end beyond the address space, and the words to be written must be there. */
  predicate Callable(op: Operation) {
    match op
    case RomErase(startAddr, length) => startAddr + length < 0x1_0000_0000
    case RomWrite(startAddr, pbuf, length) => startAddr + length < 0x1_0000_0000 && length <= 4 * |pbuf|
    case _ => true
  }

  // ----- What each operation does, from one state to the next

  datatype State = State(ctlr: set<Bit>, addr: int, busyFor: nat, mem: seq<Word>, optionWords: seq<Word>,
    pageBuffer: seq<Word>, trace: seq<Event>)

  function StateOf(f: Flash): State
    reads f
  {
    State(f.ctlr, f.addr, f.busyFor, f.mem, f.optionWords, f.pageBuffer, f.trace)
  }

  /** The flags no operation changes. */
  datatype Flags = Flags(readProtected: bool, wrprterr: bool)

  /** The four functions that open and close locks. */
  function Relocked(op: Operation, ctlr: set<Bit>): set<Bit> {
    match op
    case Unlock => ctlr - {LOCK}
    case Lock => ctlr + {LOCK}
    case UnlockFastMode => ctlr - {LOCK, FLOCK}
    case LockFastMode => if LOCK in ctlr then ctlr else ctlr + {FLOCK}
    case _ => ctlr
  }

  function EntryIn(flags: Flags, s: State): Entry {
    Entry(flags.readProtected, flags.wrprterr, s.busyFor, s.ctlr)
  }

  predicate IsFree(flags: Flags, s: State) {
    WaitResult(s.busyFor, flags.wrprterr, ERASE_TIMEOUT) == Complete
  }

  /** An erase that waits for the controller before and after: one start, if the controller is free and not locked. */
  ghost predicate TimedErase(part: Part, flags: Flags, mode: Bit, addr: int, s: State, t: State) {
    && t.ctlr == s.ctlr && t.optionWords == s.optionWords && t.pageBuffer == s.pageBuffer
    && if !IsFree(flags, s) then
         t.busyFor == BusyAfter(s.busyFor, ERASE_TIMEOUT) && t.mem == s.mem && t.trace == s.trace && t.addr == s.addr
       else if LOCK in s.ctlr then
         t.busyFor == 0 && t.mem == s.mem && t.trace == s.trace && t.addr == addr
       else
         && t.addr == addr
         && t.busyFor == BusyAfter(part.delay(|s.trace|), ERASE_TIMEOUT)
         && t.trace == s.trace + [Start({mode}, addr)]
         && (mode == PER ==> t.mem == part.Erased(s.mem, addr - addr % 0x800, 0x800))
         && (mode == MER ==> |t.mem| == |s.mem| && forall i :: 0 <= i < |t.mem| ==> t.mem[i] == part.blank)
  }

  ghost predicate OptionErase(part: Part, flags: Flags, s: State, t: State) {
    && t.mem == s.mem && t.pageBuffer == s.pageBuffer && t.addr == s.addr
    && if !IsFree(flags, s) then
         t == s.(busyFor := BusyAfter(s.busyFor, ERASE_TIMEOUT))
       else
         && t.busyFor == BusyAfter(part.delay(|s.trace|), ERASE_TIMEOUT)
         && t.trace == s.trace + [Start({OBER}, s.addr)] && t.ctlr == s.ctlr + {OBWRE, LOCK}
         && t.optionWords == [part.blank, part.blank, part.blank, part.blank]
  }

  /** A fast operation: one start, if the controller is not locked, and `mem` afterwards if it takes effect. */
  ghost predicate FastOperation(mode: Bit, addr: int, mem: seq<Word>, s: State, t: State) {
    && t.ctlr == s.ctlr && t.busyFor == 0 && t.addr == addr && t.pageBuffer == s.pageBuffer
    && t.trace == (if LOCK in s.ctlr then s.trace else s.trace + [Start({mode}, addr)])
    && t.mem == if TakesEffect(s.ctlr, s.busyFor) then mem else s.mem
  }

  ghost predicate PageProgram(part: Part, page: u32, s: State, t: State)
    requires |s.optionWords| == 4 && |s.pageBuffer| == 64
  {
    && FastOperation(FTPG, page, part.Programmed(s.mem, page - page % 0x100, s.pageBuffer), s, t)
    && t.optionWords == if !TakesEffect(s.ctlr, s.busyFor) then s.optionWords
                        else part.OptionsAfter(s.optionWords, FTPG, page, true, OBWRE in s.ctlr, s.pageBuffer)
  }

  /** A command to the page buffer. */
  ghost predicate BufferCommand(event: Event, s: State, t: State) {
    && t.ctlr == s.ctlr && t.busyFor == 0 && t.addr == s.addr && t.mem == s.mem && t.optionWords == s.optionWords
    && t.trace == (if LOCK in s.ctlr || FLOCK in s.ctlr then s.trace else s.trace + [event])
    && (!TakesEffect(s.ctlr, s.busyFor) ==> t.pageBuffer == s.pageBuffer)
  }

  ghost predicate RangeErase(part: Part, startAddr: u32, length: u32, s: State, t: State) {
    if RequestStatus(part, startAddr, length) != Complete then t == s
    else exists gs: seq<Granule> ::
      && MaximalTiling(gs, startAddr, startAddr + length) && gs != []
      && t.trace == s.trace + Commands(gs) && t.busyFor == 0 && t.ctlr == s.ctlr + {LOCK, FLOCK}
      && t.mem == (if s.busyFor == 0 then part.Erased(s.mem, startAddr, length) else EraseAll(part, s.mem, gs[1..]))
      && t.optionWords == s.optionWords && t.pageBuffer == s.pageBuffer && t.addr == gs[|gs| - 1].Addr()
  }

  ghost predicate RangeWrite(part: Part, startAddr: u32, pbuf: seq<Word>, length: u32, s: State, t: State)
    requires length <= 4 * |pbuf|
  {
    if RequestStatus(part, startAddr, length) != Complete then t == s
    else
      && t.mem == Written(part, s.mem, WordAt(part, startAddr), pbuf, length / 4)
      && t.trace == s.trace + WriteCommands(startAddr, pbuf, length / 0x100)
      && t.optionWords == s.optionWords && t.busyFor == 0 && t.ctlr == s.ctlr + {LOCK, FLOCK}
      && t.addr == startAddr + length - 0x100 && t.pageBuffer == pbuf[length / 4 - 64..length / 4]
  }

  ghost predicate OptionCall(part: Part, flags: Flags, call: Call, s: State, t: State)
    requires |s.optionWords| == 4 && |s.pageBuffer| == 64
  {
    var e := EntryIn(flags, s);
    && t.optionWords == Outcome(part, call, s.optionWords, e).1
    && EntryIn(flags, t) == After(call, e)
    && t.trace == s.trace + CallCommands(call, s.optionWords, e, s.addr)
    && t.pageBuffer == BufferAfter(part, call, s.optionWords, e, s.pageBuffer, |s.trace|)
    && t.addr == (if Programs(call, e) then OB_BASE else s.addr)
    && t.mem == s.mem
  }

  ghost predicate Effect(part: Part, flags: Flags, op: Operation, s: State, t: State)
    requires |s.optionWords| == 4 && |s.pageBuffer| == 64 && Callable(op)
  {
    match op
    case ErasePage(page) => TimedErase(part, flags, PER, page, s, t)
    case EraseAllPages => TimedErase(part, flags, MER, s.addr, s, t)
    case EraseOptions => OptionErase(part, flags, s, t)
    case BufReset =>
      && BufferCommand(Reset, s, t)
      && (TakesEffect(s.ctlr, s.busyFor) ==>
            |t.pageBuffer| == 64 && forall k :: 0 <= k < 64 ==> t.pageBuffer[k] == part.blank)
    case BufLoad(address, data) =>
      && BufferCommand(Load(address, data), s, t)
      && (TakesEffect(s.ctlr, s.busyFor) ==> t.pageBuffer == s.pageBuffer[(address % 0x100) / 4 := data])
    case ErasePageFast(page) =>
      FastOperation(FTER, page, part.Erased(s.mem, page - page % 0x100, 0x100), s, t) && t.optionWords == s.optionWords
    case EraseBlock(block) =>
      && FastOperation(BER32, block - block % 0x8000, part.Erased(s.mem, block - block % 0x8000, 0x8000), s, t)
      && t.optionWords == s.optionWords
    case ProgramPage(page) => PageProgram(part, page, s, t)
    case RomErase(startAddr, length) => RangeErase(part, startAddr, length, s, t)
    case RomWrite(startAddr, pbuf, length) => RangeWrite(part, startAddr, pbuf, length, s, t)
    case Options(call) => OptionCall(part, flags, call, s, t)
    case _ => t == s.(ctlr := Relocked(op, s.ctlr))
  }

  // ----- One operation

  method StepLocks(f: Flash, op: Operation)
    requires f.Ready() && (op.Unlock? || op.Lock? || op.UnlockFastMode? || op.LockFastMode?)
    modifies f`ctlr, f`keyed
    ensures f.Ready() && f.ctlr == Relocked(op, old(f.ctlr))
    ensures op.Unlock? ==> f.ctlr == old(f.ctlr) - {LOCK}
    ensures op.Lock? ==> f.ctlr == old(f.ctlr) + {LOCK}
    ensures op.UnlockFastMode? ==> f.ctlr == old(f.ctlr) - {LOCK, FLOCK}
    ensures op.LockFastMode? ==> f.ctlr == if LOCK in old(f.ctlr) then old(f.ctlr) else old(f.ctlr) + {FLOCK}
  {
    match op
    case Unlock =>
      f.WriteKey(Keyr, KEY1);
      f.WriteKey(Keyr, KEY2);
    case Lock => f.SetBit(LOCK);
    case UnlockFastMode => UnlockFast(f);
    case LockFastMode => f.SetBit(FLOCK);
  }

  method StepErase(f: Flash, op: Operation, ghost flags: Flags)
    requires f.Ready() && (op.ErasePage? || op.EraseAllPages? || op.EraseOptions?)
    requires flags == Flags(f.readProtected, f.wrprterr)
    modifies f`ctlr, f`keyed, f`addr, f`busyFor, f`mem, f`optionWords, f`trace
    ensures f.Ready() && Effect(f.part, flags, op, old(StateOf(f)), StateOf(f))
  {
    match op
    case ErasePage(page) => var _ := FlashOperations.ErasePage(f, page);
    case EraseAllPages => var _ := FlashOperations.EraseAllPages(f);
    case EraseOptions => var _ := EraseOptionBytes(f);
  }

  method StepProgram(f: Flash, page: u32)
    requires f.Ready()
    modifies f`ctlr, f`addr, f`busyFor, f`mem, f`optionWords, f`trace
    ensures f.Ready() && PageProgram(f.part, page, old(StateOf(f)), StateOf(f))
  {
    ProgramPageFast(f, page);
  }

  method StepFast(f: Flash, op: Operation, ghost flags: Flags)
    requires f.Ready() && (op.ErasePageFast? || op.EraseBlock?)
    modifies f`ctlr, f`addr, f`busyFor, f`mem, f`optionWords, f`trace
    ensures f.Ready() && Effect(f.part, flags, op, old(StateOf(f)), StateOf(f))
  {
    match op
    case ErasePageFast(page) => FlashOperations.ErasePageFast(f, page);
    case EraseBlock(block) => EraseBlock32KFast(f, block);
  }

  method StepBuffer(f: Flash, op: Operation, ghost flags: Flags)
    requires f.Ready() && (op.BufReset? || op.BufLoad?)
    modifies f`ctlr, f`busyFor, f`trace, f`pageBuffer, f`latched
    ensures f.Ready() && Effect(f.part, flags, op, old(StateOf(f)), StateOf(f))
  {
    match op
    case BufReset => FlashOperations.BufReset(f);
    case BufLoad(address, data) => FlashOperations.BufLoad(f, address, data);
  }

  method StepOptions(f: Flash, call: Call, ghost flags: Flags)
    requires f.Ready() && flags == Flags(f.readProtected, f.wrprterr)
    modifies f`ctlr, f`keyed, f`addr, f`busyFor, f`mem, f`optionWords, f`pageBuffer, f`latched, f`trace
    ensures f.Ready() && OptionCall(f.part, flags, call, old(StateOf(f)), StateOf(f))
  {
    match call
    case WriteProtect(pages) => var _ := EnableWriteProtection(f, pages);
    case ReadProtect => var _ := EnableReadOutProtection(f);
    case UserConfig(iwdg, stop, stdby, can) => var _ := UserOptionByteConfig(f, iwdg, stop, stdby, can);
  }

  method StepRange(f: Flash, op: Operation, ghost flags: Flags)
    requires f.Ready() && Callable(op) && (op.RomErase? || op.RomWrite?) && flags == Flags(f.readProtected, f.wrprterr)
    modifies f
    ensures f.Ready() && flags == Flags(f.readProtected, f.wrprterr)
    ensures Effect(f.part, flags, op, old(StateOf(f)), StateOf(f))
  {
    match op
    case RomErase(startAddr, length) => var _, _ := EraseRange(f, startAddr, length);
    case RomWrite(startAddr, pbuf, length) => var _ := WriteRange(f, startAddr, pbuf, length);
  }

  /** Every operation, whatever the controller is doing, has its effect and leaves no mode bit set; every start so far
      had exactly one. */
  method Step(f: Flash, op: Operation, ghost flags: Flags)
    requires f.Ready() && Callable(op) && flags == Flags(f.readProtected, f.wrprterr)
    modifies f
    ensures f.Ready() && flags == Flags(f.readProtected, f.wrprterr)
    ensures Effect(f.part, flags, op, old(StateOf(f)), StateOf(f))
  {
    if op.Unlock? || op.Lock? || op.UnlockFastMode? || op.LockFastMode? {
      StepLocks(f, op);
    } else if op.ErasePage? || op.EraseAllPages? || op.EraseOptions? {
      StepErase(f, op, flags);
    } else if op.RomErase? || op.RomWrite? {
      StepRange(f, op, flags);
    } else if op.Options? {
      StepOptions(f, op.call, flags);
    } else if op.BufReset? || op.BufLoad? {
      StepBuffer(f, op, flags);
    } else if op.ProgramPage? {
      StepProgram(f, op.page);
    } else {
      StepFast(f, op, flags);
    }
  }

  // ----- Runs

  /** The states a run goes through: each operation leads from one to the next. */
  ghost predicate Chain(part: Part, flags: Flags, ops: seq<Operation>, states: seq<State>) {
    && |states| == |ops| + 1
    && (forall i :: 0 <= i < |states| ==> |states[i].optionWords| == 4 && |states[i].pageBuffer| == 64)
    && (forall i :: 0 <= i < |ops| ==> Callable(ops[i]))
    && forall i :: 0 <= i < |ops| ==> Effect(part, flags, ops[i], states[i], states[i + 1])
  }

  /** Any run of operations, each of which has its effect: exactly one mode bit was set at each start there ever was,
      and none is set in the end. */
  method Run(f: Flash, ops: seq<Operation>) returns (ghost states: seq<State>)
    requires f.Ready() && forall op :: op in ops ==> Callable(op)
    modifies f
    ensures f.Ready() && NoMode(f.ctlr)
    ensures forall i :: 0 <= i < |f.trace| && f.trace[i].Start? ==> OneMode(f.trace[i].modes)
    ensures forall i :: 0 <= i < |f.trace| && f.trace[i].Start? ==> |f.trace[i].modes| == 1
    ensures f.ctlr !! {PER, MER, OBER, FTPG, FTER, BER32}
    ensures Chain(f.part, old(Flags(f.readProtected, f.wrprterr)), ops, states)
    ensures states[0] == old(StateOf(f)) && states[|ops|] == StateOf(f)
  {
    ghost var flags := Flags(f.readProtected, f.wrprterr);
    states := [StateOf(f)];
    for k := 0 to |ops|
      invariant f.Ready() && flags == Flags(f.readProtected, f.wrprterr)
      invariant Chain(f.part, flags, ops[..k], states)
      invariant states[0] == old(StateOf(f)) && states[k] == StateOf(f)
    {
      Step(f, ops[k], flags);
      states := states + [StateOf(f)];
    }
    assert ops[..|ops|] == ops;
    OneBitEach(f.trace);
    NoBit(f.ctlr);
  }

  lemma OneBitEach(trace: seq<Event>)
    requires OneModeAtEachStart(trace)
    ensures forall i :: 0 <= i < |trace| && trace[i].Start? ==> |trace[i].modes| == 1
  {
    forall i | 0 <= i < |trace| && trace[i].Start?
      ensures |trace[i].modes| == 1
    {
      var m :| m in MODES && trace[i].modes == {m};
    }
  }

  lemma NoBit(bits: set<Bit>)
    requires NoMode(bits)
    ensures bits !! {PER, MER, OBER, FTPG, FTER, BER32}
  {
    forall b | b in bits
      ensures b !in {PER, MER, OBER, FTPG, FTER, BER32}
    {
      assert b in MODES ==> b in bits * MODES;
    }
  }

  /** Any run of option calls leaves the option words that the calls make one after another, and never touches the
      array; if the option bytes can be erased at first, the half-words stay complemented and the data bytes as they
      were. */
  method RunOptions(f: Flash, calls: seq<Call>)
    requires f.Ready()
    modifies f`ctlr, f`keyed, f`addr, f`busyFor, f`mem, f`optionWords, f`pageBuffer, f`latched, f`trace
    ensures f.Ready() && f.mem == old(f.mem)
    ensures f.optionWords == AfterCalls(f.part, calls, old(f.optionWords), old(EntryOf(f)))
    ensures Kept(old(f.optionWords), f.optionWords, Harmless(f.part, old(EntryOf(f))))
  {
    ghost var last := AfterCalls(f.part, calls, f.optionWords, EntryOf(f));
    RunKeeps(f.part, calls, f.optionWords, EntryOf(f));
    for k := 0 to |calls|
      invariant f.Ready() && f.mem == old(f.mem)
      invariant last == AfterCalls(f.part, calls[k..], f.optionWords, EntryOf(f))
    {
      FirstCall(f.part, calls, k, f.optionWords, EntryOf(f));
      StepOptions(f, calls[k], Flags(f.readProtected, f.wrprterr));
    }
  }

  /** From words that are complemented, in a harmless state, words that are, with the same data bytes. */
  predicate Kept(before: seq<Word>, after: seq<Word>, harmless: bool)
    requires |before| == |after| == 4
  {
    harmless && AllComplemented(before) ==> AllComplemented(after) && after[1] == before[1]
  }

  lemma RunKeeps(part: Part, calls: seq<Call>, words: seq<Word>, e: Entry)
    requires |words| == 4
    ensures Kept(words, AfterCalls(part, calls, words, e), Harmless(part, e))
  {
    if AllComplemented(words) && Harmless(part, e) {
      RunKeepsOptions(part, calls, words, e);
    }
  }

  lemma FirstCall(part: Part, calls: seq<Call>, k: nat, words: seq<Word>, e: Entry)
    requires k < |calls| && |words| == 4
    ensures AfterCalls(part, calls[k..], words, e)
      == AfterCalls(part, calls[k + 1..], Outcome(part, calls[k], words, e).1, After(calls[k], e))
  {
    assert calls[k..][1..] == calls[k + 1..];
  }
}
