/**
 The option bytes: each configuration call reads the four option words, rebuilds some of them, erases the
 option bytes and programs all four words again.
 */
module FlashOptions {
  import opened FlashDevice
  import opened FlashErase
  import opened FlashOperations
  import opened FlashWrite

  datatype Call =
    | WriteProtect(pages: bv32)
    | ReadProtect
    | UserConfig(iwdg: bv8, stop: bv8, stdby: bv8, can: bv8)

  /** A byte of a word, counted from the lowest. */
  function Byte(w: Word, k: bv32): bv8
    requires k <= 3
  {
    ((w >> (8 * k)) & 0xFF) as bv8
  }

  function Complement(b: bv8): bv8 {
    !b
  }

  /** Both halves of the word hold a byte and, above it, its complement. */
  predicate Complemented(w: Word) {
    Byte(w, 1) == Complement(Byte(w, 0)) && Byte(w, 3) == Complement(Byte(w, 2))
  }

  predicate AllComplemented(words: seq<Word>)
    requires |words| == 4
  {
    Complemented(words[0]) && Complemented(words[1]) && Complemented(words[2]) && Complemented(words[3])
  }

  /** A byte, its complement above it, in the low half of a word. */
  function Pair(b: bv8): Word {
    (b as bv32) | ((!b as bv32) << 8)
  }

  /** Two bytes with their complements, in one word. */
  function Pairs(low: bv8, high: bv8): Word {
    Pair(low) | (Pair(high) << 16)
  }

  function ProtectedPages(pages: bv32, byte: bv32): bv8
    requires byte <= 3
  {
    ((!pages >> (byte << 3)) & 0xFF) as bv8
  }

  function UserByte(iwdg: bv8, stop: bv8, stdby: bv8, can: bv8): bv8 {
    iwdg | stop | stdby | can | 0xD8
  }

  /** The option words a call means to leave. */
  function Rebuilt(call: Call, words: seq<Word>): (r: seq<Word>)
    requires |words| == 4
    ensures |r| == 4
  {
    match call
    case WriteProtect(pages) =>
      [words[0], words[1], Pairs(ProtectedPages(pages, 0), ProtectedPages(pages, 1)), Pairs(0xFF, 0xFF)]
    case ReadProtect =>
      words[0 := Pair(0xFF) | (words[0] & 0xFFFF_0000)]
    case UserConfig(iwdg, stop, stdby, can) =>
      words[0 := Pairs(0xA5, UserByte(iwdg, stop, stdby, can))]
  }

  /** Every word a call rebuilds is complemented again. */
  lemma RebuiltComplemented(call: Call, words: seq<Word>)
    requires |words| == 4 && AllComplemented(words)
    ensures AllComplemented(Rebuilt(call, words))
  {
  }

  /** The old option words with new ones programmed over them without an erase. */
  function Blended(part: Part, words: seq<Word>, buf: seq<Word>): (r: seq<Word>)
    requires |words| == 4 && |buf| == 4
    ensures |r| == 4
  {
    [part.blend(words[0], buf[0]), part.blend(words[1], buf[1]), part.blend(words[2], buf[2]),
      part.blend(words[3], buf[3])]
  }

  /** What a call finds: the two flags, how many polls the controller is still busy for, and the control register. */
  datatype Entry = Entry(readProtected: bool, wrprterr: bool, busyFor: nat, ctlr: set<Bit>)

  /** How long a call waits for the controller before it reads the option words; the user option call does not, and the
      erase it then asks for waits for itself. */
  function WaitsFor(call: Call): u32 {
    match call
    case WriteProtect(_) => PROGRAM_TIMEOUT
    case ReadProtect => ERASE_TIMEOUT
    case UserConfig(_, _, _, _) => ERASE_TIMEOUT
  }

  /** The call gets as far as erasing the option bytes, */
  predicate Erases(call: Call, e: Entry) {
    !e.readProtected && WaitResult(e.busyFor, e.wrprterr, WaitsFor(call)) == Complete
  }

  /** or as far as programming them. */
  predicate Programs(call: Call, e: Entry) {
    Erases(call, e) || (!e.readProtected && call.UserConfig?)
  }

  /** The option words take programming. */
  predicate Open(part: Part, ctlr: set<Bit>) {
    OBWRE in ctlr || !part.optionsGuarded
  }

  /** What programming without an erase leaves. */
  function Overwritten(part: Part, ctlr: set<Bit>, words: seq<Word>, buf: seq<Word>): (r: seq<Word>)
    requires |words| == 4 && |buf| == 4
    ensures |r| == 4
  {
    if Open(part, ctlr) then Blended(part, words, buf) else words
  }

  /** What a call answers and the option words it leaves. */
  function Outcome(part: Part, call: Call, words: seq<Word>, e: Entry): (r: (Status, seq<Word>))
    requires |words| == 4
    ensures |r.1| == 4
  {
    if e.readProtected then (ReadProtected, words)
    else if Erases(call, e) then (Complete, Rebuilt(call, words))
    else if call.UserConfig? then (Complete, Overwritten(part, e.ctlr, words, Rebuilt(call, words)))
    else (WaitResult(e.busyFor, e.wrprterr, WaitsFor(call)), words)
  }

  /** What the next call finds. The erase opens the option words for good. */
  function After(call: Call, e: Entry): Entry {
    if e.readProtected then e
    else if Programs(call, e) then e.(busyFor := 0, ctlr := Reprogrammed(e.ctlr, Erases(call, e)))
    else e.(busyFor := BusyAfter(e.busyFor, WaitsFor(call)))
  }

  /** The control register after programming the option bytes: the other lock open, the fast one closed. */
  function Reprogrammed(ctlr: set<Bit>, erased: bool): set<Bit> {
    ctlr - {LOCK} + {FLOCK} + if erased then {OBWRE} else {}
  }

  /** The option words after a run of calls. */
  function AfterCalls(part: Part, calls: seq<Call>, words: seq<Word>, e: Entry): (r: seq<Word>)
    requires |words| == 4
    ensures |r| == 4
    decreases |calls|
  {
    if calls == [] then words
    else AfterCalls(part, calls[1..], Outcome(part, calls[0], words, e).1, After(calls[0], e))
  }

  /** The words a call rebuilds. */
  function Rebuilds(call: Call): set<int> {
    match call
    case WriteProtect(_) => {2, 3}
    case ReadProtect => {0}
    case UserConfig(_, _, _, _) => {0}
  }

  /** The half of the first word that holds the user byte. */
  function UserHalf(w: Word): Word {
    w & 0xFFFF_0000
  }

  lemma RebuiltKeeps(call: Call, words: seq<Word>)
    requires |words| == 4
    ensures forall i :: 0 <= i < 4 && i !in Rebuilds(call) ==> Rebuilt(call, words)[i] == words[i]
    ensures call.ReadProtect? ==> UserHalf(Rebuilt(call, words)[0]) == UserHalf(words[0])
  {
  }

  /** The option bytes can be erased, or the part is read-protected and no call gets that far. */
  predicate Safe(e: Entry) {
    e.readProtected || WaitResult(e.busyFor, e.wrprterr, ERASE_TIMEOUT) == Complete
  }

  /** Or else they cannot be programmed either. */
  predicate Harmless(part: Part, e: Entry) {
    Safe(e) || !Open(part, e.ctlr)
  }

  /** Then all eight half-words stay a byte and its complement; the words a call does not rebuild survive the erase, and
      read protection leaves the user byte alone. */
  lemma CallKeepsOptions(part: Part, call: Call, words: seq<Word>, e: Entry)
    requires |words| == 4 && AllComplemented(words) && Harmless(part, e)
    ensures var after := Outcome(part, call, words, e).1;
      && AllComplemented(after)
      && (forall i :: 0 <= i < 4 && i !in Rebuilds(call) ==> after[i] == words[i])
      && (call.ReadProtect? ==> UserHalf(after[0]) == UserHalf(words[0]))
  {
    RebuiltComplemented(call, words);
    RebuiltKeeps(call, words);
    var after := Outcome(part, call, words, e).1;
    assert after == words || after == Rebuilt(call, words);
  }

  lemma StaysHarmless(part: Part, call: Call, e: Entry)
    requires Harmless(part, e)
    ensures Harmless(part, After(call, e))
  {
  }

  lemma {:induction false} RunKeepsOptions(part: Part, calls: seq<Call>, words: seq<Word>, e: Entry)
    requires |words| == 4 && AllComplemented(words) && Harmless(part, e)
    ensures AllComplemented(AfterCalls(part, calls, words, e))
    ensures AfterCalls(part, calls, words, e)[1] == words[1]
    decreases |calls|
  {
    if calls != [] {
      CallKeepsOptions(part, calls[0], words, e);
      StaysHarmless(part, calls[0], e);
      RunKeepsOptions(part, calls[1..], Outcome(part, calls[0], words, e).1, After(calls[0], e));
    }
  }

  /** What programming leaves if it can only clear bits. */
  function Masked(before: Word, after: Word): Word {
    before & after
  }

  ghost predicate ClearsBits(part: Part) {
    forall before, after :: part.blend(before, after) == Masked(before, after)
  }

  lemma MaskedSame(w: Word)
    ensures Masked(w, w) == w
  {
  }

  function MaskedBits(before: bv8, after: bv8): bv8 {
    before & after
  }

  lemma MaskedByte(before: Word, after: Word, k: bv32)
    requires k <= 3
    ensures Byte(Masked(before, after), k) == MaskedBits(Byte(before, k), Byte(after, k))
  {
  }

  /** Two bytes and their complements, and one over the other leaves a byte and its complement: then they are equal. */
  lemma SameHalf(x: bv8, x': bv8, y: bv8, y': bv8)
    requires x' == Complement(x) && y' == Complement(y) && MaskedBits(x', y') == Complement(MaskedBits(x, y))
    ensures x == y && x' == y'
  {
  }

  lemma SameBytes(v: Word, w: Word)
    requires Byte(v, 0) == Byte(w, 0) && Byte(v, 1) == Byte(w, 1)
    requires Byte(v, 2) == Byte(w, 2) && Byte(v, 3) == Byte(w, 3)
    ensures v == w
  {
  }

  /** Programming one complemented word over another that differs clears a bit of one half and not its complement. */
  lemma MaskedLoses(before: Word, after: Word)
    requires Complemented(before) && Complemented(after) && before != after
    ensures !Complemented(Masked(before, after))
  {
    if Complemented(Masked(before, after)) {
      MaskedKeeps(before, after);
    }
  }

  lemma MaskedKeeps(before: Word, after: Word)
    requires Complemented(before) && Complemented(after) && Complemented(Masked(before, after))
    ensures before == after
  {
    MaskedByte(before, after, 0);
    MaskedByte(before, after, 1);
    MaskedByte(before, after, 2);
    MaskedByte(before, after, 3);
    SameHalf(Byte(before, 0), Byte(before, 1), Byte(after, 0), Byte(after, 1));
    SameHalf(Byte(before, 2), Byte(before, 3), Byte(after, 2), Byte(after, 3));
    SameBytes(before, after);
  }

  lemma BlendFirst(part: Part, words: seq<Word>, first: Word)
    requires ClearsBits(part)
    requires |words| == 4 && AllComplemented(words) && Complemented(first)
    ensures AllComplemented(Blended(part, words, words[0 := first])) <==> first == words[0]
  {
    MaskedSame(words[0]);
    MaskedSame(words[1]);
    MaskedSame(words[2]);
    MaskedSame(words[3]);
    if first != words[0] {
      MaskedLoses(words[0], first);
    }
  }

  /** On a part whose programming clears bits, for every call in every state: the half-words stay complemented exactly
      if the option bytes can be erased or cannot be programmed, or the call is one of the two that check, or it writes
      what is there. */
  lemma CallKeepsExactly(part: Part, call: Call, words: seq<Word>, e: Entry)
    requires ClearsBits(part)
    requires |words| == 4 && AllComplemented(words)
    ensures AllComplemented(Outcome(part, call, words, e).1) <==>
      Harmless(part, e) || !call.UserConfig? || Rebuilt(call, words)[0] == words[0]
  {
    RebuiltComplemented(call, words);
    if call.UserConfig? && !Harmless(part, e) {
      BlendFirst(part, words, Rebuilt(call, words)[0]);
    }
  }

  ghost predicate KeepsComplement(part: Part, calls: seq<Call>, words: seq<Word>, e: Entry)
    requires |words| == 4
  {
    AllComplemented(words) ==> AllComplemented(AfterCalls(part, calls, words, e))
  }

  /** So all runs keep them exactly if the part is read-protected; or WRPRTERR is clear and the operation under way, if
      any, ends within the erase time-out; or the option words are closed to programming. */
  lemma KeptExactlyWhen(part: Part, e: Entry)
    requires ClearsBits(part)
    ensures
      || e.readProtected
      || (!e.wrprterr && e.busyFor < ERASE_TIMEOUT)
      || (part.optionsGuarded && OBWRE !in e.ctlr)
      <==> forall calls, words | |words| == 4 :: KeepsComplement(part, calls, words, e)
  {
    if Harmless(part, e) {
      forall calls, words | |words| == 4
        ensures KeepsComplement(part, calls, words, e)
      {
        if AllComplemented(words) {
          RunKeepsOptions(part, calls, words, e);
        }
      }
    } else {
      LosesComplement(part, e);
    }
  }

  /** Option words whose bytes are all zero, under complements that are all ones. */
  const ZERO_BYTES: seq<Word> := [0xFF00_FF00, 0xFF00_FF00, 0xFF00_FF00, 0xFF00_FF00]

  lemma OneCall(part: Part, call: Call, words: seq<Word>, e: Entry)
    requires |words| == 4
    ensures AfterCalls(part, [call], words, e) == Outcome(part, call, words, e).1
  {
    assert [call][1..] == [];
  }

  /** A user option call made when the option bytes can be programmed but not erased: it answers Complete and leaves a
      byte without its complement. */
  lemma LosesComplement(part: Part, e: Entry)
    requires ClearsBits(part) && !Harmless(part, e)
    ensures AllComplemented(ZERO_BYTES)
    ensures Outcome(part, UserConfig(1, 2, 4, 0), ZERO_BYTES, e).0 == Complete
    ensures !KeepsComplement(part, [UserConfig(1, 2, 4, 0)], ZERO_BYTES, e)
  {
    var call := UserConfig(1, 2, 4, 0);
    CallKeepsExactly(part, call, ZERO_BYTES, e);
    OneCall(part, call, ZERO_BYTES, e);
    assert Rebuilt(call, ZERO_BYTES)[0] != ZERO_BYTES[0];
  }

  /** For instance with WRPRTERR clear and the part unprotected, while an operation outlasts the erase time-out, after
      any earlier call that erased the option bytes. */
  lemma LosesComplementWhenBusy(part: Part, call: Call, before: Entry, e: Entry)
    requires ClearsBits(part) && Erases(call, before)
    requires e == After(call, before).(busyFor := ERASE_TIMEOUT)
    ensures !e.readProtected && !e.wrprterr
    ensures !KeepsComplement(part, [UserConfig(1, 2, 4, 0)], ZERO_BYTES, e)
  {
    LosesComplement(part, e);
  }

  /** Programming the page of the option bytes touches the option words only. */
  lemma OptionPage(part: Part, mem: seq<Word>, words: seq<Word>, enabled: bool, buffer: seq<Word>, buf: seq<Word>)
    requires part.Valid() && 4 * |mem| == part.end - part.base && |words| == |buf| == 4 && |buffer| == 64 &&
        buf <= buffer
    ensures part.Programmed(mem, OB_BASE - OB_BASE % 0x100, buffer) == mem
    ensures part.OptionsAfter(words, FTPG, OB_BASE, true, enabled, buffer)
      == if enabled || !part.optionsGuarded then Blended(part, words, buf) else words
  {
  }

  /** The commands that program the four option words. */
  function OptionCommands(buf: seq<Word>): seq<Event> {
    [Reset] + Loads(OB_BASE, buf) + [Start({FTPG}, OB_BASE)]
  }

  /** The commands of a call. */
  function CallCommands(call: Call, words: seq<Word>, e: Entry, addr: int): seq<Event>
    requires |words| == 4
  {
    if !Programs(call, e) then []
    else (if Erases(call, e) then [Start({OBER}, addr)] else []) + OptionCommands(Rebuilt(call, words))
  }

  /** The page buffer once the four words are loaded: what they do not replace is blank, if the reset took effect. */
  function Loaded(part: Part, buffer: seq<Word>, reset: bool, buf: seq<Word>): (r: seq<Word>)
    requires |buffer| == 64 && |buf| == 4
    ensures |r| == 64
  {
    buf + if reset then seq(60, k => part.blank) else buffer[4..]
  }

  /** Whether the controller is idle again when the buffer is reset, after an erase or after a wait for one; the erase
      is the `n`-th command. */
  predicate IdleAtReset(part: Part, erased: bool, busyFor: nat, n: nat) {
    BusyAfter(if erased then part.delay(n) else busyFor, ERASE_TIMEOUT) == 0
  }

  /** The page buffer after a call. */
  function BufferAfter(part: Part, call: Call, words: seq<Word>, e: Entry, buffer: seq<Word>, n: nat): (r: seq<Word>)
    requires |words| == 4 && |buffer| == 64
    ensures |r| == 64
  {
    if !Programs(call, e) then buffer
    else Loaded(part, buffer, IdleAtReset(part, Erases(call, e), e.busyFor, n), Rebuilt(call, words))
  }

  /** Reset, four loads to the first words of the page of the option bytes, and one start. */
  lemma OptionCommandsAre(buf: seq<Word>)
    requires |buf| == 4
    ensures OptionCommands(buf) ==
      [Reset, Load(0x1FFF_F800, buf[0]), Load(0x1FFF_F804, buf[1]), Load(0x1FFF_F808, buf[2]),
       Load(0x1FFF_F80C, buf[3]), Start({FTPG}, 0x1FFF_F800)]
  {
  }

  lemma OptionLog(trace: seq<Event>, buf: seq<Word>)
    ensures ((trace + [Reset]) + Loads(OB_BASE, buf)) + [Start({FTPG}, OB_BASE)] == trace + OptionCommands(buf)
  {
  }

  lemma FourLoaded(was: seq<Word>, now: seq<Word>, buf: seq<Word>)
    requires |was| == |now| == 64 && |buf| == 4
    requires forall k :: 0 <= k < 64 ==> now[k] == if k < 4 then buf[k] else was[k]
    ensures now == buf + was[4..]
  {
  }

  method LoadOptions(f: Flash, buf: seq<Word>)
    requires f.Ready() && f.busyFor == 0 && LOCK !in f.ctlr && FLOCK !in f.ctlr && |buf| == 4
    modifies f`ctlr, f`busyFor, f`pageBuffer, f`latched, f`trace
    ensures f.Ready() && f.busyFor == 0 && f.ctlr == old(f.ctlr) && f.pageBuffer == buf + old(f.pageBuffer)[4..]
    ensures f.trace == old(f.trace) + Loads(OB_BASE, buf)
  {
    for i := 0 to 4
      invariant f.Ready() && f.busyFor == 0 && f.ctlr == old(f.ctlr) && |f.pageBuffer| == 64
      invariant forall k :: 0 <= k < 64 ==> f.pageBuffer[k] == if k < i then buf[k] else old(f.pageBuffer)[k]
      invariant f.trace == old(f.trace) + Loads(OB_BASE, buf[..i])
    {
      LoadsStep(OB_BASE, buf, i);
      assert ((OB_BASE + 4 * i) % 0x100) / 4 == i;
      BufLoad(f, OB_BASE + 4 * i, buf[i]);
    }
    assert buf[..4] == buf;
    FourLoaded(old(f.pageBuffer), f.pageBuffer, buf);
  }

  /** FLASH_OptionBytePR. The result of the erase is not looked at: if the controller is not free in time, or WRPRTERR
      is set, nothing is erased and the words are programmed over the old ones. */
  method ProgramOptions(f: Flash, buf: seq<Word>)
    requires f.Ready() && |buf| == 4
    modifies f`ctlr, f`keyed, f`addr, f`busyFor, f`mem, f`optionWords, f`pageBuffer, f`latched, f`trace
    ensures f.Ready() && f.busyFor == 0 && f.mem == old(f.mem) && f.addr == OB_BASE
    ensures WaitResult(old(f.busyFor), f.wrprterr, ERASE_TIMEOUT) == Complete ==>
      && f.optionWords == buf && f.ctlr == Reprogrammed(old(f.ctlr), true)
      && f.trace == old(f.trace) + ([Start({OBER}, old(f.addr))] + OptionCommands(buf))
      && f.pageBuffer == Loaded(f.part, old(f.pageBuffer), IdleAtReset(f.part, true, 0, |old(f.trace)|), buf)
    ensures WaitResult(old(f.busyFor), f.wrprterr, ERASE_TIMEOUT) != Complete ==>
      && f.optionWords == Overwritten(f.part, old(f.ctlr), old(f.optionWords), buf)
      && f.ctlr == Reprogrammed(old(f.ctlr), false)
      && f.trace == old(f.trace) + OptionCommands(buf)
      && f.pageBuffer == Loaded(f.part, old(f.pageBuffer), IdleAtReset(f.part, false, old(f.busyFor), 0), buf)
  {
    var status := EraseOptionBytes(f);
    UnlockFast(f);
    WriteOptions(f, buf);
    BlankOptions(f.part, buf);
    assert (old(f.trace) + [Start({OBER}, old(f.addr))]) + OptionCommands(buf)
      == old(f.trace) + ([Start({OBER}, old(f.addr))] + OptionCommands(buf));
    f.SetBit(FLOCK);
  }

  lemma BlankOptions(part: Part, buf: seq<Word>)
    requires part.Valid() && |buf| == 4
    ensures Blended(part, [part.blank, part.blank, part.blank, part.blank], buf) == buf
  {
    assert buf == [buf[0], buf[1], buf[2], buf[3]];
    assert forall k :: 0 <= k < 4 ==> part.blend(part.blank, buf[k]) == buf[k];
  }

  lemma BufferReset(part: Part, was: seq<Word>, now: seq<Word>, reset: bool, buf: seq<Word>)
    requires |was| == |now| == 64 && |buf| == 4
    requires if reset then forall k :: 0 <= k < 64 ==> now[k] == part.blank else now == was
    ensures buf + now[4..] == Loaded(part, was, reset, buf)
  {
  }

  /** The page buffer is reset and loaded with the four words, */
  method FillBuffer(f: Flash, buf: seq<Word>)
    requires f.Ready() && LOCK !in f.ctlr && FLOCK !in f.ctlr && |buf| == 4
    modifies f`ctlr, f`busyFor, f`pageBuffer, f`latched, f`trace
    ensures f.Ready() && f.busyFor == 0 && f.ctlr == old(f.ctlr) && buf <= f.pageBuffer
    ensures f.pageBuffer == Loaded(f.part, old(f.pageBuffer), old(f.busyFor) == 0, buf)
    ensures f.trace == (old(f.trace) + [Reset]) + Loads(OB_BASE, buf)
  {
    BufReset(f);
    BufferReset(f.part, old(f.pageBuffer), f.pageBuffer, old(f.busyFor) == 0, buf);
    LoadOptions(f, buf);
  }

  /** and programmed, once unlocked. */
  method WriteOptions(f: Flash, buf: seq<Word>)
    requires f.Ready() && LOCK !in f.ctlr && FLOCK !in f.ctlr && |buf| == 4
    modifies f`ctlr, f`addr, f`busyFor, f`mem, f`optionWords, f`pageBuffer, f`latched, f`trace
    ensures f.Ready() && f.busyFor == 0 && f.ctlr == old(f.ctlr) && f.mem == old(f.mem) && f.addr == OB_BASE
    ensures f.optionWords == Overwritten(f.part, f.ctlr, old(f.optionWords), buf)
    ensures f.pageBuffer == Loaded(f.part, old(f.pageBuffer), old(f.busyFor) == 0, buf)
    ensures f.trace == old(f.trace) + OptionCommands(buf)
  {
    OptionLog(f.trace, buf);
    FillBuffer(f, buf);
    OptionPage(f.part, f.mem, f.optionWords, OBWRE in f.ctlr, f.pageBuffer, buf);
    ProgramPageFast(f, OB_BASE);
  }

  method ReadOptions(f: Flash) returns (buf: seq<Word>)
    requires |f.optionWords| == 4
    ensures buf == f.optionWords
  {
    buf := [];
    for i := 0 to 4
      invariant buf == f.optionWords[..i]
    {
      buf := buf + [f.optionWords[i]];
    }
  }

  function EntryOf(f: Flash): Entry
    reads f`readProtected, f`wrprterr, f`busyFor, f`ctlr
  {
    Entry(f.readProtected, f.wrprterr, f.busyFor, f.ctlr)
  }

  /** A call has its effect on the whole controller. */
  twostate predicate Called(f: Flash, call: Call, status: Status)
    requires old(|f.optionWords| == 4 && |f.pageBuffer| == 64)
    reads f
  {
    var e := old(EntryOf(f));
    && (status, f.optionWords) == Outcome(f.part, call, old(f.optionWords), e)
    && EntryOf(f) == After(call, e)
    && f.trace == old(f.trace) + CallCommands(call, old(f.optionWords), e, old(f.addr))
    && f.pageBuffer == BufferAfter(f.part, call, old(f.optionWords), e, old(f.pageBuffer), |old(f.trace)|)
    && f.addr == (if Programs(call, e) then OB_BASE else old(f.addr))
    && f.mem == old(f.mem)
  }

  // ----- What the calls are for, bit by bit

  predicate BitOf(w: Word, q: bv32)
    requires q < 32
  {
    (w >> q) & 1 == 1
  }

  function Widened(b: bv8): Word {
    b as bv32
  }

  /** The protection bit of a page, which protects it when clear: those of pages 0 to 7 are the lowest byte of the word,
      those of pages 8 to 15 its third byte. */
  predicate ProtectsPage(w: Word, q: bv32)
    requires q < 16
  {
    !BitOf(w, if q < 8 then q else q + 8)
  }

  /** A bit of the user byte, the third of its word. */
  predicate UserBit(w: Word, q: bv32)
    requires q < 8
  {
    BitOf(w, q + 16)
  }

  /** Exactly the pages named are write-protected. */
  ghost predicate PagesProtected(pages: bv32, was: seq<Word>, now: seq<Word>)
    requires |was| == |now| == 4
  {
    && (forall q: bv32 :: q < 16 ==> (ProtectsPage(now[2], q) <==> BitOf(pages, q)))
    && Complemented(now[2]) && now[3] == 0x00FF_00FF && now[0] == was[0] && now[1] == was[1]
  }

  /** The half-word that leaves a part unprotected only as 0x5AA5 is another; the user byte is what it was. */
  predicate ReadOutProtected(was: seq<Word>, now: seq<Word>)
    requires |was| == |now| == 4
  {
    && now[0] & 0xFFFF == 0x00FF && now[0] & 0xFFFF_0000 == was[0] & 0xFFFF_0000
    && now[1] == was[1] && now[2] == was[2] && now[3] == was[3]
  }

  predicate AnyBit(iwdg: bv8, stop: bv8, stdby: bv8, can: bv8, q: bv32)
    requires q < 8
  {
    || BitOf(Widened(iwdg), q) || BitOf(Widened(stop), q) || BitOf(Widened(stdby), q) || BitOf(Widened(can), q)
    || q == 3 || q == 4 || q == 6 || q == 7
  }

  /** The part is unprotected, and the user byte has each bit that an argument has, and 3, 4, 6 and 7. */
  ghost predicate UserBitsSet(iwdg: bv8, stop: bv8, stdby: bv8, can: bv8, was: seq<Word>, now: seq<Word>)
    requires |was| == |now| == 4
  {
    && now[0] & 0xFFFF == 0x5AA5 && Complemented(now[0])
    && (forall q: bv32 :: q < 8 ==> (UserBit(now[0], q) <==> AnyBit(iwdg, stop, stdby, can, q)))
    && now[1] == was[1] && now[2] == was[2] && now[3] == was[3]
  }

  lemma PairsLow(low: bv8, high: bv8, q: bv32)
    requires q < 8
    ensures BitOf(Pairs(low, high), q) <==> BitOf(Widened(low), q)
  {
  }

  lemma PairsHigh(low: bv8, high: bv8, q: bv32)
    requires q < 8
    ensures BitOf(Pairs(low, high), q + 16) <==> BitOf(Widened(high), q)
  {
  }

  lemma PairsComplemented(low: bv8, high: bv8)
    ensures Complemented(Pairs(low, high))
  {
  }

  lemma PairsThird(low: bv8, high: bv8, q: bv32)
    requires 8 <= q < 16
    ensures BitOf(Pairs(low, high), q + 8) <==> BitOf(Widened(high), q - 8)
  {
  }

  lemma LowPage(pages: bv32, q: bv32)
    requires q < 8
    ensures BitOf(Widened(ProtectedPages(pages, 0)), q) <==> !BitOf(pages, q)
  {
  }

  lemma HighPage(pages: bv32, q: bv32)
    requires 8 <= q < 16
    ensures BitOf(Widened(ProtectedPages(pages, 1)), q - 8) <==> !BitOf(pages, q)
  {
  }

  lemma UserByteBit(iwdg: bv8, stop: bv8, stdby: bv8, can: bv8, q: bv32)
    requires q < 8
    ensures BitOf(Widened(UserByte(iwdg, stop, stdby, can)), q) <==> AnyBit(iwdg, stop, stdby, can, q)
  {
  }

  lemma PagesRebuilt(pages: bv32, words: seq<Word>)
    requires |words| == 4
    ensures PagesProtected(pages, words, Rebuilt(WriteProtect(pages), words))
  {
    var low, high := ProtectedPages(pages, 0), ProtectedPages(pages, 1);
    PairsComplemented(low, high);
    forall q: bv32 | q < 16
      ensures ProtectsPage(Pairs(low, high), q) <==> BitOf(pages, q)
    {
      PageBit(pages, q);
    }
    BytesOfOnes();
  }

  lemma PageBit(pages: bv32, q: bv32)
    requires q < 16
    ensures ProtectsPage(Pairs(ProtectedPages(pages, 0), ProtectedPages(pages, 1)), q) <==> BitOf(pages, q)
  {
    var low, high := ProtectedPages(pages, 0), ProtectedPages(pages, 1);
    if q < 8 {
      PairsLow(low, high, q);
      LowPage(pages, q);
    } else {
      PairsThird(low, high, q);
      HighPage(pages, q);
    }
  }

  lemma BytesOfOnes()
    ensures Pairs(0xFF, 0xFF) == 0x00FF_00FF
  {
  }

  lemma ReadOutRebuilt(words: seq<Word>)
    requires |words| == 4
    ensures ReadOutProtected(words, Rebuilt(ReadProtect, words))
  {
  }

  lemma UserRebuilt(iwdg: bv8, stop: bv8, stdby: bv8, can: bv8, words: seq<Word>)
    requires |words| == 4
    ensures UserBitsSet(iwdg, stop, stdby, can, words, Rebuilt(UserConfig(iwdg, stop, stdby, can), words))
  {
    var user := UserByte(iwdg, stop, stdby, can);
    PairsComplemented(0xA5, user);
    UnprotectedHalf(user);
    forall q: bv32 | q < 8
      ensures UserBit(Pairs(0xA5, user), q) <==> AnyBit(iwdg, stop, stdby, can, q)
    {
      PairsHigh(0xA5, user, q);
      UserByteBit(iwdg, stop, stdby, can, q);
    }
  }

  lemma UnprotectedHalf(b: bv8)
    ensures Pairs(0xA5, b) & 0xFFFF == 0x5AA5
  {
  }

  /** The answer and the option words of FLASH_EnableWriteProtection: it waits 0x5000 polls for the controller. */
  ghost predicate WriteProtectDone(pages: bv32, e: Entry, was: seq<Word>, status: Status, now: seq<Word>)
    requires |was| == |now| == 4
  {
    if e.readProtected then status == ReadProtected && now == was
    else if e.busyFor >= 0x5000 then status == Timeout && now == was
    else if e.wrprterr then status == ErrorWrp && now == was
    else status == Complete && PagesProtected(pages, was, now)
  }

  /** Those of FLASH_EnableReadOutProtection, which waits 0xB0000 polls. */
  ghost predicate ReadProtectDone(e: Entry, was: seq<Word>, status: Status, now: seq<Word>)
    requires |was| == |now| == 4
  {
    if e.readProtected then status == ReadProtected && now == was
    else if e.busyFor >= 0xB_0000 then status == Timeout && now == was
    else if e.wrprterr then status == ErrorWrp && now == was
    else status == Complete && ReadOutProtected(was, now)
  }

  /** And those of FLASH_UserOptionByteConfig, whose words go over the old ones if nothing was erased. */
  ghost predicate UserConfigDone(part: Part, call: Call, e: Entry, was: seq<Word>, status: Status, now: seq<Word>)
    requires |was| == |now| == 4 && call.UserConfig?
  {
    if e.readProtected then status == ReadProtected && now == was
    else
      && status == Complete
      && exists meant | |meant| == 4 :: UserBitsSet(call.iwdg, call.stop, call.stdby, call.can, was, meant) &&
           if e.busyFor < 0xB_0000 && !e.wrprterr then now == meant
           else if part.optionsGuarded && OBWRE !in e.ctlr then now == was
           else forall i :: 0 <= i < 4 ==> now[i] == part.blend(was[i], meant[i])
  }

  /** The controller afterwards: a call that programmed leaves it idle, with LOCK open, FLOCK closed and, if it erased,
      OBWRE open; one that did not leaves the control register, and waits as long as it may. */
  predicate LeftAs(call: Call, e: Entry, now: Entry) {
    var wait := if call.WriteProtect? then 0x5000 else 0xB_0000;
    && now.readProtected == e.readProtected && now.wrprterr == e.wrprterr
    && if e.readProtected then now.busyFor == e.busyFor && now.ctlr == e.ctlr
       else if e.busyFor < wait && !e.wrprterr then now.busyFor == 0 && now.ctlr == e.ctlr - {LOCK} + {FLOCK, OBWRE}
       else if call.UserConfig? then now.busyFor == 0 && now.ctlr == e.ctlr - {LOCK} + {FLOCK}
       else now.busyFor == (if e.busyFor > wait then e.busyFor - (wait + 1) else 0) && now.ctlr == e.ctlr
  }

  lemma CallLeaves(call: Call, e: Entry)
    ensures LeftAs(call, e, After(call, e))
  {
  }

  lemma CallDone(part: Part, call: Call, words: seq<Word>, e: Entry)
    requires |words| == 4
    ensures var r := Outcome(part, call, words, e);
      match call
      case WriteProtect(pages) => WriteProtectDone(pages, e, words, r.0, r.1)
      case ReadProtect => ReadProtectDone(e, words, r.0, r.1)
      case UserConfig(_, _, _, _) => UserConfigDone(part, call, e, words, r.0, r.1)
  {
    match call
    case WriteProtect(pages) => PagesRebuilt(pages, words);
    case ReadProtect => ReadOutRebuilt(words);
    case UserConfig(iwdg, stop, stdby, can) => UserRebuilt(iwdg, stop, stdby, can, words);
  }

  /** The option words FLASH_EnableWriteProtection puts together. */
  method WriteProtectWords(pages: bv32, words: seq<Word>) returns (buf: seq<Word>)
    requires |words| == 4
    ensures buf == Rebuilt(WriteProtect(pages), words)
  {
    var unprotected := !pages;
    var wrp0: bv8, wrp1: bv8 := (unprotected & 0xFF) as bv8, ((unprotected & 0xFF00) >> 8) as bv8;
    var low := (wrp0 as bv32) + ((!wrp0 as bv32) << 8);
    var high := ((wrp1 as bv32) << 16) + ((!wrp1 as bv32) << 24);
    WriteProtectWord(pages);
    buf := words[2 := low + high];
    buf := buf[3 := 0x00FF00FF];
  }

  /** FLASH_EnableWriteProtection. */
  method EnableWriteProtection(f: Flash, pages: bv32) returns (status: Status)
    requires f.Ready()
    modifies f`ctlr, f`keyed, f`addr, f`busyFor, f`mem, f`optionWords, f`pageBuffer, f`latched, f`trace
    ensures f.Ready() && Called(f, WriteProtect(pages), status)
    ensures WriteProtectDone(pages, old(EntryOf(f)), old(f.optionWords), status, f.optionWords)
    ensures LeftAs(WriteProtect(pages), old(EntryOf(f)), EntryOf(f))
  {
    CallLeaves(WriteProtect(pages), EntryOf(f));
    CallDone(f.part, WriteProtect(pages), f.optionWords, EntryOf(f));
    if f.readProtected {
      status := ReadProtected;
    } else {
      ghost var polls;
      status, polls := WaitForLastOperation(f, PROGRAM_TIMEOUT);
      if status == Complete {
        var buf := ReadOptions(f);
        buf := WriteProtectWords(pages, buf);
        ProgramOptions(f, buf);
      }
    }
  }

  lemma WriteProtectWord(pages: bv32)
    ensures var unprotected := !pages;
      var wrp0, wrp1 := (unprotected & 0xFF) as bv8, ((unprotected & 0xFF00) >> 8) as bv8;
      ((wrp0 as bv32) + ((!wrp0 as bv32) << 8)) + (((wrp1 as bv32) << 16) + ((!wrp1 as bv32) << 24))
      == Pairs(ProtectedPages(pages, 0), ProtectedPages(pages, 1))
    ensures 0x00FF00FF == Pairs(0xFF, 0xFF)
  {
  }

  /** The option words FLASH_EnableReadOutProtection puts together. */
  method ReadProtectWords(words: seq<Word>) returns (buf: seq<Word>)
    requires |words| == 4
    ensures buf == Rebuilt(ReadProtect, words)
  {
    ReadProtectWord(words[0]);
    buf := words[0 := 0x000000FF + (words[0] & 0xFFFF0000)];
  }

  /** FLASH_EnableReadOutProtection. */
  method EnableReadOutProtection(f: Flash) returns (status: Status)
    requires f.Ready()
    modifies f`ctlr, f`keyed, f`addr, f`busyFor, f`mem, f`optionWords, f`pageBuffer, f`latched, f`trace
    ensures f.Ready() && Called(f, ReadProtect, status)
    ensures ReadProtectDone(old(EntryOf(f)), old(f.optionWords), status, f.optionWords)
    ensures LeftAs(ReadProtect, old(EntryOf(f)), EntryOf(f))
  {
    CallLeaves(ReadProtect, EntryOf(f));
    CallDone(f.part, ReadProtect, f.optionWords, EntryOf(f));
    if f.readProtected {
      status := ReadProtected;
    } else {
      ghost var polls;
      status, polls := WaitForLastOperation(f, ERASE_TIMEOUT);
      if status == Complete {
        var buf := ReadOptions(f);
        buf := ReadProtectWords(buf);
        ProgramOptions(f, buf);
      }
    }
  }

  lemma ReadProtectWord(w: Word)
    ensures 0x000000FF + (w & 0xFFFF0000) == Pair(0xFF) | (w & 0xFFFF_0000)
  {
  }

  /** The option words FLASH_UserOptionByteConfig puts together. */
  method UserConfigWords(iwdg: bv8, stop: bv8, stdby: bv8, can: bv8, words: seq<Word>) returns (buf: seq<Word>)
    requires |words| == 4
    ensures buf == Rebuilt(UserConfig(iwdg, stop, stdby, can), words)
  {
    var user: bv8 := iwdg | (stop | (stdby | (can | 0xD8)));
    UserWord(iwdg, stop, stdby, can);
    buf := words[0 := (((user as bv32) << 16) + ((!user as bv32) << 24)) + 0x00005AA5];
  }

  /** FLASH_UserOptionByteConfig: answers Complete whatever becomes of the programming. */
  method UserOptionByteConfig(f: Flash, iwdg: bv8, stop: bv8, stdby: bv8, can: bv8) returns (status: Status)
    requires f.Ready()
    modifies f`ctlr, f`keyed, f`addr, f`busyFor, f`mem, f`optionWords, f`pageBuffer, f`latched, f`trace
    ensures f.Ready() && Called(f, UserConfig(iwdg, stop, stdby, can), status)
    ensures UserConfigDone(f.part, UserConfig(iwdg, stop, stdby, can), old(EntryOf(f)), old(f.optionWords), status,
                           f.optionWords)
    ensures LeftAs(UserConfig(iwdg, stop, stdby, can), old(EntryOf(f)), EntryOf(f))
  {
    CallLeaves(UserConfig(iwdg, stop, stdby, can), EntryOf(f));
    CallDone(f.part, UserConfig(iwdg, stop, stdby, can), f.optionWords, EntryOf(f));
    status := Complete;
    if f.readProtected {
      status := ReadProtected;
    } else {
      var buf := ReadOptions(f);
      buf := UserConfigWords(iwdg, stop, stdby, can, buf);
      Reconfigure(f, UserConfig(iwdg, stop, stdby, can), buf);
    }
  }

  method Reconfigure(f: Flash, ghost call: Call, buf: seq<Word>)
    requires f.Ready() && !f.readProtected && call.UserConfig? && buf == Rebuilt(call, f.optionWords)
    modifies f`ctlr, f`keyed, f`addr, f`busyFor, f`mem, f`optionWords, f`pageBuffer, f`latched, f`trace
    ensures f.Ready() && Called(f, call, Complete)
  {
    ProgramOptions(f, buf);
  }

  lemma UserWord(iwdg: bv8, stop: bv8, stdby: bv8, can: bv8)
    ensures var user: bv8 := iwdg | (stop | (stdby | (can | 0xD8)));
      (((user as bv32) << 16) + ((!user as bv32) << 24)) + 0x00005AA5
        == Pairs(0xA5, UserByte(iwdg, stop, stdby, can))
  {
  }
}
