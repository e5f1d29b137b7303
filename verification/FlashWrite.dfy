/**
 Writing a range of the flash array through the page buffer: FLASH_ROM_WRITE, and what it makes of an erased range.
 */
module FlashWrite {
  import opened FlashDevice
  import opened FlashGranules
  import opened FlashErase

  /** The index of the word at an address of the array. */
  function WordAt(part: Part, a: int): int {
    (a - part.base) / 4
  }

  /** The array with the words of `pbuf` programmed over its words from `first` on. */
  function Written(part: Part, mem: seq<Word>, first: int, pbuf: seq<Word>, n: nat): (r: seq<Word>)
    requires n <= |pbuf|
    ensures |r| == |mem|
    ensures forall i :: 0 <= i < |mem| ==>
        r[i] == if first <= i < first + n then part.blend(mem[i], pbuf[i - first]) else mem[i]
  {
    seq(|mem|, i requires 0 <= i < |mem| =>
      if first <= i < first + n then part.blend(mem[i], pbuf[i - first]) else mem[i])
  }

  lemma WordAligned(part: Part, a: int)
    requires part.Valid() && Boundary(a, B256)
    ensures a == part.base + 4 * WordAt(part, a)
  {
    BoundaryIff(a);
    Quarters(a, part.base);
  }

  lemma Quarters(a: int, b: int)
    requires a % SIZE_256B == 0 && b % SIZE_256B == 0
    ensures a == b + 4 * ((a - b) / 4)
  {
    var d := 64 * (a / SIZE_256B) - 64 * (b / SIZE_256B);
    assert a - b == 4 * d;
    QuarterOf(d);
  }

  lemma QuarterOf(d: int)
    ensures (4 * d) / 4 == d
  {
  }

  /** The words of a range. */
  lemma WordsOf(part: Part, startAddr: u32, length: u32)
    requires part.Valid() && GoodRange(part, startAddr, length)
    ensures var first, n := WordAt(part, startAddr), length / 4;
      0 <= first && startAddr == part.base + 4 * first && length == 4 * n && 4 * (first + n) <= part.end - part.base
  {
    BoundaryIff(startAddr);
    BoundaryIff(startAddr + length);
    Quarters(startAddr, part.base);
    Quarters(startAddr + length, startAddr);
  }

  /** The array with some words in place of those from `first` on. */
  function Spliced(mem: seq<Word>, first: int, words: seq<Word>): seq<Word>
    requires 0 <= first && first + |words| <= |mem|
  {
    mem[..first] + words + mem[first + |words|..]
  }

  /** Erasing a range and then writing it splices the words in, whatever the array held. */
  lemma EraseThenWriteIsSplice(part: Part, mem: seq<Word>, startAddr: u32, pbuf: seq<Word>, length: u32)
    requires part.Valid() && 4 * |mem| == part.end - part.base && GoodRange(part, startAddr, length)
    requires length <= 4 * |pbuf|
    ensures var first, n := WordAt(part, startAddr), length / 4;
      && 0 <= first && first + n <= |mem|
      && Written(part, part.Erased(mem, startAddr, length), first, pbuf, n) == Spliced(mem, first, pbuf[..n])
  {
    WordsOf(part, startAddr, length);
    SpliceWords(part, mem, WordAt(part, startAddr), pbuf, length / 4);
  }

  lemma SpliceWords(part: Part, mem: seq<Word>, first: nat, pbuf: seq<Word>, n: nat)
    requires part.Valid() && first + n <= |mem| && n <= |pbuf|
    ensures Written(part, part.Erased(mem, part.base + 4 * first, 4 * n), first, pbuf, n)
      == Spliced(mem, first, pbuf[..n])
  {
    forall i | 0 <= i < |mem|
      ensures Written(part, part.Erased(mem, part.base + 4 * first, 4 * n), first, pbuf, n)[i]
        == Spliced(mem, first, pbuf[..n])[i]
    {
    }
  }

  /** The commands that program one page: reset the buffer, load its 64 words, start. */
  function PageCommands(page: int, words: seq<Word>): (r: seq<Event>)
    requires |words| == 64
    ensures |r| == 66
  {
    [Reset] + Loads(page, words) + [Start({FTPG}, page)]
  }

  function Loads(page: int, words: seq<Word>): (r: seq<Event>)
    ensures |r| == |words|
  {
    seq(|words|, k requires 0 <= k < |words| => Load(page + 4 * k, words[k]))
  }

  lemma LoadsStep(page: int, words: seq<Word>, k: nat)
    requires k < |words|
    ensures Loads(page, words[..k + 1]) == Loads(page, words[..k]) + [Load(page + 4 * k, words[k])]
  {
  }

  /** And those that program `n` pages in a row. */
  function WriteCommands(page: int, pbuf: seq<Word>, n: nat): (r: seq<Event>)
    requires 64 * n <= |pbuf|
    ensures |r| == 66 * n
    decreases n
  {
    if n == 0 then []
    else WriteCommands(page, pbuf, n - 1) + PageCommands(page + 0x100 * (n - 1), pbuf[64 * (n - 1)..64 * n])
  }

  /** The 64-word page buffer image of a page. */
  lemma Slot(page: int, k: int)
    requires Boundary(page, B256) && 0 <= k < 64
    ensures (page + 4 * k) % 0x100 == 4 * k && page % 0x100 == 0
  {
  }

  /** A word stored to a flash address and loaded into its slot of the page buffer. */
  method LoadWord(f: Flash, at: u32, word: Word, ghost k: nat)
    requires f.BufferOpen() && f.busyFor == 0 && |f.pageBuffer| == 64 && OneModeAtEachStart(f.trace)
    requires k < 64 && at % 0x100 == 4 * k
    modifies f`busyFor, f`trace, f`pageBuffer, f`latched
    ensures OneModeAtEachStart(f.trace) && f.trace == old(f.trace) + [Load(at, word)]
    ensures f.busyFor == 0 && f.pageBuffer == old(f.pageBuffer)[k := word]
  {
    f.Store(at, word);
    f.BufLoad();
    f.WaitWhileBusy();
  }

  /** The inner loop of FLASH_ROM_WRITE: the 64 words of a page, stored and loaded one by one. */
  method LoadBuffer(f: Flash, page: u32, pbuf: seq<Word>, pos: nat)
    requires f.BufferOpen() && f.busyFor == 0 && |f.pageBuffer| == 64
    requires Boundary(page, B256) && page + 0x100 < 0x1_0000_0000 && pos + 64 <= |pbuf|
    requires OneModeAtEachStart(f.trace)
    modifies f`busyFor, f`trace, f`pageBuffer, f`latched
    ensures OneModeAtEachStart(f.trace)
    ensures f.busyFor == 0 && f.pageBuffer == pbuf[pos..pos + 64]
    ensures f.trace == old(f.trace) + Loads(page, pbuf[pos..pos + 64])
  {
    ghost var words := pbuf[pos..pos + 64];
    var size, at: u32, next := 64, page, pos;
    while size > 0
      invariant f.busyFor == 0 && |f.pageBuffer| == 64 && OneModeAtEachStart(f.trace)
      invariant 0 <= size <= 64 && next == pos + 64 - size && at == page + 4 * (64 - size)
      invariant forall k :: 0 <= k < 64 - size ==> f.pageBuffer[k] == words[k]
      invariant f.trace == old(f.trace) + Loads(page, words[..64 - size])
    {
      Slot(page, 64 - size);
      LoadsStep(page, words, 64 - size);
      LoadWord(f, at, pbuf[next], 64 - size);
      at := at + 4;
      next := next + 1;
      size := size - 1;
    }
    assert words[..64] == words;
  }

  /** The outer loop of FLASH_ROM_WRITE: the page at `page`, from pbuf[pos..pos + 64]. If the controller is busy at
      first, it is the reset of the buffer that is lost, and all of its slots are loaded later. */
  method WritePage(f: Flash, page: u32, pbuf: seq<Word>, pos: nat)
    requires f.Ready() && LOCK !in f.ctlr && FLOCK !in f.ctlr
    requires Boundary(page, B256) && page + 0x100 <= f.part.end && pos + 64 <= |pbuf|
    modifies f`ctlr, f`addr, f`busyFor, f`mem, f`optionWords, f`trace, f`pageBuffer, f`latched
    ensures f.Ready() && f.ctlr == old(f.ctlr) && f.busyFor == 0 && f.optionWords == old(f.optionWords)
    ensures f.addr == page && f.pageBuffer == pbuf[pos..pos + 64]
    ensures f.trace == old(f.trace) + PageCommands(page, pbuf[pos..pos + 64])
    ensures f.mem == f.part.Programmed(old(f.mem), page, pbuf[pos..pos + 64])
  {
    SetMode(f.ctlr, FTPG);
    f.SetBit(FTPG);
    f.BufRst();
    f.WaitWhileBusy();
    LoadBuffer(f, page, pbuf, pos);
    StartPage(f, page);
    f.ClearBits({FTPG});
  }

  /** What a start does to a page of the array. */
  lemma PageStarts(part: Part, mem: seq<Word>, words: seq<Word>, page: u32, enabled: bool, buffer: seq<Word>)
    requires part.Valid() && Boundary(page, B256) && page + 0x100 <= part.end && |words| == 4 && |buffer| == 64
    ensures part.MemAfter(mem, FTPG, page, true, buffer) == part.Programmed(mem, page, buffer)
    ensures part.OptionsAfter(words, FTPG, page, true, enabled, buffer) == words
  {
    Slot(page, 0);
  }

  /** The page buffer goes to the page at `page`. */
  method StartPage(f: Flash, page: u32)
    requires f.Valid() && f.BufferOpen() && f.busyFor == 0 && f.ctlr * MODES == {FTPG}
    requires Boundary(page, B256) && page + 0x100 <= f.part.end
    modifies f`addr, f`busyFor, f`mem, f`optionWords, f`trace
    ensures f.Valid() && f.busyFor == 0 && f.optionWords == old(f.optionWords) && f.addr == page
    ensures f.trace == old(f.trace) + [Start({FTPG}, page)]
    ensures f.mem == f.part.Programmed(old(f.mem), page, f.pageBuffer)
  {
    PageStarts(f.part, f.mem, f.optionWords, page, OBWRE in f.ctlr, f.pageBuffer);
    f.WriteAddr(page);
    f.Strt(FTPG);
    f.WaitWhileBusy();
  }

  /** `n` pages are written: what the array and the command log are by then. */
  ghost predicate PagesWritten(part: Part, mem0: seq<Word>, trace0: seq<Event>, startAddr: int, pbuf: seq<Word>, n: nat,
      mem: seq<Word>, trace: seq<Event>)
    requires 64 * n <= |pbuf|
  {
    && mem == Written(part, mem0, WordAt(part, startAddr), pbuf, 64 * n)
    && trace == trace0 + WriteCommands(startAddr, pbuf, n)
  }

  /** ADDR and the page buffer once they are. */
  predicate LastPage(startAddr: int, pbuf: seq<Word>, n: nat, addr: int, buffer: seq<Word>)
    requires n > 0 && 64 * n <= |pbuf|
  {
    addr == startAddr + 0x100 * (n - 1) && buffer == pbuf[64 * (n - 1)..64 * n]
  }

  /** And one more. */
  lemma OnePageMore(part: Part, mem0: seq<Word>, trace0: seq<Event>, startAddr: int, pbuf: seq<Word>, n: nat,
      words: seq<Word>, mem: seq<Word>, trace: seq<Event>)
    requires 64 * (n + 1) <= |pbuf| && words == pbuf[64 * n..64 * (n + 1)]
    requires startAddr == part.base + 4 * WordAt(part, startAddr)
    requires PagesWritten(part, mem0, trace0, startAddr, pbuf, n, mem, trace)
    ensures PagesWritten(part, mem0, trace0, startAddr, pbuf, n + 1,
                         part.Programmed(mem, startAddr + 0x100 * n, words),
                         trace + PageCommands(startAddr + 0x100 * n, words))
  {
    WordsMore(part, mem0, WordAt(part, startAddr), pbuf, n, words);
  }

  lemma WordsMore(part: Part, mem: seq<Word>, first: int, pbuf: seq<Word>, n: nat, words: seq<Word>)
    requires 64 * (n + 1) <= |pbuf| && words == pbuf[64 * n..64 * (n + 1)]
    ensures part.Programmed(Written(part, mem, first, pbuf, 64 * n), part.base + 4 * (first + 64 * n), words)
      == Written(part, mem, first, pbuf, 64 * (n + 1))
  {
  }

  /** The commands of `n` pages, one by one: each page is reset, loaded with its own 64 words and programmed, once. */
  lemma {:induction false} EachPageOnce(page: int, pbuf: seq<Word>, n: nat, p: nat, k: nat)
    requires p < n && 64 * n <= |pbuf| && k < 64
    ensures WriteCommands(page, pbuf, n)[66 * p] == Reset
    ensures WriteCommands(page, pbuf, n)[66 * p + 1 + k] == Load(page + 0x100 * p + 4 * k, pbuf[64 * p + k])
    ensures WriteCommands(page, pbuf, n)[66 * p + 65] == Start({FTPG}, page + 0x100 * p)
  {
    if p < n - 1 {
      EachPageOnce(page, pbuf, n - 1, p, k);
    }
  }

  method WriteAccepted(f: Flash, startAddr: u32, pbuf: seq<Word>, pages: u32)
    requires f.Ready() && Boundary(startAddr, B256) && f.part.base <= startAddr && pages >= 1
    requires startAddr + 0x100 * pages <= f.part.end && 64 * pages <= |pbuf|
    modifies f`ctlr, f`keyed, f`addr, f`busyFor, f`mem, f`optionWords, f`trace, f`pageBuffer, f`latched
    ensures f.Ready() && f.ctlr == old(f.ctlr) + {LOCK, FLOCK} && f.busyFor == 0 && f.optionWords == old(f.optionWords)
    ensures f.trace == old(f.trace) + WriteCommands(startAddr, pbuf, pages)
    ensures f.mem == Written(f.part, old(f.mem), WordAt(f.part, startAddr), pbuf, 64 * pages)
    ensures f.addr == startAddr + 0x100 * (pages - 1) && f.pageBuffer == pbuf[64 * (pages - 1)..64 * pages]
  {
    UnlockFast(f);
    WritePages(f, startAddr, pbuf, pages);
    f.SetBit(FLOCK);
    f.SetBit(LOCK);
  }

  /** FLASH_ROM_WRITE: every page of the range is programmed once, from the words of `pbuf` in order. */
  method WriteRange(f: Flash, startAddr: u32, pbuf: seq<Word>, length: u32) returns (status: Status)
    requires f.Ready() && startAddr + length < 0x1_0000_0000 && length <= 4 * |pbuf|
    modifies f
    ensures f.Ready()
    ensures status == RequestStatus(f.part, startAddr, length)
    ensures status != Complete ==> unchanged(f)
    ensures status == Complete ==>
      && f.mem == Written(f.part, old(f.mem), WordAt(f.part, startAddr), pbuf, length / 4)
      && f.trace == old(f.trace) + WriteCommands(startAddr, pbuf, length / 0x100)
      && f.optionWords == old(f.optionWords) && f.wrprterr == old(f.wrprterr) && f.readProtected == old(f.readProtected)
      && f.ctlr == old(f.ctlr) + {LOCK, FLOCK} && f.busyFor == 0
      && f.addr == startAddr + length - 0x100 && f.pageBuffer == pbuf[length / 4 - 64..length / 4]
  {
    if startAddr < f.part.base || startAddr >= f.part.end {
      return AdrRangeError;
    }
    if (startAddr + length) % 0x1_0000_0000 > f.part.end {
      return OpRangeError;
    }
    if startAddr % SIZE_256B != 0 || length % SIZE_256B != 0 || length == 0 {
      return AlignError;
    }
    RequestAccepted(f.part, startAddr, length);
    assert length / 4 == 64 * (length / 0x100) && length == 0x100 * (length / 0x100);
    WriteAccepted(f, startAddr, pbuf, length / 0x100);
    status := Complete;
  }

  /** The `n`-th page, after those before it. */
  method NextPage(f: Flash, ghost startAddr: int, adr: u32, pbuf: seq<Word>, pos: nat, ghost n: nat,
      ghost mem: seq<Word>, ghost trace: seq<Event>)
    requires f.Ready() && LOCK !in f.ctlr && FLOCK !in f.ctlr
    requires Boundary(startAddr, B256) && pos == 64 * n && pos + 64 <= |pbuf|
    requires adr == startAddr + 0x100 * n && Boundary(adr, B256) && adr + 0x100 <= f.part.end
    requires PagesWritten(f.part, mem, trace, startAddr, pbuf, n, f.mem, f.trace)
    modifies f`ctlr, f`addr, f`busyFor, f`mem, f`optionWords, f`trace, f`pageBuffer, f`latched
    ensures f.Ready() && f.ctlr == old(f.ctlr) && f.busyFor == 0 && f.optionWords == old(f.optionWords)
    ensures PagesWritten(f.part, mem, trace, startAddr, pbuf, n + 1, f.mem, f.trace) && Boundary(adr + 0x100, B256)
    ensures LastPage(startAddr, pbuf, n + 1, f.addr, f.pageBuffer)
  {
    WordAligned(f.part, startAddr);
    OnePageMore(f.part, mem, trace, startAddr, pbuf, n, pbuf[pos..pos + 64], f.mem, f.trace);
    WritePage(f, adr, pbuf, pos);
    Next(B256, adr);
  }

  /** The pages of an accepted request. */
  method WritePages(f: Flash, startAddr: u32, pbuf: seq<Word>, pages: u32)
    requires f.Ready() && LOCK !in f.ctlr && FLOCK !in f.ctlr
    requires Boundary(startAddr, B256) && f.part.base <= startAddr && pages >= 1
    requires startAddr + 0x100 * pages <= f.part.end && 64 * pages <= |pbuf|
    modifies f`ctlr, f`addr, f`busyFor, f`mem, f`optionWords, f`trace, f`pageBuffer, f`latched
    ensures f.Ready() && f.ctlr == old(f.ctlr) && f.busyFor == 0 && f.optionWords == old(f.optionWords)
    ensures PagesWritten(f.part, old(f.mem), old(f.trace), startAddr, pbuf, pages, f.mem, f.trace)
    ensures LastPage(startAddr, pbuf, pages, f.addr, f.pageBuffer)
  {
    var adr: u32, left: u32, pos := startAddr, pages, 0;
    ghost var n: nat, first, mem, trace := 0, WordAt(f.part, startAddr), f.mem, f.trace;
    SetMode(f.ctlr, FTPG);
    f.ClearBits({OBER, FTER});
    assert PagesWritten(f.part, mem, trace, startAddr, pbuf, 0, f.mem, f.trace);
    while true
      invariant f.Ready() && f.ctlr == old(f.ctlr) && f.optionWords == old(f.optionWords)
      invariant left >= 1 && n + left == pages && adr == startAddr + 0x100 * n && pos == 64 * n && Boundary(adr, B256)
      invariant PagesWritten(f.part, mem, trace, startAddr, pbuf, n, f.mem, f.trace)
      invariant n > 0 ==> LastPage(startAddr, pbuf, n, f.addr, f.pageBuffer)
      decreases left
    {
      NextPage(f, startAddr, adr, pbuf, pos, n, mem, trace);
      adr := adr + 0x100;
      pos := pos + 64;
      n := n + 1;
      left := left - 1;
      if left == 0 {
        assert n == pages;
        break;
      }
    }
  }

  /** The words are spliced in, but where the granule is, over what was there. */
  ghost predicate SplicedOver(part: Part, mem: seq<Word>, first: int, words: seq<Word>, g: Granule, now: seq<Word>)
    requires 0 <= first && first + |words| <= |mem|
  {
    && |now| == |mem|
    && forall i :: 0 <= i < |mem| ==>
      now[i] == if first <= i < first + |words| && Contains(g, part.base + 4 * i)
                then part.blend(mem[i], words[i - first]) else Spliced(mem, first, words)[i]
  }

  /** A word of the array after an erase that missed its first granule, and a write. */
  lemma WordOver(part: Part, mem: seq<Word>, gs: seq<Granule>, first: nat, pbuf: seq<Word>, n: nat, i: nat)
    requires part.Valid() && first + n <= |mem| && n <= |pbuf| && i < |mem|
    requires Boundary(part.base + 4 * first, B256) && Boundary(part.base + 4 * (first + n), B256) && gs != []
    requires MaximalTiling(gs, part.base + 4 * first, part.base + 4 * (first + n))
    ensures Written(part, EraseAll(part, mem, gs[1..]), first, pbuf, n)[i]
      == if first <= i < first + n && Contains(gs[0], part.base + 4 * i) then part.blend(mem[i], pbuf[..n][i - first])
         else Spliced(mem, first, pbuf[..n])[i]
  {
    BusyEraseMissesFirst(part, mem, gs, part.base + 4 * first, part.base + 4 * (first + n), i);
    WordWritten(part, mem, EraseAll(part, mem, gs[1..]), first, pbuf, n, i, Contains(gs[0], part.base + 4 * i));
  }

  lemma WordWritten(part: Part, mem: seq<Word>, now: seq<Word>, first: nat, pbuf: seq<Word>, n: nat, i: nat, kept: bool)
    requires part.Valid() && first + n <= |mem| == |now| && n <= |pbuf| && i < |mem|
    requires now[i] == if first <= i < first + n && !kept then part.blank else mem[i]
    ensures Written(part, now, first, pbuf, n)[i]
      == if first <= i < first + n && kept then part.blend(mem[i], pbuf[..n][i - first])
         else Spliced(mem, first, pbuf[..n])[i]
  {
    if first <= i < first + n {
      assert pbuf[..n][i - first] == pbuf[i - first];
    }
  }

  /** Erasing a range while the controller is busy at first, and then writing it. */
  lemma BusyEraseThenWrite(part: Part, mem: seq<Word>, gs: seq<Granule>, first: nat, pbuf: seq<Word>, n: nat)
    requires part.Valid() && first + n <= |mem| && n <= |pbuf|
    requires Boundary(part.base + 4 * first, B256) && Boundary(part.base + 4 * (first + n), B256) && gs != []
    requires MaximalTiling(gs, part.base + 4 * first, part.base + 4 * (first + n))
    ensures SplicedOver(part, mem, first, pbuf[..n], gs[0], Written(part, EraseAll(part, mem, gs[1..]), first, pbuf, n))
  {
    forall i | 0 <= i < |mem|
      ensures Written(part, EraseAll(part, mem, gs[1..]), first, pbuf, n)[i]
        == if first <= i < first + n && Contains(gs[0], part.base + 4 * i) then part.blend(mem[i], pbuf[..n][i - first])
           else Spliced(mem, first, pbuf[..n])[i]
    {
      WordOver(part, mem, gs, first, pbuf, n, i);
    }
  }

  /** FLASH_ROM_ERASE and then FLASH_ROM_WRITE on one range: either both refuse it and nothing changes, or the words are
      spliced into the array, whatever it held; except, from a busy controller, for the granule that the erase misses,
      where they are programmed over the old ones. */
  method EraseAndWrite(f: Flash, startAddr: u32, pbuf: seq<Word>, length: u32)
    returns (erased: Status, written: Status, ghost gs: seq<Granule>)
    requires f.Ready() && startAddr + length < 0x1_0000_0000 && length <= 4 * |pbuf|
    modifies f
    ensures f.Ready() && erased == written == RequestStatus(f.part, startAddr, length)
    ensures erased != Complete ==> unchanged(f)
    ensures erased == Complete ==>
      var first, n := WordAt(f.part, startAddr), length / 4;
      && 0 <= first && first + n <= |old(f.mem)|
      && MaximalTiling(gs, startAddr, startAddr + length) && gs != []
      && if old(f.busyFor) == 0 then f.mem == Spliced(old(f.mem), first, pbuf[..n])
         else SplicedOver(f.part, old(f.mem), first, pbuf[..n], gs[0], f.mem)
  {
    RequestAccepted(f.part, startAddr, length);
    erased, gs := EraseRange(f, startAddr, length);
    if erased == Complete {
      EraseThenWriteIsSplice(f.part, old(f.mem), startAddr, pbuf, length);
      WordsOf(f.part, startAddr, length);
      BusyEraseThenWrite(f.part, old(f.mem), gs, WordAt(f.part, startAddr), pbuf, length / 4);
    }
    written := WriteRange(f, startAddr, pbuf, length);
  }
}
