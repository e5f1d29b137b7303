/**
 Erasing a range of the flash array: ROM_ERASE and FLASH_ROM_ERASE.
 */
module FlashErase {
  import opened FlashDevice
  import opened FlashGranules

  /** The checks both range operations make, in the order they make them; the end address is a 32-bit sum. */
  function RequestStatus(part: Part, startAddr: u32, length: u32): Status {
    if startAddr < part.base || startAddr >= part.end then
      AdrRangeError
    else if (startAddr + length) % 0x1_0000_0000 > part.end then
      OpRangeError
    else if startAddr % SIZE_256B != 0 || length % SIZE_256B != 0 || length == 0 then
      AlignError
    else
      Complete
  }

  /** A non-empty range of the array that starts and ends on 256-byte boundaries. */
  ghost predicate GoodRange(part: Part, startAddr: int, length: int) {
    && part.base <= startAddr && startAddr + length <= part.end && length > 0
    && Boundary(startAddr, B256) && Boundary(startAddr + length, B256)
  }

  lemma BoundaryIff(a: int)
    ensures Boundary(a, B256) <==> a % SIZE_256B == 0
  {
    if a % SIZE_256B == 0 {
      assert a == At(B256, a / SIZE_256B);
    }
  }

  lemma SumOfMultiples(a: int, b: int)
    requires a % SIZE_256B == 0
    ensures (a + b) % SIZE_256B == 0 <==> b % SIZE_256B == 0
  {
  }

  /** The checks accept the ranges that are good, and also requests whose end wraps around 32 bits and comes
      out below the end of the array: those, and only those, they accept wrongly. */
  lemma RequestAccepted(part: Part, startAddr: u32, length: u32)
    ensures startAddr + length < 0x1_0000_0000 ==>
      (RequestStatus(part, startAddr, length) == Complete <==> GoodRange(part, startAddr, length))
    ensures RequestStatus(part, startAddr, length) == Complete ==>
      (GoodRange(part, startAddr, length) <==> startAddr + length < 0x1_0000_0000)
  {
    BoundaryIff(startAddr);
    BoundaryIff(startAddr + length);
    if startAddr % SIZE_256B == 0 {
      SumOfMultiples(startAddr, length);
    }
  }

  /** Why a request is refused. The first test that fails gives the answer. */
  lemma RefusedBecause(part: Part, startAddr: u32, length: u32)
    ensures RequestStatus(part, startAddr, length) == AdrRangeError <==> !(part.base <= startAddr < part.end)
    ensures part.base <= startAddr < part.end && startAddr + length < 0x1_0000_0000 ==>
      && (RequestStatus(part, startAddr, length) == OpRangeError <==> startAddr + length > part.end)
      && (RequestStatus(part, startAddr, length) == AlignError <==>
            && startAddr + length <= part.end
            && (length == 0 || !Boundary(startAddr, B256) || !Boundary(startAddr + length, B256)))
  {
    BoundaryIff(startAddr);
    BoundaryIff(startAddr + length);
    if startAddr % SIZE_256B == 0 {
      SumOfMultiples(startAddr, length);
    }
  }

  /** For instance, on a part of 64 KB. */
  lemma WrappingRequestAccepted(part: Part)
    requires part.base == 0x0800_0000 && part.end == 0x0801_0000
    ensures RequestStatus(part, 0x0800_0000, 0xFFFF_FF00) == Complete
    ensures !GoodRange(part, 0x0800_0000, 0xFFFF_FF00)
  {
  }

  /** The mode bit that erases granules of a size. */
  function EraseMode(k: Kind): Bit {
    match k
    case B32K => BER32
    case B2K => PER
    case B256 => FTER
  }

  /** The STRT commands that erase these granules in this order. */
  function Commands(gs: seq<Granule>): (r: seq<Event>)
    ensures |r| == |gs|
  {
    seq(|gs|, i requires 0 <= i < |gs| => Start({EraseMode(gs[i].kind)}, gs[i].Addr()))
  }

  /** The array with these granules erased one after another. */
  function EraseAll(part: Part, mem: seq<Word>, gs: seq<Granule>): (r: seq<Word>)
    ensures |r| == |mem|
    decreases |gs|
  {
    if gs == [] then mem
    else EraseAll(part, part.Erased(mem, gs[0].Addr(), Bytes(gs[0].kind)), gs[1..])
  }

  lemma {:induction false} EraseAllAppend(part: Part, mem: seq<Word>, xs: seq<Granule>, ys: seq<Granule>)
    ensures EraseAll(part, mem, xs + ys) == EraseAll(part, EraseAll(part, mem, xs), ys)
    decreases |xs|
  {
    if xs == [] {
      assert xs + ys == ys;
    } else {
      assert (xs + ys)[1..] == xs[1..] + ys;
      EraseAllAppend(part, part.Erased(mem, xs[0].Addr(), Bytes(xs[0].kind)), xs[1..], ys);
    }
  }

  /** A word ends up erased just when some granule holds its address. */
  lemma {:induction false} EraseAllAt(part: Part, mem: seq<Word>, gs: seq<Granule>, i: nat)
    requires i < |mem|
    ensures EraseAll(part, mem, gs)[i] == if Covered(Elements(gs), part.base + 4 * i) then part.blank else mem[i]
    decreases |gs|
  {
    if gs != [] {
      var first := part.Erased(mem, gs[0].Addr(), Bytes(gs[0].kind));
      EraseAllAt(part, first, gs[1..], i);
      assert gs == [gs[0]] + gs[1..];
      assert Elements(gs) == {gs[0]} + Elements(gs[1..]);
    }
  }

  /** Erasing a maximal tiling erases the range and nothing else. */
  lemma TilingErasesRange(part: Part, mem: seq<Word>, gs: seq<Granule>, lo: int, hi: int)
    requires Boundary(lo, B256) && Boundary(hi, B256) && MaximalTiling(gs, lo, hi)
    ensures EraseAll(part, mem, gs) == part.Erased(mem, lo, hi - lo)
  {
    TilingIsExact(gs, lo, hi);
    forall i | 0 <= i < |mem|
      ensures EraseAll(part, mem, gs)[i] == part.Erased(mem, lo, hi - lo)[i]
    {
      EraseAllAt(part, mem, gs, i);
    }
  }

  /** The array, the command log, the reads for which BSY is still shown, and ADDR. */
  datatype Progress = Progress(mem: seq<Word>, trace: seq<Event>, busyFor: nat, addr: int)

  function ProgressOf(f: Flash): Progress
    reads f`mem, f`trace, f`busyFor, f`addr
  {
    Progress(f.mem, f.trace, f.busyFor, f.addr)
  }

  /** The granules that go when these are started in turn and each start is waited for: a start made while the
      controller is busy has no effect, and only the first can be. */
  function Effective(gs: seq<Granule>, busyFor: nat): seq<Granule> {
    if gs != [] && busyFor > 0 then gs[1..] else gs
  }

  /** ADDR once these are started. */
  function LastAddr(gs: seq<Granule>, addr: int): int {
    if gs == [] then addr else gs[|gs| - 1].Addr()
  }

  /** Starting these granules, in this order, leads from one state to another. */
  ghost predicate Logged(part: Part, was: Progress, gs: seq<Granule>, now: Progress) {
    && now.mem == EraseAll(part, was.mem, Effective(gs, was.busyFor))
    && now.trace == was.trace + Commands(gs)
    && now.busyFor == (if gs == [] then was.busyFor else 0)
    && now.addr == LastAddr(gs, was.addr)
  }

  lemma EffectiveAppend(gs: seq<Granule>, more: seq<Granule>, busyFor: nat)
    ensures Effective(gs + more, busyFor) == Effective(gs, busyFor) + Effective(more, if gs == [] then busyFor else 0)
  {
    if gs == [] {
      assert gs + more == more;
    } else {
      assert (gs + more)[1..] == gs[1..] + more;
    }
  }

  lemma CommandsAppend(gs: seq<Granule>, more: seq<Granule>)
    ensures Commands(gs + more) == Commands(gs) + Commands(more)
  {
  }

  lemma Associative(a: seq<Event>, b: seq<Event>, c: seq<Event>)
    ensures (a + b) + c == a + (b + c)
  {
  }

  lemma LoggedThen(part: Part, p: Progress, gs: seq<Granule>, q: Progress, more: seq<Granule>, r: Progress)
    requires Logged(part, p, gs, q) && Logged(part, q, more, r)
    ensures Logged(part, p, gs + more, r)
  {
    var first, second := Effective(gs, p.busyFor), Effective(more, q.busyFor);
    EffectiveAppend(gs, more, p.busyFor);
    EraseAllAppend(part, p.mem, first, second);
    assert Effective(gs + more, p.busyFor) == first + second;
    assert more != [] ==> (gs + more)[|gs + more| - 1] == more[|more| - 1];
    assert more == [] ==> gs + more == gs;
    CommandsAppend(gs, more);
    Associative(p.trace, Commands(gs), Commands(more));
  }

  /** KEYR and MODEKEYR are each given both keys. */
  method UnlockFast(f: Flash)
    requires f.keyed == {}
    modifies f`ctlr, f`keyed
    ensures f.keyed == {} && f.ctlr == old(f.ctlr) - {LOCK, FLOCK}
  {
    f.WriteKey(Keyr, KEY1);
    f.WriteKey(Keyr, KEY2);
    f.WriteKey(ModeKeyr, KEY1);
    f.WriteKey(ModeKeyr, KEY2);
  }

  lemma AtAligned(k: Kind, i: int)
    ensures k == B256 ==> At(k, i) % SIZE_256B == 0
    ensures k == B2K ==> At(k, i) % SIZE_2KB == 0
    ensures k == B32K ==> At(k, i) % SIZE_32KB == 0
  {
  }

  /** What a start does to the `i`-th granule of a size. */
  lemma GranuleStarts(part: Part, mem: seq<Word>, words: seq<Word>, k: Kind, i: int, enabled: bool, buffer: seq<Word>)
    requires 0 <= At(k, i) < 0x1_0000_0000 && |words| == 4 && |buffer| == 64
    ensures part.MemAfter(mem, EraseMode(k), At(k, i), true, buffer) == part.Erased(mem, At(k, i), Bytes(k))
    ensures part.OptionsAfter(words, EraseMode(k), At(k, i), true, enabled, buffer) == words
  {
    AtAligned(k, i);
  }

  /** One pass of the loop of ROM_ERASE: the `i`-th block of a size. */
  method EraseOne(f: Flash, at: u32, eraseSize: u32, ghost k: Kind, ghost i: int)
    requires f.Ready() && LOCK !in f.ctlr && FLOCK !in f.ctlr
    requires eraseSize == Bytes(k) && at == At(k, i)
    modifies f`ctlr, f`addr, f`busyFor, f`mem, f`optionWords, f`trace
    ensures f.Ready() && f.ctlr == old(f.ctlr) && f.optionWords == old(f.optionWords)
    ensures f.trace == old(f.trace) + [Start({EraseMode(k)}, at)] && f.busyFor == 0 && f.addr == at
    ensures f.mem == if old(f.busyFor) == 0 then f.part.Erased(old(f.mem), at, eraseSize) else old(f.mem)
  {
    SetMode(f.ctlr, EraseMode(k));
    GranuleStarts(f.part, f.mem, f.optionWords, k, i, OBWRE in f.ctlr, f.pageBuffer);
    SelectSize(f, eraseSize, k);
    f.WriteAddr(at);
    f.Strt(EraseMode(k));
    f.WaitWhileBusy();
    DeselectSize(f, eraseSize, k);
  }

  method SelectSize(f: Flash, eraseSize: u32, ghost k: Kind)
    requires LOCK !in f.ctlr && eraseSize == Bytes(k)
    modifies f`ctlr
    ensures f.ctlr == old(f.ctlr) + {EraseMode(k)}
  {
    if eraseSize == SIZE_32KB {
      f.SetBit(BER32);
    } else if eraseSize == SIZE_2KB {
      f.SetBit(PER);
    } else if eraseSize == SIZE_256B {
      f.SetBit(FTER);
    }
  }

  method DeselectSize(f: Flash, eraseSize: u32, ghost k: Kind)
    requires LOCK !in f.ctlr && eraseSize == Bytes(k)
    modifies f`ctlr
    ensures f.ctlr == old(f.ctlr) - {EraseMode(k)}
  {
    if eraseSize == SIZE_32KB {
      f.ClearBits({BER32});
    } else if eraseSize == SIZE_2KB {
      f.ClearBits({PER});
    } else if eraseSize == SIZE_256B {
      f.ClearBits({FTER});
    }
  }

  /** One granule more. */
  lemma OneLogged(part: Part, was: Progress, gs: seq<Granule>, between: Progress, g: Granule, now: Progress)
    requires Logged(part, was, gs, between) && now.trace == between.trace + [Start({EraseMode(g.kind)}, g.Addr())]
    requires now.mem == if between.busyFor == 0 then part.Erased(between.mem, g.Addr(), Bytes(g.kind)) else between.mem
    requires now.busyFor == 0 && now.addr == g.Addr()
    ensures Logged(part, was, gs + [g], now)
  {
    assert Commands([g]) == [Start({EraseMode(g.kind)}, g.Addr())];
    EraseSole(part, between.mem, g);
    LoggedThen(part, was, gs, between, [g], now);
  }

  lemma EraseSole(part: Part, mem: seq<Word>, g: Granule)
    ensures EraseAll(part, mem, [g]) == part.Erased(mem, g.Addr(), Bytes(g.kind))
    ensures [g][1..] == [] && EraseAll(part, mem, []) == mem
  {
    assert [g][1..] == [];
  }

  lemma RunMore(k: Kind, i: int, n: nat)
    ensures Run(k, i, n) + [Granule(k, i + n)] == Run(k, i, n + 1)
  {
  }

  /** A pass of the loop, after `n` others. */
  method EraseNext(f: Flash, at: u32, eraseSize: u32, ghost k: Kind, ghost i: int, ghost n: nat, ghost was: Progress)
    requires f.Ready() && LOCK !in f.ctlr && FLOCK !in f.ctlr
    requires eraseSize == Bytes(k) && at == At(k, i + n) && Logged(f.part, was, Run(k, i, n), ProgressOf(f))
    modifies f`ctlr, f`addr, f`busyFor, f`mem, f`optionWords, f`trace
    ensures f.Ready() && f.ctlr == old(f.ctlr) && f.optionWords == old(f.optionWords)
    ensures Logged(f.part, was, Run(k, i, n + 1), ProgressOf(f))
  {
    EraseOne(f, at, eraseSize, k, i + n);
    OneLogged(f.part, was, Run(k, i, n), old(ProgressOf(f)), Granule(k, i + n), ProgressOf(f));
    RunMore(k, i, n);
  }

  /** ROM_ERASE: `cnt` granules of one size from `startAddr`, their `i`-th, on. With a count of zero `--cnt`
      would wrap around; here every subtraction is checked to stay within 32 bits. */
  method EraseRun(f: Flash, startAddr: u32, cnt: u32, eraseSize: u32, ghost k: Kind, ghost i: int)
    requires f.Ready() && LOCK !in f.ctlr && FLOCK !in f.ctlr
    requires eraseSize == Bytes(k) && startAddr == At(k, i) && cnt >= 1 && At(k, i + cnt) <= f.part.end
    modifies f`ctlr, f`addr, f`busyFor, f`mem, f`optionWords, f`trace
    ensures f.Ready() && f.ctlr == old(f.ctlr) && f.optionWords == old(f.optionWords)
    ensures Logged(f.part, old(ProgressOf(f)), Run(k, i, cnt), ProgressOf(f))
  {
    var at: u32, left: u32 := startAddr, cnt;
    ghost var n: nat, was := 0, ProgressOf(f);
    assert Run(k, i, 0) == [];
    SetMode(f.ctlr, FTER);
    f.ClearBits({OBER, FTER});
    while true
      invariant f.Ready() && f.ctlr == old(f.ctlr) && f.optionWords == old(f.optionWords)
      invariant 1 <= left && n + left == cnt && at == At(k, i + n)
      invariant Logged(f.part, was, Run(k, i, n), ProgressOf(f))
      decreases left
    {
      EraseNext(f, at, eraseSize, k, i, n, was);
      n := n + 1;
      at := at + eraseSize;
      left := left - 1;
      if left == 0 {
        break;
      }
    }
  }

  /** The bytes between two boundaries are a run of as many granules as they have blocks. */
  lemma RunBetween(lo: int, hi: int, k: Kind) returns (i: int, n: nat)
    requires lo < hi && Boundary(lo, k) && Boundary(hi, k)
    ensures lo == At(k, i) && hi == At(k, i + n) && 1 <= n <= hi - lo && Fills(Run(k, i, n), lo, hi, k)
    ensures (hi - lo) / Bytes(k) == n
  {
    i :| lo == At(k, i);
    var j :| hi == At(k, j);
    n := j - i;
    RunFills(k, i, n);
  }

  lemma RoundDown(k: Kind, a: int)
    ensures Boundary(a - a % Bytes(k), k) && 0 <= a % Bytes(k) < Bytes(k)
  {
    match k
    case B256 => assert a - a % SIZE_256B == At(B256, a / SIZE_256B);
    case B2K => assert a - a % SIZE_2KB == At(B2K, a / SIZE_2KB);
    case B32K => assert a - a % SIZE_32KB == At(B32K, a / SIZE_32KB);
  }

  /** Rounding the start of the front up to a boundary. */
  lemma FrontCut(k: Kind, a: int, n: int)
    requires n >= Bytes(k) && Boundary(a + n, k)
    ensures var left := if a % Bytes(k) != 0 then Bytes(k) - a % Bytes(k) else 0;
      0 <= left < Bytes(k) && left < n && Boundary(a + left, k)
  {
    RoundDown(k, a);
    Next(k, a - a % Bytes(k));
  }

  /** Rounding the end of the back down to a boundary. */
  lemma BackCut(k: Kind, a: int, n: int)
    requires n >= Bytes(k) && Boundary(a, k)
    ensures var left := (a + n) % Bytes(k);
      0 <= left < Bytes(k) && left < n && Boundary(a + n - left, k)
  {
    RoundDown(k, a + n);
  }

  /** A call of ROM_ERASE for the `length` bytes from `lo` on, whole granules of one size. */
  method EraseSpan(f: Flash, addr: u32, length: u32, size: u32, ghost k: Kind) returns (ghost gs: seq<Granule>)
    requires f.Ready() && LOCK !in f.ctlr && FLOCK !in f.ctlr
    requires size == Bytes(k) && length > 0 && addr + length <= f.part.end
    requires Boundary(addr, k) && Boundary(addr + length, k)
    modifies f`ctlr, f`addr, f`busyFor, f`mem, f`optionWords, f`trace
    ensures f.Ready() && f.ctlr == old(f.ctlr) && f.optionWords == old(f.optionWords)
    ensures Fills(gs, addr, addr + length, k)
    ensures Logged(f.part, old(ProgressOf(f)), gs, ProgressOf(f))
  {
    ghost var i, n := RunBetween(addr, addr + length, k);
    gs := Run(k, i, n);
    EraseRun(f, addr, length / size, size, k, i);
  }

  /** The bytes that remain to be erased: [lo, f) and [b, hi). */
  datatype Rest = Rest(lo: int, f: int, b: int, hi: int)

  /** As the driver keeps them: two starts and two lengths, the second start not kept up once nothing remains there. */
  predicate Keeps(r: Rest, addr0: int, length0: int, addr1: int, length1: int) {
    r.lo == addr0 && r.f == addr0 + length0 && r.b == r.hi - length1 && (length1 > 0 ==> r.b == addr1)
  }

  /** What FLASH_ROM_ERASE does at one size to the front. */
  method EraseFront(f: Flash, addr0: u32, length0: u32, size: u32, ghost k: Kind, ghost was: Rest)
    returns (left: u32, ghost cut: int, ghost gs: seq<Granule>)
    requires f.Ready() && LOCK !in f.ctlr && FLOCK !in f.ctlr
    requires size == Bytes(k) && was.lo == addr0 && was.f == addr0 + length0
    requires was.f <= f.part.end && (was.f - was.lo < size || Boundary(was.f, k))
    modifies f`ctlr, f`addr, f`busyFor, f`mem, f`optionWords, f`trace
    ensures f.Ready() && f.ctlr == old(f.ctlr) && f.optionWords == old(f.optionWords)
    ensures cut == addr0 + left && FrontCutAt(was.lo, cut, was.f, k) && Fills(gs, cut, was.f, k)
    ensures Logged(f.part, old(ProgressOf(f)), gs, ProgressOf(f))
  {
    left, gs := length0, [];
    if length0 >= size {
      FrontCut(k, addr0, length0);
      if addr0 % size != 0 {
        left := size - addr0 % size;
      } else {
        left := 0;
      }
      gs := EraseSpan(f, addr0 + left, length0 - left, size, k);
    }
    cut := addr0 + left;
  }

  /** And to the back. */
  method EraseBack(f: Flash, addr1: u32, length1: u32, size: u32, ghost k: Kind, ghost was: Rest)
    returns (addr1': u32, left: u32, ghost cut: int, ghost gs: seq<Granule>)
    requires f.Ready() && LOCK !in f.ctlr && FLOCK !in f.ctlr
    requires size == Bytes(k) && was.b == was.hi - length1 && (length1 > 0 ==> was.b == addr1)
    requires was.hi <= f.part.end && (was.hi - was.b < size || Boundary(was.b, k))
    modifies f`ctlr, f`addr, f`busyFor, f`mem, f`optionWords, f`trace
    ensures f.Ready() && f.ctlr == old(f.ctlr) && f.optionWords == old(f.optionWords)
    ensures cut == was.hi - left && (left > 0 ==> cut == addr1')
    ensures BackCutAt(was.b, cut, was.hi, k) && Fills(gs, was.b, cut, k)
    ensures Logged(f.part, old(ProgressOf(f)), gs, ProgressOf(f))
  {
    addr1', left, gs := addr1, length1, [];
    if length1 >= size {
      BackCut(k, addr1, length1);
      if (addr1 + length1) % size != 0 {
        addr1' := (addr1 + length1) - (addr1 + length1) % size;
        left := (addr1 + length1) % size;
      } else {
        left := 0;
      }
      gs := EraseSpan(f, addr1, length1 - left, size, k);
    }
    cut := was.hi - left;
  }

  /** Between the rest before and after a size, its granules have gone. */
  ghost predicate LevelErased(gs: seq<Granule>, was: Rest, now: Rest, k: Kind) {
    && now.lo == was.lo && now.hi == was.hi
    && FrontCutAt(was.lo, now.f, was.f, k) && BackCutAt(was.b, now.b, was.hi, k)
    && FillsBoth(gs, now.f, was.f, was.b, now.b, k)
  }

  /** One size at both ends: front, then back. */
  method EraseLevel(f: Flash, addr0: u32, length0: u32, addr1: u32, length1: u32, size: u32, ghost k: Kind,
      ghost was: Rest)
    returns (left0: u32, addr1': u32, left1: u32, ghost now: Rest, ghost gs: seq<Granule>)
    requires f.Ready() && LOCK !in f.ctlr && FLOCK !in f.ctlr
    requires size == Bytes(k) && Keeps(was, addr0, length0, addr1, length1) && was.f <= was.b && was.hi <= f.part.end
    requires was.f - was.lo < size || Boundary(was.f, k)
    requires was.hi - was.b < size || Boundary(was.b, k)
    modifies f`ctlr, f`addr, f`busyFor, f`mem, f`optionWords, f`trace
    ensures f.Ready() && f.ctlr == old(f.ctlr) && f.optionWords == old(f.optionWords)
    ensures Keeps(now, addr0, left0, addr1', left1) && LevelErased(gs, was, now, k)
    ensures Logged(f.part, old(ProgressOf(f)), gs, ProgressOf(f))
  {
    ghost var front, back, c0, c1;
    left0, c0, front := EraseFront(f, addr0, length0, size, k, was);
    ghost var between := ProgressOf(f);
    addr1', left1, c1, back := EraseBack(f, addr1, length1, size, k, was);
    now := Rest(was.lo, c0, c1, was.hi);
    JoinFills(front, back, c0, was.f, was.b, c1, k);
    LoggedThen(f.part, old(ProgressOf(f)), front, between, back, ProgressOf(f));
    gs := front + back;
  }

  /** The last step: whatever is left at either end goes in 256-byte granules. */
  method EraseRest(f: Flash, addr0: u32, length0: u32, addr1: u32, length1: u32, ghost r: Rest)
    returns (ghost gs: seq<Granule>)
    requires f.Ready() && LOCK !in f.ctlr && FLOCK !in f.ctlr
    requires Keeps(r, addr0, length0, addr1, length1) && r.f <= r.b && r.hi <= f.part.end
    requires Boundary(r.lo, B256) && Boundary(r.f, B256) && Boundary(r.b, B256) && Boundary(r.hi, B256)
    modifies f`ctlr, f`addr, f`busyFor, f`mem, f`optionWords, f`trace
    ensures f.Ready() && f.ctlr == old(f.ctlr) && f.optionWords == old(f.optionWords)
    ensures FillsBoth(gs, r.lo, r.f, r.b, r.hi, B256)
    ensures Logged(f.part, old(ProgressOf(f)), gs, ProgressOf(f))
  {
    ghost var front, back: seq<Granule> := [], [];
    if length0 != 0 {
      front := EraseSpan(f, addr0, length0, SIZE_256B, B256);
    }
    ghost var between := ProgressOf(f);
    if length1 != 0 {
      back := EraseSpan(f, addr1, length1, SIZE_256B, B256);
    }
    LoggedThen(f.part, old(ProgressOf(f)), front, between, back, ProgressOf(f));
    JoinFills(front, back, r.lo, r.f, r.b, r.hi, B256);
    gs := front + back;
  }

  /** Where the request is first split. */
  method Split(startAddr: u32, length: u32) returns (length0: u32, addr1: u32, length1: u32)
    requires length >= SIZE_256B && startAddr + length < 0x1_0000_0000
    ensures length0 + length1 == length && (length1 > 0 ==> addr1 == startAddr + length0)
    ensures SplitAt(startAddr, startAddr + length0, startAddr + length)
  {
    addr1, length0, length1 := 0, 0, 0;
    if length >= SIZE_32KB {
      RoundDown(B32K, startAddr);
      Next(B32K, startAddr - startAddr % SIZE_32KB);
      length0 := SIZE_32KB - startAddr % SIZE_32KB;
      addr1 := startAddr + length0;
      length1 := length - length0;
    } else if length >= SIZE_2KB {
      RoundDown(B2K, startAddr);
      Next(B2K, startAddr - startAddr % SIZE_2KB);
      length0 := SIZE_2KB - startAddr % SIZE_2KB;
      addr1 := startAddr + length0;
      length1 := length - length0;
    } else if length >= SIZE_256B {
      length0 := length;
    }
  }

  /** Split the request and erase the 32 KB granules in it. */
  method EraseMiddle(f: Flash, startAddr: u32, length: u32, ghost hi: int)
    returns (length0: u32, addr1: u32, length1: u32, ghost split: Rest, ghost r: Rest, ghost big: seq<Granule>)
    requires f.Ready() && LOCK !in f.ctlr && FLOCK !in f.ctlr
    requires length >= SIZE_256B && hi == startAddr + length && hi <= f.part.end
    modifies f`ctlr, f`addr, f`busyFor, f`mem, f`optionWords, f`trace
    ensures f.Ready() && f.ctlr == old(f.ctlr) && f.optionWords == old(f.optionWords)
    ensures split == Rest(startAddr, split.f, split.f, hi) && SplitAt(startAddr, split.f, hi)
    ensures Keeps(r, startAddr, length0, addr1, length1) && LevelErased(big, split, r, B32K)
    ensures Logged(f.part, old(ProgressOf(f)), big, ProgressOf(f))
  {
    length0, addr1, length1 := Split(startAddr, length);
    split := Rest(startAddr, startAddr + length0, startAddr + length0, hi);
    length0, addr1, length1, r, big := EraseLevel(f, startAddr, length0, addr1, length1, SIZE_32KB, B32K, split);
  }

  /** What is left after the 32 KB granules can be cut for 2 KB granules, */
  lemma MiddleCuts(big: seq<Granule>, split: Rest, r: Rest)
    requires split.f == split.b && SplitAt(split.lo, split.f, split.hi) && LevelErased(big, split, r, B32K)
    ensures r.f <= r.b && (r.f - r.lo < SIZE_2KB || Boundary(r.f, B2K)) && (r.hi - r.b < SIZE_2KB || Boundary(r.b, B2K))
  {
    Finer(split.f);
    Finer(r.f);
    Finer(r.b);
  }

  /** and what is left after those is whole 256-byte granules. */
  lemma SmallCuts(big: seq<Granule>, middle: seq<Granule>, split: Rest, r: Rest, r': Rest)
    requires Boundary(split.lo, B256) && Boundary(split.hi, B256)
    requires split.f == split.b && SplitAt(split.lo, split.f, split.hi)
    requires LevelErased(big, split, r, B32K) && LevelErased(middle, r, r', B2K)
    ensures r'.f <= r'.b && Boundary(r'.f, B256) && Boundary(r'.b, B256)
  {
    DriverCuts(split.lo, r'.f, r.f, split.f, r.b, r'.b, split.hi);
  }

  /** The two smaller sizes at both ends. */
  method EraseEnds(f: Flash, addr0: u32, length0: u32, addr1: u32, length1: u32, ghost split: Rest, ghost r: Rest,
      ghost big: seq<Granule>)
    returns (ghost r': Rest, ghost middle: seq<Granule>, ghost small: seq<Granule>)
    requires f.Ready() && LOCK !in f.ctlr && FLOCK !in f.ctlr
    requires Boundary(split.lo, B256) && Boundary(split.hi, B256) && split.hi <= f.part.end
    requires split.f == split.b && SplitAt(split.lo, split.f, split.hi)
    requires Keeps(r, addr0, length0, addr1, length1) && LevelErased(big, split, r, B32K)
    modifies f`ctlr, f`addr, f`busyFor, f`mem, f`optionWords, f`trace
    ensures f.Ready() && f.ctlr == old(f.ctlr) && f.optionWords == old(f.optionWords)
    ensures LevelErased(middle, r, r', B2K) && FillsBoth(small, r'.lo, r'.f, r'.b, r'.hi, B256)
    ensures Logged(f.part, old(ProgressOf(f)), middle + small, ProgressOf(f))
  {
    MiddleCuts(big, split, r);
    var left0, addr, left1;
    left0, addr, left1, r', middle := EraseLevel(f, addr0, length0, addr1, length1, SIZE_2KB, B2K, r);
    ghost var between := ProgressOf(f);
    SmallCuts(big, middle, split, r, r');
    small := EraseRest(f, addr0, left0, addr, left1, r');
    LoggedThen(f.part, old(ProgressOf(f)), middle, between, small, ProgressOf(f));
  }

  /** All the granules together. */
  lemma Levels(big: seq<Granule>, middle: seq<Granule>, small: seq<Granule>, split: Rest, r: Rest, r': Rest)
    requires Boundary(split.lo, B256) && Boundary(split.hi, B256)
    requires split.f == split.b && SplitAt(split.lo, split.f, split.hi)
    requires LevelErased(big, split, r, B32K) && LevelErased(middle, r, r', B2K)
    requires FillsBoth(small, r'.lo, r'.f, r'.b, r'.hi, B256)
    ensures MaximalTiling(big + (middle + small), split.lo, split.hi)
  {
    DriverTiling(split.lo, r'.f, r.f, split.f, r.b, r'.b, split.hi, big, middle, small);
  }

  /** What FLASH_ROM_ERASE does with a request it accepts, between unlocking and locking. */
  method ErasePlanned(f: Flash, startAddr: u32, length: u32) returns (ghost gs: seq<Granule>)
    requires f.Ready() && LOCK !in f.ctlr && FLOCK !in f.ctlr
    requires Boundary(startAddr, B256) && Boundary(startAddr + length, B256)
    requires length >= SIZE_256B && startAddr + length <= f.part.end
    modifies f`ctlr, f`addr, f`busyFor, f`mem, f`optionWords, f`trace
    ensures f.Ready() && f.ctlr == old(f.ctlr) && f.optionWords == old(f.optionWords)
    ensures MaximalTiling(gs, startAddr, startAddr + length)
    ensures Logged(f.part, old(ProgressOf(f)), gs, ProgressOf(f))
  {
    var length0, addr1, length1, split, r, big := EraseMiddle(f, startAddr, length, startAddr + length);
    ghost var between := ProgressOf(f);
    ghost var r', middle, small := EraseEnds(f, startAddr, length0, addr1, length1, split, r, big);
    LoggedThen(f.part, old(ProgressOf(f)), big, between, middle + small, ProgressOf(f));
    Levels(big, middle, small, split, r, r');
    gs := big + (middle + small);
  }

  lemma OnlyInTheFirst(gs: seq<Granule>, lo: int, hi: int, a: int)
    requires Boundary(lo, B256) && Boundary(hi, B256) && MaximalTiling(gs, lo, hi) && gs != []
    requires lo <= a < hi ==> Contains(gs[0], a)
    ensures !Covered(Elements(gs[1..]), a)
  {
    TilingIsExact(gs, lo, hi);
    forall g | g in gs[1..]
      ensures !Contains(g, a)
    {
      assert g in Elements(gs);
      assert Contains(g, a) ==> Covered(Elements(gs), a);
    }
  }

  /** A request made while the controller is busy erases its range but for the first granule started. */
  lemma {:induction false} BusyEraseMissesFirst(part: Part, mem: seq<Word>, gs: seq<Granule>, lo: int, hi: int, i: nat)
    requires Boundary(lo, B256) && Boundary(hi, B256) && MaximalTiling(gs, lo, hi) && gs != [] && i < |mem|
    ensures EraseAll(part, mem, gs[1..])[i] ==
      if lo <= part.base + 4 * i < hi && !Contains(gs[0], part.base + 4 * i) then part.blank else mem[i]
  {
    var a := part.base + 4 * i;
    TilingIsExact(gs, lo, hi);
    EraseAllAt(part, mem, gs[1..], i);
    if lo <= a < hi && !Contains(gs[0], a) {
      assert Covered(Elements(gs), a);
      var g :| g in gs && Contains(g, a);
      assert g in gs[1..];
    } else {
      OnlyInTheFirst(gs, lo, hi, a);
    }
  }

  /** What erasing a range comes to. */
  lemma RangeErased(part: Part, was: Progress, gs: seq<Granule>, now: Progress, lo: int, hi: int)
    requires Boundary(lo, B256) && Boundary(hi, B256) && lo < hi
    requires MaximalTiling(gs, lo, hi) && Logged(part, was, gs, now)
    ensures gs != [] && now.trace == was.trace + Commands(gs)
    ensures now.mem == if was.busyFor == 0 then part.Erased(was.mem, lo, hi - lo) else EraseAll(part, was.mem, gs[1..])
    ensures now.busyFor == 0 && now.addr == gs[|gs| - 1].Addr()
  {
    TilingNotEmpty(gs, lo, hi);
    TilingErasesRange(part, was.mem, gs, lo, hi);
  }

  /** Some granule is started. */
  lemma TilingNotEmpty(gs: seq<Granule>, lo: int, hi: int)
    requires Boundary(lo, B256) && Boundary(hi, B256) && MaximalTiling(gs, lo, hi) && lo < hi
    ensures gs != []
  {
    var g := MaximalAt(lo, hi, lo);
    assert g in gs;
  }

  method EraseAccepted(f: Flash, startAddr: u32, length: u32) returns (ghost gs: seq<Granule>)
    requires f.Ready() && Boundary(startAddr, B256) && Boundary(startAddr + length, B256)
    requires length >= SIZE_256B && startAddr + length <= f.part.end
    modifies f`ctlr, f`keyed, f`addr, f`busyFor, f`mem, f`optionWords, f`trace
    ensures f.Ready() && f.ctlr == old(f.ctlr) + {LOCK, FLOCK} && f.optionWords == old(f.optionWords)
    ensures MaximalTiling(gs, startAddr, startAddr + length)
    ensures Logged(f.part, old(ProgressOf(f)), gs, ProgressOf(f))
  {
    UnlockFast(f);
    gs := ErasePlanned(f, startAddr, length);
    f.SetBit(FLOCK);
    f.SetBit(LOCK);
  }

  /** FLASH_ROM_ERASE: the granules it erases are the maximal granules of the range, in some order. It does not wait
      before the first of them. */
  method EraseRange(f: Flash, startAddr: u32, length: u32) returns (status: Status, ghost gs: seq<Granule>)
    requires f.Ready() && startAddr + length < 0x1_0000_0000
    modifies f
    ensures f.Ready()
    ensures status == RequestStatus(f.part, startAddr, length)
    ensures status != Complete ==> unchanged(f)
    ensures status == Complete ==>
      && MaximalTiling(gs, startAddr, startAddr + length) && gs != []
      && f.trace == old(f.trace) + Commands(gs)
      && f.mem == (if old(f.busyFor) == 0 then f.part.Erased(old(f.mem), startAddr, length)
                   else EraseAll(f.part, old(f.mem), gs[1..]))
      && f.optionWords == old(f.optionWords) && f.pageBuffer == old(f.pageBuffer) && f.wrprterr == old(f.wrprterr)
      && f.readProtected == old(f.readProtected)
      && f.ctlr == old(f.ctlr) + {LOCK, FLOCK} && f.busyFor == 0 && f.addr == gs[|gs| - 1].Addr()
  {
    gs := [];
    if startAddr < f.part.base || startAddr >= f.part.end {
      return AdrRangeError, gs;
    }
    if (startAddr + length) % 0x1_0000_0000 > f.part.end {
      return OpRangeError, gs;
    }
    if startAddr % SIZE_256B != 0 || length % SIZE_256B != 0 || length == 0 {
      return AlignError, gs;
    }
    RequestAccepted(f.part, startAddr, length);
    gs := EraseAccepted(f, startAddr, length);
    RangeErased(f.part, old(ProgressOf(f)), gs, ProgressOf(f), startAddr, startAddr + length);
    status := Complete;
  }
}
