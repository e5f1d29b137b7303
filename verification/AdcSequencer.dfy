/**
 The sequencer of the converter: which channel each rank converts, and how long each channel is sampled, packed into
 RSQR1-3, ISQR and SAMPTR1-2.
 */
module AdcSequencer {
  import opened Registers

  const REGULAR_RANKS: bv32 := 16
  const INJECTED_RANKS: bv32 := 4
  const LAST_CHANNEL: bv32 := 18

  // ----- The injected register

  function InjectedLength(isqr: bv32): (r: bv32)
    ensures 1 <= r <= INJECTED_RANKS
  {
    ((isqr & 0x0030_0000) >> 20) + 1
  }

  /** The ranks fill the four places of ISQR from the right. A rank beyond the length falls off the end. */
  function Place(length: bv32, rank: bv32): (r: bv32)
    requires 1 <= length <= INJECTED_RANKS && 1 <= rank <= INJECTED_RANKS
    ensures r <= 6 && (rank <= length ==> r <= 3)
  {
    rank + 3 - length
  }

  function InjectedAt(isqr: bv32, rank: bv32): bv32
    requires 1 <= rank <= InjectedLength(isqr)
  {
    Five(isqr, Place(InjectedLength(isqr), rank))
  }

  /** What ADC_InjectedChannelConfig makes of ISQR. */
  function InjectedPut(isqr: bv32, rank: bv32, channel: bv32): bv32
    requires 1 <= rank <= INJECTED_RANKS
  {
    PutFive(isqr, Place(InjectedLength(isqr), rank), channel)
  }

  /** What ADC_InjectedSequencerLengthConfig makes of ISQR. */
  function LengthPut(isqr: bv32, length: bv32): bv32
    requires 1 <= length <= INJECTED_RANKS
  {
    (isqr & 0xFFCF_FFFF) | ((length - 1) << 20)
  }

  /** The length survives every call, except one for the rank just after the last, whose channel then falls on the
      length field: unless its lower two bits happen to be what is there. */
  lemma InjectedLengthKeptExactly(isqr: bv32, rank: bv32, channel: bv32)
    requires 1 <= rank <= INJECTED_RANKS && channel <= LAST_CHANNEL
    ensures InjectedLength(InjectedPut(isqr, rank, channel)) == InjectedLength(isqr)
      <==> !(rank == InjectedLength(isqr) + 1 && channel & 3 != InjectedLength(isqr) - 1)
  {
  }

  /** The length after such a call: the rank just after the last puts its channel on the length field. */
  function LengthAfterRank(length: bv32, rank: bv32, channel: bv32): (r: bv32)
    requires 1 <= length <= INJECTED_RANKS
    ensures 1 <= r <= INJECTED_RANKS
  {
    if rank == length + 1 then (channel & 3) + 1 else length
  }

  lemma InjectedLengthAfterPut(isqr: bv32, rank: bv32, channel: bv32)
    requires 1 <= rank <= INJECTED_RANKS && channel <= LAST_CHANNEL
    ensures InjectedLength(InjectedPut(isqr, rank, channel)) == LengthAfterRank(InjectedLength(isqr), rank, channel)
  {
  }

  lemma PlacesDiffer(length: bv32, rank: bv32, q: bv32)
    requires 1 <= length <= INJECTED_RANKS && 1 <= rank <= INJECTED_RANKS && 1 <= q <= INJECTED_RANKS
    ensures Place(length, q) == Place(length, rank) <==> q == rank
  {
  }

  lemma PlaceAfterPut(isqr: bv32, p: bv32, q: bv32, channel: bv32)
    requires p <= 3 && q <= 3 && channel <= LAST_CHANNEL
    ensures InjectedLength(PutFive(isqr, p, channel)) == InjectedLength(isqr)
    ensures Five(PutFive(isqr, p, channel), q) == if q == p then channel else Five(isqr, q)
  {
  }

  /** Setting an injected rank up to the length sets just that rank. */
  lemma InjectedAtAfterPut(isqr: bv32, rank: bv32, channel: bv32, q: bv32)
    requires 1 <= rank <= InjectedLength(isqr) && 1 <= q <= InjectedLength(isqr) && channel <= LAST_CHANNEL
    ensures InjectedLength(InjectedPut(isqr, rank, channel)) == InjectedLength(isqr)
    ensures InjectedAt(InjectedPut(isqr, rank, channel), q) == if q == rank then channel else InjectedAt(isqr, q)
  {
    var length := InjectedLength(isqr);
    PlacesDiffer(length, rank, q);
    PlaceAfterPut(isqr, Place(length, rank), Place(length, q), channel);
  }

  /** A call for a rank beyond the length loses its channel: none of the four places takes it. */
  lemma InjectedBeyondLength(isqr: bv32, rank: bv32, channel: bv32, place: bv32)
    requires InjectedLength(isqr) < rank <= INJECTED_RANKS && channel <= LAST_CHANNEL && place < 4
    ensures Five(InjectedPut(isqr, rank, channel), place) == Five(isqr, place)
  {
    FiveAfterPut(isqr, Place(InjectedLength(isqr), rank), place, channel);
  }

  /** The place a call for a rank takes, if any. */
  predicate Takes(length: bv32, rank: bv32, place: bv32)
    requires 1 <= length <= INJECTED_RANKS && 1 <= rank <= INJECTED_RANKS
  {
    rank <= length && place == Place(length, rank)
  }

  /** What a call for any rank leaves in each of the four places. */
  lemma PlaceAfterCall(isqr: bv32, rank: bv32, channel: bv32, place: bv32)
    requires 1 <= rank <= INJECTED_RANKS && channel <= LAST_CHANNEL && place < 4
    ensures Five(InjectedPut(isqr, rank, channel), place)
      == if Takes(InjectedLength(isqr), rank, place) then channel else Five(isqr, place)
  {
    if rank <= InjectedLength(isqr) {
      PlaceAfterPut(isqr, Place(InjectedLength(isqr), rank), place, channel);
    } else {
      InjectedBeyondLength(isqr, rank, channel, place);
    }
  }

  /** All bits of ISQR but the length. */
  function BesidesLength(isqr: bv32): bv32 {
    isqr & 0xFFCF_FFFF
  }

  lemma LengthAfterPut(isqr: bv32, length: bv32)
    requires 1 <= length <= INJECTED_RANKS
    ensures InjectedLength(LengthPut(isqr, length)) == length
    ensures BesidesLength(LengthPut(isqr, length)) == BesidesLength(isqr)
  {
  }

  lemma PlaceAfterLength(isqr: bv32, length: bv32, place: bv32)
    requires 1 <= length <= INJECTED_RANKS && place < 4
    ensures InjectedLength(LengthPut(isqr, length)) == length &&
        Five(LengthPut(isqr, length), place) == Five(isqr, place)
  {
  }

  lemma PlacesAfterLength(isqr: bv32, length: bv32)
    requires 1 <= length <= INJECTED_RANKS
    ensures LengthBits(LengthPut(isqr, length)) == length - 1
    ensures InjectedLength(LengthPut(isqr, length)) == length
    ensures BesidesLength(LengthPut(isqr, length)) == BesidesLength(isqr)
    ensures forall place: bv32 :: place < 4 ==> Five(LengthPut(isqr, length), place) == Five(isqr, place)
  {
    LengthAfterPut(isqr, length);
    LengthWrites(isqr, length);
    forall place: bv32 | place < 4
      ensures Five(LengthPut(isqr, length), place) == Five(isqr, place)
    {
      PlaceAfterLength(isqr, length, place);
    }
  }

  lemma SamePlace(length: bv32, rank: bv32, length': bv32, rank': bv32)
    requires 1 <= rank <= length <= INJECTED_RANKS && 1 <= rank' <= length' <= INJECTED_RANKS
    requires length' - rank' == length - rank
    ensures Place(length', rank') == Place(length, rank)
  {
  }

  /** Changing the length renumbers the ranks from the right and moves no channel. */
  lemma InjectedAfterLength(isqr: bv32, length: bv32, rank: bv32, rank': bv32)
    requires 1 <= rank' <= length <= INJECTED_RANKS && 1 <= rank <= InjectedLength(isqr)
    requires length - rank' == InjectedLength(isqr) - rank
    ensures InjectedLength(LengthPut(isqr, length)) == length
    ensures InjectedAt(LengthPut(isqr, length), rank') == InjectedAt(isqr, rank)
  {
    SamePlace(InjectedLength(isqr), rank, length, rank');
    PlaceAfterLength(isqr, length, Place(length, rank'));
  }

  // ----- Where the converter finds it

  /** Five bits of a register, from bit `shift` up, */
  function Bits5(w: bv32, shift: bv32): bv32
    requires shift <= 30
  {
    (w >> shift) & 0x1F
  }

  /** and three. */
  function Bits3(w: bv32, shift: bv32): bv32
    requires shift <= 27
  {
    (w >> shift) & 7
  }

  /** Those five bits have been written, as far as the register has them, and no other bit. */
  predicate Wrote5(was: bv32, now: bv32, shift: bv32, value: bv32)
    requires shift <= 30
  {
    Bits5(now, shift) == value & (if shift == 30 then 3 else 0x1F) && now & !(0x1F << shift) == was & !(0x1F << shift)
  }

  predicate Wrote3(was: bv32, now: bv32, shift: bv32, value: bv32)
    requires shift <= 27
  {
    Bits3(now, shift) == value && now & !(7 << shift) == was & !(7 << shift)
  }

  lemma FiveIsBits(w: bv32, p: bv32)
    requires p <= 5
    ensures Five(w, p) == Bits5(w, 5 * p)
  {
  }

  lemma FiveWrites(w: bv32, p: bv32, value: bv32)
    requires p <= 6 && value <= LAST_CHANNEL
    ensures Wrote5(w, PutFive(w, p, value), 5 * p, value)
  {
  }

  lemma ThreeIsBits(w: bv32, p: bv32)
    requires p <= 9
    ensures Three(w, p) == Bits3(w, 3 * p)
  {
  }

  lemma ThreeWrites(w: bv32, p: bv32, value: bv32)
    requires p <= 9 && value <= 7
    ensures Wrote3(w, PutThree(w, p, value), 3 * p, value)
  {
  }

  /** Bits 21 and 20 of ISQR, one less than the injected length. */
  function LengthBits(isqr: bv32): (r: bv32)
    ensures r <= 3
  {
    (isqr >> 20) & 3
  }

  /** The lowest of the five bits of a rank. */
  function RankShift(lengthBits: bv32, rank: bv32): (r: bv32)
    requires lengthBits <= 3 && 1 <= rank <= INJECTED_RANKS
    ensures r <= 30
  {
    10 + 5 * rank - 5 * lengthBits
  }

  /** The last rank stands in bits 19 to 15, and every rank in the five bits just below those of the next. */
  lemma RightAligned(lengthBits: bv32, rank: bv32)
    requires lengthBits <= 3 && 1 <= rank <= INJECTED_RANKS
    ensures RankShift(lengthBits, lengthBits + 1) == 15
    ensures rank < INJECTED_RANKS ==> RankShift(lengthBits, rank) + 5 == RankShift(lengthBits, rank + 1)
  {
  }

  lemma PlaceIsShift(isqr: bv32, rank: bv32)
    requires 1 <= rank <= INJECTED_RANKS
    ensures InjectedLength(isqr) == LengthBits(isqr) + 1
    ensures 5 * Place(InjectedLength(isqr), rank) == RankShift(LengthBits(isqr), rank)
  {
  }

  /** The five bits of an injected rank have been written, and no other bit. */
  predicate InjectedWritten(was: bv32, now: bv32, rank: bv32, channel: bv32)
    requires 1 <= rank <= INJECTED_RANKS
  {
    Wrote5(was, now, RankShift(LengthBits(was), rank), channel)
  }

  /** A call does that, for all ranks, within the length or not. */
  lemma InjectedWrites(isqr: bv32, rank: bv32, channel: bv32)
    requires 1 <= rank <= INJECTED_RANKS && channel <= LAST_CHANNEL
    ensures InjectedWritten(isqr, InjectedPut(isqr, rank, channel), rank, channel)
  {
    PlaceIsShift(isqr, rank);
    FiveWrites(isqr, Place(InjectedLength(isqr), rank), channel);
  }

  lemma RankIsThere(isqr: bv32, rank: bv32)
    requires 1 <= rank <= InjectedLength(isqr)
    ensures InjectedAt(isqr, rank) == Bits5(isqr, RankShift(LengthBits(isqr), rank))
  {
    PlaceIsShift(isqr, rank);
    FiveIsBits(isqr, Place(InjectedLength(isqr), rank));
  }

  lemma SameLength(isqr: bv32, was: bv32)
    requires InjectedLength(isqr) == InjectedLength(was)
    ensures LengthBits(isqr) == LengthBits(was)
  {
  }

  lemma LengthWrites(isqr: bv32, length: bv32)
    requires 1 <= length <= INJECTED_RANKS
    ensures LengthBits(LengthPut(isqr, length)) == length - 1
    ensures LengthPut(isqr, length) & !0x0030_0000 == isqr & !0x0030_0000
  {
  }

  // ----- The regular registers

  datatype Ranks = Ranks(rsqr1: bv32, rsqr2: bv32, rsqr3: bv32) {

    function At(rank: bv32): bv32
      requires 1 <= rank <= REGULAR_RANKS
    {
      if rank < 7 then Five(rsqr3, rank - 1) else if rank < 13 then Five(rsqr2, rank - 7) else Five(rsqr1, rank - 13)
    }

    function Length(): bv32 {
      RegularLength(rsqr1)
    }

    function Set(rank: bv32, channel: bv32): Ranks
      requires 1 <= rank <= REGULAR_RANKS
    {
      if rank < 7 then this.(rsqr3 := PutFive(rsqr3, rank - 1, channel))
      else if rank < 13 then this.(rsqr2 := PutFive(rsqr2, rank - 7, channel))
      else this.(rsqr1 := PutFive(rsqr1, rank - 13, channel))
    }

    lemma AtAfterSet(rank: bv32, channel: bv32, q: bv32)
      requires 1 <= rank <= REGULAR_RANKS && 1 <= q <= REGULAR_RANKS && channel <= LAST_CHANNEL
      ensures Set(rank, channel).At(q) == if q == rank then channel else At(q)
    {
      if rank < 7 && q < 7 {
        FiveAfterPut(rsqr3, rank - 1, q - 1, channel);
      } else if 7 <= rank < 13 && 7 <= q < 13 {
        FiveAfterPut(rsqr2, rank - 7, q - 7, channel);
      } else if 13 <= rank && 13 <= q {
        FiveAfterPut(rsqr1, rank - 13, q - 13, channel);
      }
    }

    /** Ranks 1 to 6 stand in RSQR3, 7 to 12 in RSQR2 and the others in RSQR1, from the lowest bits up. */
    lemma AtIsThere(rank: bv32)
      requires 1 <= rank <= REGULAR_RANKS
      ensures rank <= 6 ==> At(rank) == Bits5(rsqr3, 5 * (rank - 1))
      ensures 7 <= rank <= 12 ==> At(rank) == Bits5(rsqr2, 5 * (rank - 7))
      ensures 13 <= rank ==> At(rank) == Bits5(rsqr1, 5 * (rank - 13))
    {
      FiveIsBits(rsqr3, if rank <= 6 then rank - 1 else 0);
      FiveIsBits(rsqr2, if 7 <= rank <= 12 then rank - 7 else 0);
      FiveIsBits(rsqr1, if 13 <= rank then rank - 13 else 0);
    }

    lemma SetWrites(rank: bv32, channel: bv32)
      requires 1 <= rank <= REGULAR_RANKS && channel <= LAST_CHANNEL
      ensures RankWritten(this, Set(rank, channel), rank, channel)
    {
      FiveWrites(rsqr3, if rank <= 6 then rank - 1 else 0, channel);
      FiveWrites(rsqr2, if 7 <= rank <= 12 then rank - 7 else 0, channel);
      FiveWrites(rsqr1, if 13 <= rank then rank - 13 else 0, channel);
    }

    lemma LengthAfterSet(rank: bv32, channel: bv32)
      requires 1 <= rank <= REGULAR_RANKS && channel <= LAST_CHANNEL
      ensures Set(rank, channel).Length() == Length() && Set(rank, channel).rsqr1 >> 20 == rsqr1 >> 20
    {
    }
  }

  /** The five bits of a rank have been written, and no other bit of the three registers. */
  predicate RankWritten(was: Ranks, now: Ranks, rank: bv32, channel: bv32)
    requires 1 <= rank <= REGULAR_RANKS
  {
    if rank <= 6 then
      Wrote5(was.rsqr3, now.rsqr3, 5 * (rank - 1), channel) && now.rsqr1 == was.rsqr1 && now.rsqr2 == was.rsqr2
    else if rank <= 12 then
      Wrote5(was.rsqr2, now.rsqr2, 5 * (rank - 7), channel) && now.rsqr1 == was.rsqr1 && now.rsqr3 == was.rsqr3
    else
      Wrote5(was.rsqr1, now.rsqr1, 5 * (rank - 13), channel) && now.rsqr2 == was.rsqr2 && now.rsqr3 == was.rsqr3
  }

  function RegularLength(rsqr1: bv32): bv32 {
    ((rsqr1 >> 20) & 0xF) + 1
  }

  // ----- The sample times

  datatype Times = Times(samptr1: bv32, samptr2: bv32) {

    function At(channel: bv32): bv32
      requires channel <= LAST_CHANNEL
    {
      if channel > 9 then Three(samptr1, channel - 10) else Three(samptr2, channel)
    }

    function Set(channel: bv32, time: bv32): Times
      requires channel <= LAST_CHANNEL
    {
      if channel > 9 then this.(samptr1 := PutThree(samptr1, channel - 10, time))
      else this.(samptr2 := PutThree(samptr2, channel, time))
    }

    /** The times of channels 0 to 9 stand in SAMPTR2, the others in SAMPTR1, from the lowest bits up. */
    lemma AtIsThere(channel: bv32)
      requires channel <= LAST_CHANNEL
      ensures channel <= 9 ==> At(channel) == Bits3(samptr2, 3 * channel)
      ensures 10 <= channel ==> At(channel) == Bits3(samptr1, 3 * (channel - 10))
    {
      ThreeIsBits(samptr2, if channel <= 9 then channel else 0);
      ThreeIsBits(samptr1, if 10 <= channel then channel - 10 else 0);
    }

    lemma SetWrites(channel: bv32, time: bv32)
      requires channel <= LAST_CHANNEL && time <= 7
      ensures TimeWritten(this, Set(channel, time), channel, time)
    {
      ThreeWrites(samptr2, if channel <= 9 then channel else 0, time);
      ThreeWrites(samptr1, if 10 <= channel then channel - 10 else 0, time);
    }

    lemma AtAfterSet(channel: bv32, time: bv32, q: bv32)
      requires channel <= LAST_CHANNEL && q <= LAST_CHANNEL && time <= 7
      ensures Set(channel, time).At(q) == if q == channel then time else At(q)
    {
      if channel > 9 && q > 9 {
        ThreeAfterPut(samptr1, channel - 10, q - 10, time);
      } else if channel <= 9 && q <= 9 {
        ThreeAfterPut(samptr2, channel, q, time);
      }
    }
  }

  /** The three bits of a channel's sample time have been written, and no other bit of the two registers. */
  predicate TimeWritten(was: Times, now: Times, channel: bv32, time: bv32)
    requires channel <= LAST_CHANNEL
  {
    if channel <= 9 then Wrote3(was.samptr2, now.samptr2, 3 * channel, time) && now.samptr1 == was.samptr1
    else Wrote3(was.samptr1, now.samptr1, 3 * (channel - 10), time) && now.samptr2 == was.samptr2
  }

  // ----- Runs

  datatype Call =
    | Regular(channel: bv32, rank: bv32, time: bv32)
    | Injected(channel: bv32, rank: bv32, time: bv32)
    | Length(length: bv32)

  /** The values the header file allows. */
  predicate Proper(c: Call) {
    match c
    case Regular(channel, rank, time) => channel <= LAST_CHANNEL && 1 <= rank <= REGULAR_RANKS && time <= 7
    case Injected(channel, rank, time) => channel <= LAST_CHANNEL && 1 <= rank <= INJECTED_RANKS && time <= 7
    case Length(length) => 1 <= length <= INJECTED_RANKS
  }

  predicate AllProper(calls: seq<Call>) {
    forall i :: 0 <= i < |calls| ==> Proper(calls[i])
  }

  datatype State = State(ranks: Ranks, isqr: bv32, times: Times)

  /** What a call does to the registers. */
  function After(s: State, c: Call): State
    requires Proper(c)
  {
    match c
    case Regular(channel, rank, time) => State(s.ranks.Set(rank, channel), s.isqr, s.times.Set(channel, time))
    case Injected(channel, rank, time) => State(s.ranks, InjectedPut(s.isqr, rank, channel), s.times.Set(channel, time))
    case Length(length) => State(s.ranks, LengthPut(s.isqr, length), s.times)
  }

  /** The plain maps, as functions of the calls made: the channel last given to a regular rank, */
  function LastRegular(calls: seq<Call>, rank: bv32, initially: bv32): bv32 {
    if calls == [] then initially
    else
      var c := calls[|calls| - 1];
      if c.Regular? && c.rank == rank then c.channel else LastRegular(calls[..|calls| - 1], rank, initially)
  }

  /** the sample time last given to a channel, by either kind of channel call, */
  function LastTime(calls: seq<Call>, channel: bv32, initially: bv32): bv32 {
    if calls == [] then initially
    else
      var c := calls[|calls| - 1];
      if !c.Length? && c.channel == channel then c.time else LastTime(calls[..|calls| - 1], channel, initially)
  }

  /** the injected length, */
  function LengthAfter(calls: seq<Call>, initially: bv32): (r: bv32)
    requires 1 <= initially <= INJECTED_RANKS && AllProper(calls)
    ensures 1 <= r <= INJECTED_RANKS
  {
    if calls == [] then initially
    else
      var c, before := calls[|calls| - 1], LengthAfter(calls[..|calls| - 1], initially);
      match c
      case Regular(_, _, _) => before
      case Injected(channel, rank, _) => LengthAfterRank(before, rank, channel)
      case Length(length) => length
  }

  /** and the channel last given to a place of the injected register, under the length of that moment. */
  function LastInPlace(calls: seq<Call>, length: bv32, place: bv32, initially: bv32): bv32
    requires 1 <= length <= INJECTED_RANKS && AllProper(calls)
  {
    if calls == [] then initially
    else
      var c, before := calls[|calls| - 1], calls[..|calls| - 1];
      if c.Injected? && Takes(LengthAfter(before, length), c.rank, place) then c.channel
      else LastInPlace(before, length, place, initially)
  }

  ghost predicate ShowsRegular(now: Ranks, was: Ranks, calls: seq<Call>) {
    && now.Length() == was.Length()
    && forall rank: bv32 :: 1 <= rank <= REGULAR_RANKS ==> now.At(rank) == LastRegular(calls, rank, was.At(rank))
  }

  ghost predicate ShowsTimes(now: Times, was: Times, calls: seq<Call>) {
    forall channel: bv32 :: channel <= LAST_CHANNEL ==> now.At(channel) == LastTime(calls, channel, was.At(channel))
  }

  ghost predicate ShowsInjected(isqr: bv32, was: bv32, calls: seq<Call>)
    requires AllProper(calls)
  {
    && InjectedLength(isqr) == LengthAfter(calls, InjectedLength(was))
    && forall place: bv32 :: place < 4 ==>
      Five(isqr, place) == LastInPlace(calls, InjectedLength(was), place, Five(was, place))
  }

  /** The registers show the maps the calls made of what they showed before, and the regular length is what it was. */
  ghost predicate Shows(now: State, was: State, calls: seq<Call>)
    requires AllProper(calls)
  {
    && ShowsRegular(now.ranks, was.ranks, calls)
    && ShowsTimes(now.times, was.times, calls)
    && ShowsInjected(now.isqr, was.isqr, calls)
  }

  lemma TimesOneMore(t: Times, was: Times, calls: seq<Call>, c: Call)
    requires ShowsTimes(t, was, calls) && !c.Length? && c.channel <= LAST_CHANNEL && c.time <= 7
    ensures ShowsTimes(t.Set(c.channel, c.time), was, calls + [c])
  {
    forall q: bv32 | q <= LAST_CHANNEL
      ensures t.Set(c.channel, c.time).At(q) == LastTime(calls + [c], q, was.At(q))
    {
      t.AtAfterSet(c.channel, c.time, q);
      assert (calls + [c])[..|calls|] == calls;
    }
  }

  lemma TimesKept(t: Times, was: Times, calls: seq<Call>, c: Call)
    requires ShowsTimes(t, was, calls) && c.Length?
    ensures ShowsTimes(t, was, calls + [c])
  {
    assert (calls + [c])[..|calls|] == calls;
  }

  lemma RegularOneMore(r: Ranks, was: Ranks, calls: seq<Call>, c: Call)
    requires ShowsRegular(r, was, calls) && c.Regular? && c.channel <= LAST_CHANNEL && 1 <= c.rank <= REGULAR_RANKS
    ensures ShowsRegular(r.Set(c.rank, c.channel), was, calls + [c])
  {
    forall q: bv32 | 1 <= q <= REGULAR_RANKS
      ensures r.Set(c.rank, c.channel).At(q) == LastRegular(calls + [c], q, was.At(q))
    {
      r.AtAfterSet(c.rank, c.channel, q);
      assert (calls + [c])[..|calls|] == calls;
    }
    r.LengthAfterSet(c.rank, c.channel);
  }

  lemma RegularKept(r: Ranks, was: Ranks, calls: seq<Call>, c: Call)
    requires ShowsRegular(r, was, calls) && !c.Regular?
    ensures ShowsRegular(r, was, calls + [c])
  {
    assert (calls + [c])[..|calls|] == calls;
  }

  lemma LastInPlaceOneMore(calls: seq<Call>, c: Call, length: bv32, place: bv32, initially: bv32)
    requires 1 <= length <= INJECTED_RANKS && AllProper(calls) && Proper(c) && c.Injected?
    ensures LastInPlace(calls + [c], length, place, initially)
      == if Takes(LengthAfter(calls, length), c.rank, place) then c.channel
         else LastInPlace(calls, length, place, initially)
  {
    assert (calls + [c])[..|calls|] == calls;
  }

  lemma PlaceOneMore(isqr: bv32, was: bv32, calls: seq<Call>, c: Call, place: bv32)
    requires AllProper(calls) && Proper(c) && ShowsInjected(isqr, was, calls) && c.Injected? && place < 4
    ensures Five(InjectedPut(isqr, c.rank, c.channel), place)
      == LastInPlace(calls + [c], InjectedLength(was), place, Five(was, place))
  {
    var length := InjectedLength(isqr);
    LastInPlaceOneMore(calls, c, InjectedLength(was), place, Five(was, place));
    PlaceAfterCall(isqr, c.rank, c.channel, place);
    assert Takes(length, c.rank, place) <==> Takes(LengthAfter(calls, InjectedLength(was)), c.rank, place);
  }

  lemma InjectedOneMore(isqr: bv32, was: bv32, calls: seq<Call>, c: Call)
    requires AllProper(calls) && Proper(c) && ShowsInjected(isqr, was, calls) && c.Injected?
    ensures ShowsInjected(InjectedPut(isqr, c.rank, c.channel), was, calls + [c])
  {
    InjectedLengthAfterPut(isqr, c.rank, c.channel);
    assert (calls + [c])[..|calls|] == calls;
    forall place: bv32 | place < 4
      ensures Five(InjectedPut(isqr, c.rank, c.channel), place)
        == LastInPlace(calls + [c], InjectedLength(was), place, Five(was, place))
    {
      PlaceOneMore(isqr, was, calls, c, place);
    }
  }

  lemma LengthOneMore(isqr: bv32, was: bv32, calls: seq<Call>, c: Call)
    requires AllProper(calls) && Proper(c) && ShowsInjected(isqr, was, calls) && c.Length?
    ensures ShowsInjected(LengthPut(isqr, c.length), was, calls + [c])
  {
    LengthAfterPut(isqr, c.length);
    assert (calls + [c])[..|calls|] == calls;
    forall place: bv32 | place < 4
      ensures Five(LengthPut(isqr, c.length), place)
        == LastInPlace(calls + [c], InjectedLength(was), place, Five(was, place))
    {
      PlaceAfterLength(isqr, c.length, place);
    }
  }

  lemma InjectedKept(isqr: bv32, was: bv32, calls: seq<Call>, c: Call)
    requires AllProper(calls) && Proper(c) && ShowsInjected(isqr, was, calls) && c.Regular?
    ensures ShowsInjected(isqr, was, calls + [c])
  {
    assert (calls + [c])[..|calls|] == calls;
  }

  lemma ShowsOneMore(s: State, was: State, calls: seq<Call>, c: Call)
    requires AllProper(calls) && Proper(c) && Shows(s, was, calls)
    ensures Shows(After(s, c), was, calls + [c])
  {
    match c
    case Regular(_, _, _) =>
      TimesOneMore(s.times, was.times, calls, c);
      RegularOneMore(s.ranks, was.ranks, calls, c);
      InjectedKept(s.isqr, was.isqr, calls, c);
    case Injected(_, _, _) =>
      TimesOneMore(s.times, was.times, calls, c);
      RegularKept(s.ranks, was.ranks, calls, c);
      InjectedOneMore(s.isqr, was.isqr, calls, c);
    case Length(_) =>
      TimesKept(s.times, was.times, calls, c);
      RegularKept(s.ranks, was.ranks, calls, c);
      LengthOneMore(s.isqr, was.isqr, calls, c);
  }

  // ----- Runs that leave the length alone

  /** The channel last given to an injected rank. */
  function LastInjected(calls: seq<Call>, rank: bv32, initially: bv32): bv32 {
    if calls == [] then initially
    else
      var c := calls[|calls| - 1];
      if c.Injected? && c.rank == rank then c.channel else LastInjected(calls[..|calls| - 1], rank, initially)
  }

  predicate WithinLength(calls: seq<Call>, length: bv32) {
    forall i :: 0 <= i < |calls| ==> !calls[i].Length? && (calls[i].Injected? ==> calls[i].rank <= length)
  }

  lemma {:induction false} LengthStays(calls: seq<Call>, length: bv32)
    requires 1 <= length <= INJECTED_RANKS && AllProper(calls) && WithinLength(calls, length)
    ensures LengthAfter(calls, length) == length
  {
    if calls != [] {
      LengthStays(calls[..|calls| - 1], length);
    }
  }

  lemma {:induction false} PlaceHoldsRank(calls: seq<Call>, length: bv32, rank: bv32, initially: bv32)
    requires 1 <= rank <= length <= INJECTED_RANKS && AllProper(calls) && WithinLength(calls, length)
    ensures LastInPlace(calls, length, Place(length, rank), initially) == LastInjected(calls, rank, initially)
  {
    if calls != [] {
      var c, before := calls[|calls| - 1], calls[..|calls| - 1];
      LengthStays(before, length);
      if c.Injected? {
        PlacesDiffer(length, c.rank, rank);
      }
      PlaceHoldsRank(before, length, rank, initially);
    }
  }

  /** After calls for ranks within the length, the length is what it was and each rank shows the channel last given
      to it. */
  lemma RanksWithinLength(isqr: bv32, was: bv32, calls: seq<Call>, rank: bv32)
    requires AllProper(calls) && ShowsInjected(isqr, was, calls) && WithinLength(calls, InjectedLength(was))
    requires 1 <= rank <= InjectedLength(was)
    ensures InjectedLength(isqr) == InjectedLength(was)
    ensures InjectedAt(isqr, rank) == LastInjected(calls, rank, InjectedAt(was, rank))
    ensures Bits5(isqr, RankShift(LengthBits(was), rank))
      == LastInjected(calls, rank, Bits5(was, RankShift(LengthBits(was), rank)))
  {
    RankIsThere(was, rank);
    LengthStays(calls, InjectedLength(was));
    RankIsThere(isqr, rank);
    SameLength(isqr, was);
    PlaceHoldsRank(calls, InjectedLength(was), rank, InjectedAt(was, rank));
  }

  class Adc {
    var rsqr1: bv32
    var rsqr2: bv32
    var rsqr3: bv32
    var isqr: bv32
    var samptr1: bv32
    var samptr2: bv32

    function Value(): State
      reads this
    {
      State(Ranks(rsqr1, rsqr2, rsqr3), isqr, Times(samptr1, samptr2))
    }

    /** The first half of both channel functions. */
    method SetSampleTime(channel: bv32, time: bv32)
      requires channel <= LAST_CHANNEL && time <= 7
      modifies `samptr1, `samptr2
      ensures Times(samptr1, samptr2) == old(Times(samptr1, samptr2)).Set(channel, time)
      ensures TimeWritten(old(Times(samptr1, samptr2)), Times(samptr1, samptr2), channel, time)
    {
      Times(samptr1, samptr2).SetWrites(channel, time);
      if channel > 9 {
        samptr1 := PutThree(samptr1, channel - 10, time);
      } else {
        samptr2 := PutThree(samptr2, channel, time);
      }
    }

    /** The second half of the regular one. */
    method SetRank(rank: bv32, channel: bv32)
      requires 1 <= rank <= REGULAR_RANKS && channel <= LAST_CHANNEL
      modifies `rsqr1, `rsqr2, `rsqr3
      ensures Ranks(rsqr1, rsqr2, rsqr3) == old(Ranks(rsqr1, rsqr2, rsqr3)).Set(rank, channel)
      ensures RankWritten(old(Ranks(rsqr1, rsqr2, rsqr3)), Ranks(rsqr1, rsqr2, rsqr3), rank, channel)
    {
      Ranks(rsqr1, rsqr2, rsqr3).SetWrites(rank, channel);
      if rank < 7 {
        rsqr3 := PutFive(rsqr3, rank - 1, channel);
      } else if rank < 13 {
        rsqr2 := PutFive(rsqr2, rank - 7, channel);
      } else {
        rsqr1 := PutFive(rsqr1, rank - 13, channel);
      }
    }

    /** ADC_RegularChannelConfig. */
    method RegularChannelConfig(channel: bv32, rank: bv32, time: bv32)
      requires channel <= LAST_CHANNEL && 1 <= rank <= REGULAR_RANKS && time <= 7
      modifies `rsqr1, `rsqr2, `rsqr3, `samptr1, `samptr2
      ensures Value() == old(State(Value().ranks.Set(rank, channel), isqr, Value().times.Set(channel, time)))
      ensures RankWritten(old(Value().ranks), Value().ranks, rank, channel)
      ensures TimeWritten(old(Value().times), Value().times, channel, time)
    {
      SetSampleTime(channel, time);
      SetRank(rank, channel);
    }

    /** ADC_InjectedChannelConfig, for every rank the header file allows. */
    method InjectedChannelConfig(channel: bv32, rank: bv32, time: bv32)
      requires channel <= LAST_CHANNEL && 1 <= rank <= INJECTED_RANKS && time <= 7
      modifies `isqr, `samptr1, `samptr2
      ensures Value() == old(State(Value().ranks, InjectedPut(isqr, rank, channel), Value().times.Set(channel, time)))
      ensures InjectedWritten(old(isqr), isqr, rank, channel)
      ensures TimeWritten(old(Value().times), Value().times, channel, time)
    {
      SetSampleTime(channel, time);
      SetInjected(rank, channel);
    }

    /** The second half of the injected one. */
    method SetInjected(rank: bv32, channel: bv32)
      requires channel <= LAST_CHANNEL && 1 <= rank <= INJECTED_RANKS
      modifies `isqr
      ensures isqr == InjectedPut(old(isqr), rank, channel) && InjectedWritten(old(isqr), isqr, rank, channel)
    {
      InjectedWrites(isqr, rank, channel);
      isqr := InjectedPut(isqr, rank, channel);
    }

    /** ADC_InjectedSequencerLengthConfig. */
    method InjectedSequencerLengthConfig(length: bv32)
      requires 1 <= length <= INJECTED_RANKS
      modifies `isqr
      ensures isqr == LengthPut(old(isqr), length)
      ensures LengthBits(isqr) == length - 1
      ensures InjectedLength(isqr) == length && BesidesLength(isqr) == BesidesLength(old(isqr))
      ensures forall place: bv32 :: place < 4 ==> Five(isqr, place) == Five(old(isqr), place)
    {
      PlacesAfterLength(isqr, length);
      isqr := LengthPut(isqr, length);
    }

    method Apply(c: Call)
      requires Proper(c)
      modifies this
      ensures Value() == After(old(Value()), c)
    {
      match c
      case Regular(channel, rank, time) => RegularChannelConfig(channel, rank, time);
      case Injected(channel, rank, time) => InjectedChannelConfig(channel, rank, time);
      case Length(length) => InjectedSequencerLengthConfig(length);
    }

    /** After any run of the three calls the registers show the maps updated call by call. */
    method Run(calls: seq<Call>)
      requires AllProper(calls)
      modifies this
      ensures Shows(Value(), old(Value()), calls)
    {
      ghost var was := Value();
      for i := 0 to |calls|
        invariant Shows(Value(), was, calls[..i])
      {
        ghost var before := Value();
        Apply(calls[i]);
        ShowsOneMore(before, was, calls[..i], calls[i]);
        assert calls[..i] + [calls[i]] == calls[..i + 1];
      }
      assert calls[..|calls|] == calls;
    }
  }
}
