/**
 RTC_GetCounter: a 32-bit counter read as two 16-bit halves while it goes on counting.
 */
module RtcCounter {

  const HALF := 0x1_0000
  const FULL := 0x1_0000_0000

  /** What CNTH and CNTL show after `t` ticks. */
  function High(t: nat): (r: nat)
    ensures r < HALF
  {
    (t / HALF) % HALF
  }

  function Low(t: nat): (r: nat)
    ensures r < HALF
  {
    t % HALF
  }

  /** The value the driver puts together when it reads CNTH, CNTL and CNTH at ticks c0, c1 and c2, and, if it finds
      that the high half has changed, CNTL once more at c3. */
  function Assembled(c0: nat, c1: nat, c2: nat, c3: nat): nat {
    if High(c0) != High(c2) then High(c2) * HALF + Low(c3) else High(c0) * HALF + Low(c1)
  }

  /** The tick of the last register access. */
  function LastRead(c0: nat, c2: nat, c3: nat): nat {
    if High(c0) != High(c2) then c3 else c2
  }

  ghost predicate HeldDuring(value: nat, from: nat, to: nat) {
    exists t: nat :: from <= t <= to && t % 0x1_0000_0000 == value
  }

  /** Between the two reads of CNTH the counter went round exactly once, back to the same high half, and CNTL was read
      between the two low halves. */
  predicate WentRound(c0: nat, c1: nat, c2: nat) {
    c2 / HALF == c0 / HALF + HALF && Low(c2) < Low(c1) < Low(c0)
  }

  lemma Split(t: nat)
    ensures t % FULL == High(t) * HALF + Low(t)
  {
  }

  /** The ticks at which the counter shows `block` above and `low` below. */
  lemma SameBlock(t: nat, block: nat, low: nat)
    requires t == block * HALF + low && low < HALF
    ensures t / HALF == block && Low(t) == low && t % FULL == (block % HALF) * HALF + low
  {
  }

  lemma Unchanged(c0: nat, c1: nat, c2: nat)
    requires c0 <= c1 <= c2 && c0 / HALF == c2 / HALF
    ensures HeldDuring(High(c0) * HALF + Low(c1), c0, c2)
  {
    SameBlock(c1, c0 / HALF, Low(c1));
  }

  /** A changed high half never goes wrong: the second low half belongs to a tick after the first read. */
  lemma Changed(c0: nat, c2: nat, c3: nat)
    requires c0 <= c2 <= c3 && High(c0) != High(c2)
    ensures HeldDuring(High(c2) * HALF + Low(c3), c0, c3) && c2 / HALF != c0 / HALF + HALF
  {
    var t := c2 / HALF * HALF + Low(c3);
    SameBlock(t, c2 / HALF, Low(c3));
    assert c0 / HALF < c2 / HALF <= c3 / HALF;
    assert c0 <= t <= c3;
  }

  /** Equal high halves of different blocks are a multiple of the full period apart. */
  lemma WholeTurns(a: nat, b: nat) returns (k: nat)
    requires a < b && a % HALF == b % HALF
    ensures k >= 1 && b == a + k * HALF
  {
    k := b / HALF - a / HALF;
  }

  lemma Caught(c0: nat, c1: nat, c2: nat)
    requires c0 <= c1 <= c2 && High(c0) == High(c2) && c0 / HALF < c2 / HALF && !WentRound(c0, c1, c2)
    ensures HeldDuring(High(c0) * HALF + Low(c1), c0, c2)
  {
    var k := WholeTurns(c0 / HALF, c2 / HALF);
    var block := if Low(c0) <= Low(c1) then c0 / HALF else c0 / HALF + HALF;
    var t := block * HALF + Low(c1);
    SameBlock(t, block, Low(c1));
    assert block % HALF == High(c0);
    assert c0 <= t <= c2;
  }

  lemma Missed(c0: nat, c1: nat, c2: nat)
    requires High(c0) == High(c2) && WentRound(c0, c1, c2)
    ensures !HeldDuring(High(c0) * HALF + Low(c1), c0, c2)
  {
  }

  /** For every interleaving: the value returned is one the counter held between the first and the last register
      access, except when it went round just so. */
  lemma HeldExactly(c0: nat, c1: nat, c2: nat, c3: nat)
    requires c0 <= c1 <= c2 <= c3
    ensures HeldDuring(Assembled(c0, c1, c2, c3), c0, LastRead(c0, c2, c3)) <==> !WentRound(c0, c1, c2)
  {
    if High(c0) != High(c2) {
      Changed(c0, c2, c3);
    } else if c2 / HALF == c0 / HALF {
      Unchanged(c0, c1, c2);
    } else if WentRound(c0, c1, c2) {
      Missed(c0, c1, c2);
    } else {
      Caught(c0, c1, c2);
    }
  }

  /** So it is enough that the counter advances by no more than 2^32 - 2^16 ticks. */
  lemma Linearizable(c0: nat, c1: nat, c2: nat, c3: nat)
    requires c0 <= c1 <= c2 <= c3 && LastRead(c0, c2, c3) - c0 <= 0xFFFF_0000
    ensures HeldDuring(Assembled(c0, c1, c2, c3), c0, LastRead(c0, c2, c3))
  {
    HeldExactly(c0, c1, c2, c3);
  }

  /** And one tick more is too many. */
  lemma TightBound()
    ensures exists c0: nat, c1: nat, c2: nat, c3: nat ::
      && c0 <= c1 <= c2 <= c3 && LastRead(c0, c2, c3) - c0 == 0xFFFF_0001
      && !HeldDuring(Assembled(c0, c1, c2, c3), c0, LastRead(c0, c2, c3))
  {
    var c0, c1, c2: nat := HALF - 1, HALF + 1, FULL;
    assert WentRound(c0, c1, c2);
    HeldExactly(c0, c1, c2, c2);
    assert LastRead(c0, c2, c2) - c0 == FULL - HALF + 1;
  }

  class Rtc {
    var ticks: nat  // since the counter was zero

    /** Time passes. */
    method Tick()
      modifies this
      ensures old(ticks) <= ticks
    {
      var n: int := *;
      if n > 0 {
        ticks := ticks + n;
      }
    }

    method ReadHigh() returns (r: nat)
      modifies this
      ensures old(ticks) <= ticks && r == High(ticks)
    {
      Tick();
      r := High(ticks);
    }

    method ReadLow() returns (r: nat)
      modifies this
      ensures old(ticks) <= ticks && r == Low(ticks)
    {
      Tick();
      r := Low(ticks);
    }

    /** RTC_GetCounter, with the ticks at which it accessed the registers. */
    method GetCounter() returns (value: nat, ghost c0: nat, ghost c1: nat, ghost c2: nat, ghost c3: nat)
      modifies this
      ensures old(ticks) <= c0 <= c1 <= c2 <= c3 == ticks && value == Assembled(c0, c1, c2, c3)
      ensures ticks - old(ticks) <= 0xFFFF_0000 ==> HeldDuring(value, old(ticks), ticks)
    {
      var high1 := ReadHigh();
      c0 := ticks;
      var low := ReadLow();
      c1 := ticks;
      var high2 := ReadHigh();
      c2 := ticks;
      if high1 != high2 {
        var again := ReadLow();
        value := high2 * HALF + again;
      } else {
        value := high1 * HALF + low;
      }
      c3 := ticks;
      HeldExactly(c0, c1, c2, c3);
    }
  }
}
