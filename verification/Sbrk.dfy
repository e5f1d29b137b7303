/**
 _sbrk: the break of the heap, moved by signed 32-bit increments of a 32-bit pointer.
 */
module Sbrk {

  const FULL := 0x1_0000_0000
  const HALF := 0x8000_0000
  const FAILED := 0xFFFF_FFFF

  /** A pointer sum, as 32 bits hold it. */
  function Sum(p: nat, incr: int): nat {
    (p + incr) % FULL
  }

  predicate Fits(lo: nat, hi: nat, next: nat) {
    lo <= next <= hi
  }

  /** A block of the heap: its first address and its size. */
  datatype Block = Block(start: int, size: int) {
    predicate Holds(a: int) {
      start <= a < start + size
    }
  }

  /** The blocks follow each other without a gap. */
  predicate Adjacent(blocks: seq<Block>, from: int, to: int) {
    if blocks == [] then from == to
    else
      var last := blocks[|blocks| - 1];
      last.start + last.size == to && Adjacent(blocks[..|blocks| - 1], from, last.start)
  }

  predicate Grows(blocks: seq<Block>) {
    forall k :: 0 <= k < |blocks| ==> blocks[k].size >= 0
  }

  function Total(blocks: seq<Block>): int {
    if blocks == [] then 0 else Total(blocks[..|blocks| - 1]) + blocks[|blocks| - 1].size
  }

  lemma {:induction false} TotalOfAdjacent(blocks: seq<Block>, from: int, to: int)
    requires Adjacent(blocks, from, to)
    ensures to == from + Total(blocks)
  {
    if blocks != [] {
      TotalOfAdjacent(blocks[..|blocks| - 1], from, blocks[|blocks| - 1].start);
    }
  }

  ghost predicate Only(blocks: seq<Block>, a: int, k: int) {
    forall j :: 0 <= j < |blocks| && blocks[j].Holds(a) ==> j == k
  }

  ghost predicate InOne(blocks: seq<Block>, a: int) {
    exists k :: 0 <= k < |blocks| && blocks[k].Holds(a) && Only(blocks, a, k)
  }

  lemma {:induction false} BlocksWithin(blocks: seq<Block>, from: int, to: int)
    requires Adjacent(blocks, from, to) && Grows(blocks)
    ensures from <= to
    ensures forall k :: 0 <= k < |blocks| ==> from <= blocks[k].start && blocks[k].start + blocks[k].size <= to
  {
    if blocks != [] {
      var init := blocks[..|blocks| - 1];
      BlocksWithin(init, from, blocks[|blocks| - 1].start);
      forall k | 0 <= k < |init|
        ensures from <= blocks[k].start && blocks[k].start + blocks[k].size <= to
      {
        assert init[k] == blocks[k];
      }
    }
  }

  /** While the heap only grows, the blocks tile it: every address of the heap lies in exactly one of them, and no other
      address in any. */
  lemma {:induction false} Tiles(blocks: seq<Block>, from: int, to: int, a: int)
    requires Adjacent(blocks, from, to) && Grows(blocks)
    ensures from <= a < to <==> InOne(blocks, a)
    ensures !(from <= a < to) ==> forall k :: 0 <= k < |blocks| ==> !blocks[k].Holds(a)
  {
    BlocksWithin(blocks, from, to);
    if blocks != [] {
      var n := |blocks| - 1;
      var init := blocks[..n];
      BlocksWithin(init, from, blocks[n].start);
      Tiles(init, from, blocks[n].start, a);
      if blocks[n].Holds(a) {
        assert forall k :: 0 <= k < n ==> init[k] == blocks[k];
      } else if from <= a < to {
        var k :| 0 <= k < n && init[k].Holds(a) && Only(init, a, k);
        assert blocks[k].Holds(a);
        assert forall j :: 0 <= j < n ==> init[j] == blocks[j];
      }
    }
  }

  /** Pointers wrap, but no request is accepted for where it wrapped to, just when the heap is smaller than half the
      address space. */
  lemma NoWrapExactly(lo: nat, hi: nat)
    requires lo <= hi < 0x1_0000_0000
    ensures hi - lo < 0x8000_0000 <==>
      forall p: nat, incr: int | lo <= p <= hi && -0x8000_0000 <= incr < 0x8000_0000 ::
        Fits(lo, hi, Sum(p, incr)) ==> lo <= p + incr <= hi
  {
    if hi - lo >= HALF {
      assert Sum(lo, -HALF) == if lo >= HALF then lo - HALF else lo + HALF;
    }
  }

  lemma SumInside(lo: nat, hi: nat, p: nat, incr: int)
    requires lo <= p <= hi < FULL && hi - lo < HALF && -HALF <= incr < HALF
    ensures Fits(lo, hi, Sum(p, incr)) <==> lo <= p + incr <= hi
    ensures Fits(lo, hi, Sum(p, incr)) ==> Sum(p, incr) == p + incr && Sum(Sum(p, incr), -incr) == p
  {
  }

  lemma AdjacentOneMore(blocks: seq<Block>, from: int, to: int, b: Block)
    requires Adjacent(blocks, from, to) && b.start == to
    ensures Adjacent(blocks + [b], from, to + b.size)
  {
  }

  // ----- What a run of increments comes to

  /** The break after these increments, each accepted if it leads to a place in the heap. */
  function BreakAfter(lo: int, hi: int, brk: int, increments: seq<int>): int {
    if increments == [] then brk
    else
      var n := |increments| - 1;
      var before := BreakAfter(lo, hi, brk, increments[..n]);
      if lo <= before + increments[n] <= hi then before + increments[n] else before
  }

  /** The blocks the accepted increments get. */
  function Granted(lo: int, hi: int, brk: int, increments: seq<int>): seq<Block> {
    if increments == [] then []
    else
      var n := |increments| - 1;
      var before := BreakAfter(lo, hi, brk, increments[..n]);
      Granted(lo, hi, brk, increments[..n])
      + if lo <= before + increments[n] <= hi then [Block(before, increments[n])] else []
  }

  /** And what the calls return. */
  function Answers(lo: int, hi: int, brk: int, increments: seq<int>): seq<int> {
    if increments == [] then []
    else
      var n := |increments| - 1;
      var before := BreakAfter(lo, hi, brk, increments[..n]);
      Answers(lo, hi, brk, increments[..n]) + [if lo <= before + increments[n] <= hi then before else FAILED]
  }

  lemma {:induction false} BreakIsTotal(lo: int, hi: int, brk: int, increments: seq<int>)
    ensures BreakAfter(lo, hi, brk, increments) == brk + Total(Granted(lo, hi, brk, increments))
  {
    if increments != [] {
      var n := |increments| - 1;
      BreakIsTotal(lo, hi, brk, increments[..n]);
      var before := Granted(lo, hi, brk, increments[..n]);
      assert Granted(lo, hi, brk, increments) == before
          || Granted(lo, hi, brk, increments)[..|Granted(lo, hi, brk, increments)| - 1] == before;
    }
  }

  lemma OneMore(lo: int, hi: int, brk: int, increments: seq<int>, i: int, were: seq<Block>)
    requires 0 <= i < |increments|
    ensures var before, incr := BreakAfter(lo, hi, brk, increments[..i]), increments[i];
      var fits := lo <= before + incr <= hi;
      && BreakAfter(lo, hi, brk, increments[..i + 1]) == (if fits then before + incr else before)
      && Answers(lo, hi, brk, increments[..i + 1])
        == Answers(lo, hi, brk, increments[..i]) + [if fits then before else FAILED]
      && were + Granted(lo, hi, brk, increments[..i + 1])
        == (were + Granted(lo, hi, brk, increments[..i])) + if fits then [Block(before, incr)] else []
  {
    assert increments[..i + 1][..i] == increments[..i];
  }

  class Heap {
    const lo: nat  // _end
    const hi: nat  // _heap_end
    var curbrk: nat

    ghost var blocks: seq<Block>  // what the accepted calls returned, with their increments

    ghost predicate Valid()
      reads this
    {
      && hi < FULL && hi - lo < HALF
      && lo <= curbrk <= hi
      && Adjacent(blocks, lo, curbrk)
    }

    constructor (lo: nat, hi: nat)
      requires lo <= hi < FULL && hi - lo < HALF
      ensures Valid() && this.lo == lo && this.hi == hi && curbrk == lo && blocks == []
    {
      this.lo, this.hi, curbrk, blocks := lo, hi, lo, [];
    }

    /** _sbrk. */
    method Sbrk(incr: int) returns (p: nat)
      requires Valid() && -HALF <= incr < HALF
      modifies this
      ensures Valid()
      ensures if lo <= old(curbrk) + incr <= hi
              then curbrk == old(curbrk) + incr && p == old(curbrk) && blocks == old(blocks) + [Block(p, incr)]
              else curbrk == old(curbrk) && p == 0xFFFF_FFFF && blocks == old(blocks)
    {
      SumInside(lo, hi, curbrk, incr);
      AdjacentOneMore(blocks, lo, curbrk, Block(curbrk, incr));
      var next := Sum(curbrk, incr);
      if next < lo || next > hi {
        return FAILED;
      }
      curbrk := next;
      p := Sum(curbrk, -incr);
      blocks := blocks + [Block(p, incr)];
    }

    /** Any run of calls gets the answers of its increments one after another: the break moves by the accepted ones,
        each of which gets the break before it, and if none handed out so far was negative the blocks tile the heap up
        to the break. */
    method Run(increments: seq<int>) returns (answers: seq<nat>)
      requires Valid() && forall i :: 0 <= i < |increments| ==> -HALF <= increments[i] < HALF
      modifies this
      ensures Valid() && answers == Answers(lo, hi, old(curbrk), increments)
      ensures blocks == old(blocks) + Granted(lo, hi, old(curbrk), increments)
      ensures curbrk == old(curbrk) + Total(Granted(lo, hi, old(curbrk), increments)) == lo + Total(blocks)
      ensures Grows(blocks) ==> forall a :: (lo <= a < curbrk <==> InOne(blocks, a))
    {
      answers := [];
      ghost var brk, were := curbrk, blocks;
      for i := 0 to |increments|
        invariant Valid() && answers == Answers(lo, hi, brk, increments[..i])
        invariant blocks == were + Granted(lo, hi, brk, increments[..i])
        invariant curbrk == BreakAfter(lo, hi, brk, increments[..i])
      {
        OneMore(lo, hi, brk, increments, i, were);
        var p := Sbrk(increments[i]);
        answers := answers + [p];
      }
      assert increments[..|increments|] == increments;
      BreakIsTotal(lo, hi, brk, increments);
      TotalOfAdjacent(blocks, lo, curbrk);
      if Grows(blocks) {
        forall a
          ensures lo <= a < curbrk <==> InOne(blocks, a)
        {
          Tiles(blocks, lo, curbrk, a);
        }
      }
    }
  }
}
