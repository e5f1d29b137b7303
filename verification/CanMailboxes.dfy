/**
 Three transmit mailboxes shared between a driver and a controller. The driver makes one register access at a time;
 between any two of them the controller may complete any of the mailboxes that hold a request. What a mailbox's
 registers are and how a frame is laid out in them is left to a `Port`.
 */
module CanMailboxes {

  /** How to read a mailbox: is its request bit set, what is it with that bit dropped, does it carry a frame. */
  datatype Port<!B(!new), !F> = Port(requested: B -> bool, drop: B -> B, carries: (B, F) -> bool) {
    ghost predicate Valid() {
      forall b :: !requested(drop(b))
    }
  }

  const EMPTY := -1

  const NO_MAILBOX := 4

  /** Some value of TSTATR since a moment showed the mailbox occupied. */
  ghost predicate WasOccupied(moments: seq<set<int>>, since: int, i: int) {
    exists k :: 0 <= since <= k < |moments| && i !in moments[k]
  }

  /** Some value of TSTATR since a moment showed the mailbox empty. */
  ghost predicate WasEmpty(moments: seq<set<int>>, since: int, i: int) {
    exists k :: 0 <= since <= k < |moments| && i in moments[k]
  }

  /** What a search says that chose mailbox `m`: it was empty at some moment since, and each before it was occupied at
      some moment. */
  ghost predicate Found(moments: seq<set<int>>, since: int, m: int) {
    && (m == 4 || (0 <= m < 3 && WasEmpty(moments, since, m)))
    && (0 < m ==> WasOccupied(moments, since, 0))
    && (1 < m ==> WasOccupied(moments, since, 1))
    && (2 < m ==> WasOccupied(moments, since, 2))
  }

  lemma FoundLater(before: seq<set<int>>, after: seq<set<int>>, since: int, m: int)
    requires before <= after && Found(before, since, m)
    ensures Found(after, since, m)
  {
  }

  /** A mailbox is empty and requests nothing, or carries in every register the accepted frame it is for. */
  ghost predicate SlotOk<B(!new), F>(port: Port<B, F>, empty: bool, b: B, n: int, accepted: seq<F>,
      completed: set<int>) {
    if n == EMPTY then empty && !port.requested(b)
    else !empty && port.requested(b) && 0 <= n < |accepted| && n !in completed && port.carries(b, accepted[n])
  }

  /** The three flags of a mailbox tell how far the last frame requested in it has got. */
  ghost predicate FlagsOk(empty: bool, requestDone: bool, sent: bool, n: int, last: int, completed: set<int>,
      succeeded: set<int>) {
    if n != EMPTY then last == n && !empty && !requestDone && !sent
    else if last == EMPTY then empty && !requestDone && !sent
    else empty && requestDone && last in completed && (sent <==> last in succeeded)
  }

  /** Every mailbox is empty or intact, and no frame is lost or duplicated: each accepted frame is either completed
      or in exactly one mailbox. */
  ghost predicate Coherent<B(!new), F>(port: Port<B, F>, tme: set<int>, boxes: seq<B>, slot: seq<int>, accepted: seq<F>,
      completed: set<int>)
    requires |boxes| == |slot| == 3
  {
    && (forall i :: 0 <= i < 3 ==> SlotOk(port, i in tme, boxes[i], slot[i], accepted, completed))
    && (forall i, j :: 0 <= i < j < 3 && slot[i] == slot[j] ==> slot[i] == EMPTY)
    && (forall n :: n in completed ==> 0 <= n < |accepted|)
    && (forall n :: 0 <= n < |accepted| ==> n in completed || n == slot[0] || n == slot[1] || n == slot[2])
  }

  function Numbers(n: nat): (r: set<int>)
    ensures |r| == n && forall k :: k in r <==> 0 <= k < n
  {
    if n == 0 then {} else Numbers(n - 1) + {n - 1}
  }

  /** The number of the frame in mailbox `i`, if it holds one. */
  function Held(slot: seq<int>, i: int): set<int>
    requires 0 <= i < |slot|
  {
    if slot[i] == EMPTY then {} else {slot[i]}
  }

  function Occupied(slot: seq<int>): set<int>
    requires |slot| == 3
  {
    Held(slot, 0) + Held(slot, 1) + Held(slot, 2)
  }

  function Full(tme: set<int>, i: int): nat {
    if i in tme then 0 else 1
  }

  lemma CountOccupied(slot: seq<int>)
    requires |slot| == 3 && forall i, j :: 0 <= i < j < 3 && slot[i] == slot[j] ==> slot[i] == EMPTY
    ensures |Occupied(slot)| == |Held(slot, 0)| + |Held(slot, 1)| + |Held(slot, 2)|
  {
  }

  lemma Partition(slot: seq<int>, completed: set<int>, count: nat)
    requires |slot| == 3
    requires forall i :: 0 <= i < 3 && slot[i] != EMPTY ==> 0 <= slot[i] < count && slot[i] !in completed
    requires forall n :: n in completed ==> 0 <= n < count
    requires forall n :: 0 <= n < count ==> n in completed || n == slot[0] || n == slot[1] || n == slot[2]
    ensures Numbers(count) == completed + Occupied(slot) && completed !! Occupied(slot)
  {
    forall n
      ensures n in Numbers(count) <==> n in completed + Occupied(slot)
    {
    }
  }

  /** The accepted frames are the completed ones and those in a mailbox, none is both, and as many are in mailboxes as
      the controller marks occupied. */
  lemma Conservation<B(!new), F>(port: Port<B, F>, tme: set<int>, boxes: seq<B>, slot: seq<int>,
      accepted: seq<F>, completed: set<int>)
    requires |boxes| == |slot| == 3 && Coherent(port, tme, boxes, slot, accepted, completed)
    ensures Numbers(|accepted|) == completed + Occupied(slot) && completed !! Occupied(slot)
    ensures |accepted| == |completed| + Full(tme, 0) + Full(tme, 1) + Full(tme, 2)
  {
    forall i | 0 <= i < 3
      ensures slot[i] != EMPTY ==> 0 <= slot[i] < |accepted| && slot[i] !in completed
      ensures |Held(slot, i)| == Full(tme, i)
    {
      assert SlotOk(port, i in tme, boxes[i], slot[i], accepted, completed);
    }
    Partition(slot, completed, |accepted|);
    CountOccupied(slot);
  }

  ghost predicate Flagged(tme: set<int>, rqcp: set<int>, txok: set<int>, slot: seq<int>, last: seq<int>,
      completed: set<int>, succeeded: set<int>, count: int)
    requires |slot| == |last| == 3
  {
    && (forall i :: 0 <= i < 3 ==> FlagsOk(i in tme, i in rqcp, i in txok, slot[i], last[i], completed, succeeded))
    && (forall i, j :: 0 <= i < j < 3 && last[i] == last[j] ==> last[i] == EMPTY)
    && (forall i :: 0 <= i < 3 ==> last[i] < count)
    && succeeded <= completed
  }

  lemma SlotsOnCompletion<B(!new), F>(port: Port<B, F>, tme: set<int>, boxes: seq<B>, slot: seq<int>, accepted: seq<F>,
      completed: set<int>, i: int)
    requires |boxes| == |slot| == 3 && 0 <= i < 3 && i !in tme
    requires port.Valid() && Coherent(port, tme, boxes, slot, accepted, completed)
    ensures slot[i] != EMPTY && slot[i] !in completed
    ensures Coherent(port, tme + {i}, boxes[i := port.drop(boxes[i])], slot[i := EMPTY], accepted,
        completed + {slot[i]})
  {
  }

  lemma FlagsOnCompletion(tme: set<int>, rqcp: set<int>, txok: set<int>, slot: seq<int>, last: seq<int>,
      completed: set<int>, succeeded: set<int>, count: int, i: int, ok: bool)
    requires |slot| == |last| == 3 && 0 <= i < 3 && slot[i] != EMPTY
    requires Flagged(tme, rqcp, txok, slot, last, completed, succeeded, count)
    requires slot[i] !in completed
    ensures Flagged(tme + {i}, rqcp + {i}, if ok then txok + {i} else txok, slot[i := EMPTY], last,
                    completed + {slot[i]}, if ok then succeeded + {slot[i]} else succeeded, count)
  {
  }

  class Mailboxes<B(0,!new), F> {
    const port: Port<B, F>

    var tme: set<int>                // TSTATR: the mailboxes marked empty,
    var rqcp: set<int>               // whose request is completed,
    var txok: set<int>               // and whose transmission succeeded
    var boxes: seq<B>
    var fdMode: bool                 // bit 0 of CANFD_CR

    ghost var accepted: seq<F>       // every frame a transmit call took, in order
    ghost var completed: set<int>    // the accepted frames the controller is done with, by number
    ghost var succeeded: set<int>    // those of them it put on the bus
    ghost var slot: seq<int>         // the number of the accepted frame in each mailbox, or EMPTY
    ghost var last: seq<int>         // the number of the last frame each mailbox was requested to send, or EMPTY
    ghost var moments: seq<set<int>> // all values `tme` has had

    ghost predicate Inv()
      reads this
    {
      && port.Valid()
      && moments != [] && moments[|moments| - 1] == tme
      && |boxes| == |slot| == |last| == 3
      && Coherent(port, tme, boxes, slot, accepted, completed)
      && Flagged(tme, rqcp, txok, slot, last, completed, succeeded, |accepted|)
    }

    /** After reset: nothing requested, nothing sent, whatever else the registers hold. */
    constructor (port: Port<B, F>, b0: B, b1: B, b2: B)
      requires port.Valid() && !port.requested(b0) && !port.requested(b1) && !port.requested(b2)
      ensures boxes == [b0, b1, b2]
      ensures Inv() && this.port == port && accepted == []
    {
      this.port := port;
      tme, rqcp, txok, boxes, fdMode := {0, 1, 2}, {}, {}, [b0, b1, b2], false;
      accepted, completed, succeeded, slot, last := [], {}, {}, [EMPTY, EMPTY, EMPTY], [EMPTY, EMPTY, EMPTY];
      moments := [{0, 1, 2}];
    }

    /** The controller completes the request in a mailbox, successfully or not. */
    method Complete(i: int)
      requires Inv() && 0 <= i < 3 && i !in tme
      modifies `tme, `rqcp, `txok, `boxes, `slot, `completed, `succeeded, `moments
      ensures Inv() && slot == old(slot)[i := EMPTY] && tme == old(tme) + {i} && moments == old(moments) + [tme]
      ensures completed == old(completed) + {old(slot)[i]}
      ensures forall j :: 0 <= j < 3 && j != i ==> boxes[j] == old(boxes)[j]
    {
      var ok: bool := *;
      SlotsOnCompletion(port, tme, boxes, slot, accepted, completed, i);
      FlagsOnCompletion(tme, rqcp, txok, slot, last, completed, succeeded, |accepted|, i, ok);
      tme, rqcp, txok := tme + {i}, rqcp + {i}, if ok then txok + {i} else txok;
      boxes := boxes[i := port.drop(boxes[i])];
      completed, succeeded := completed + {slot[i]}, if ok then succeeded + {slot[i]} else succeeded;
      slot := slot[i := EMPTY];
      moments := moments + [tme];
    }

    /** Any mailboxes that hold a request may complete, in any order. */
    method Hardware()
      requires Inv()
      modifies `tme, `rqcp, `txok, `boxes, `slot, `completed, `succeeded, `moments
      ensures Inv() && old(completed) <= completed && old(moments) <= moments && old(tme) <= tme
      ensures forall i :: 0 <= i < 3 && i in old(tme) ==> boxes[i] == old(boxes)[i]
    {
      var steps: nat := *;
      while steps > 0
        invariant Inv() && old(completed) <= completed && old(moments) <= moments && old(tme) <= tme
        invariant forall i :: 0 <= i < 3 && i in old(tme) ==> boxes[i] == old(boxes)[i]
      {
        var i: int := *;
        if 0 <= i < 3 && i !in tme {
          Complete(i);
        }
        steps := steps - 1;
      }
    }

    /** Read whether a mailbox is marked empty, at a moment of the controller's choosing. */
    method ReadEmpty(i: int) returns (empty: bool)
      requires Inv() && 0 <= i < 3
      modifies `tme, `rqcp, `txok, `boxes, `slot, `completed, `succeeded, `moments
      ensures Inv() && old(completed) <= completed && old(moments) <= moments && old(tme) <= tme
      ensures empty == (i in tme) && (!empty ==> WasOccupied(moments, |old(moments)| - 1, i))
    {
      Hardware();
      empty := i in tme;
      assert moments[|moments| - 1] == tme;
    }

    /** The first mailbox found empty, each looked at only once; NO_MAILBOX if none was. One that was empty from the
        start is not passed over. */
    method Select() returns (m: int)
      requires Inv()
      modifies `tme, `rqcp, `txok, `boxes, `slot, `completed, `succeeded, `moments
      ensures Inv() && old(completed) <= completed && old(moments) <= moments
      ensures Found(moments, |old(moments)| - 1, m) && (m != NO_MAILBOX ==> m in tme)
      ensures forall i :: 0 <= i < 3 && i in old(tme) ==> m <= i
    {
      var empty := ReadEmpty(0);
      if empty {
        return 0;
      }
      empty := ReadEmpty(1);
      if empty {
        return 1;
      }
      empty := ReadEmpty(2);
      if empty {
        return 2;
      }
      return NO_MAILBOX;
    }

    /** A register of a mailbox is written. Only a mailbox marked empty may be, and not so as to request anything. */
    method Write(m: int, b: B)
      requires Inv() && 0 <= m < 3 && m in tme && !port.requested(b)
      modifies `tme, `rqcp, `txok, `boxes, `slot, `completed, `succeeded, `moments
      ensures Inv() && old(completed) <= completed && old(moments) <= moments
      ensures m in tme && boxes[m] == b
    {
      boxes := boxes[m := b];
      Hardware();
    }

    /** The write that requests transmission: from now on the mailbox is occupied, by frame `f`. */
    method Request(m: int, b: B, ghost f: F)
      requires Inv() && 0 <= m < 3 && m in tme && port.requested(b) && port.carries(b, f)
      modifies `tme, `rqcp, `txok, `boxes, `slot, `last, `accepted, `completed, `succeeded, `moments
      ensures Inv() && old(completed) <= completed && old(moments) <= moments
      ensures accepted == old(accepted) + [f] && last == old(last)[m := |old(accepted)|]
    {
      Occupy(m, b, f);
      Hardware();
    }

    method Occupy(m: int, b: B, ghost f: F)
      requires Inv() && 0 <= m < 3 && m in tme && port.requested(b) && port.carries(b, f)
      modifies `tme, `rqcp, `txok, `boxes, `slot, `last, `accepted, `moments
      ensures Inv() && moments == old(moments) + [tme] && accepted == old(accepted) + [f]
      ensures last == old(last)[m := |old(accepted)|]
    {
      assert slot[m] == EMPTY;
      tme, rqcp, txok := tme - {m}, rqcp - {m}, txok - {m};
      boxes := boxes[m := b];
      slot, last := slot[m := |accepted|], last[m := |accepted|];
      accepted := accepted + [f];
      moments := moments + [tme];
    }
  }
}
