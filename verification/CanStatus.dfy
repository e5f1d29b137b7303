/**
 CAN_TransmitStatus: what the status register tells about the last frame requested in a mailbox.
 */
module CanStatus {
  import opened CanFrame
  import opened CanMailboxes
  import opened CanTransmit

  // Bits of TSTATR
  const RQCP0: bv32 := 0x0000_0001
  const TXOK0: bv32 := 0x0000_0002
  const TME0: bv32 := 0x0400_0000
  const RQCP1: bv32 := 0x0000_0100
  const TXOK1: bv32 := 0x0000_0200
  const TME1: bv32 := 0x0800_0000
  const RQCP2: bv32 := 0x0001_0000
  const TXOK2: bv32 := 0x0002_0000
  const TME2: bv32 := 0x1000_0000

  const FAILED: bv32 := 0
  const OK: bv32 := 1
  const PENDING: bv32 := 2

  /** CAN_TransmitStatus: one switch picks the flags of the mailbox, a second compares them with patterns. */
  function TransmitStatus(tstatr: bv32, mailbox: bv8): bv32 {
    var state :=
      if mailbox == 0 then tstatr & (RQCP0 | TXOK0 | TME0)
      else if mailbox == 1 then tstatr & (RQCP1 | TXOK1 | TME1)
      else if mailbox == 2 then tstatr & (RQCP2 | TXOK2 | TME2)
      else FAILED;
    if state == 0 then PENDING
    else if state == RQCP0 | TME0 then FAILED
    else if state == RQCP1 | TME1 then FAILED
    else if state == RQCP2 | TME2 then FAILED
    else if state == RQCP0 | TXOK0 | TME0 then OK
    else if state == RQCP1 | TXOK1 | TME1 then OK
    else if state == RQCP2 | TXOK2 | TME2 then OK
    else FAILED
  }

  predicate BitOf(word: bv32, q: bv32)
    requires q < 32
  {
    (word >> q) & 1 == 1
  }

  /** The register shows these three flags of mailbox `i`: the first two in its own byte, the third from bit 26 on. */
  predicate Shows(tstatr: bv32, i: bv8, requestDone: bool, sent: bool, empty: bool)
    requires i < 3
  {
    var box := i as bv32;
    && BitOf(tstatr, 8 * box) == requestDone
    && BitOf(tstatr, 8 * box + 1) == sent
    && BitOf(tstatr, 26 + box) == empty
  }

  ghost predicate ShowsMailbox(can: Mailboxes<TxBox, Frame>, tstatr: bv32, i: bv8)
    requires i < 3
    reads can
  {
    Shows(tstatr, i, i as int in can.rqcp, i as int in can.txok, i as int in can.tme)
  }

  /** The answer for every register value: a mailbox's own three flags decide it, and for a number that names no
      mailbox it is "pending", never the "failed" its first switch stores, because that code is zero. */
  lemma StatusByFlags(tstatr: bv32, i: bv8, requestDone: bool, sent: bool, empty: bool)
    ensures 3 <= i ==> TransmitStatus(tstatr, i) == 2
    ensures i < 3 && Shows(tstatr, i, requestDone, sent, empty) ==>
      && (TransmitStatus(tstatr, i) == 1 <==> requestDone && sent && empty)
      && (TransmitStatus(tstatr, i) == 2 <==> !requestDone && !sent && !empty)
      && (TransmitStatus(tstatr, i) == 0 <==> (requestDone || sent || empty) && !(requestDone && sent && empty))
  {
  }

  /** In every state a run can reach: "pending" exactly while the last frame requested in the mailbox is not completed,
      "ok" exactly once it was sent, and "failed" when it was completed without being sent, or none was ever
      requested. */
  lemma StatusOfLastFrame(can: Mailboxes<TxBox, Frame>, tstatr: bv32, i: bv8)
    requires can.Inv() && i < 3 && ShowsMailbox(can, tstatr, i)
    ensures var n := can.last[i as int];
      && (TransmitStatus(tstatr, i) == PENDING <==> n != EMPTY && n !in can.completed)
      && (TransmitStatus(tstatr, i) == OK <==> n != EMPTY && n in can.succeeded)
      && (TransmitStatus(tstatr, i) == FAILED <==> n == EMPTY || (n in can.completed && n !in can.succeeded))
  {
  }

  /** From then on CAN_TransmitStatus for the mailbox that CAN_Transmit returned tells about the frame it took, until
      the next frame is requested there. */
  method TransmitAndWatch(can: Mailboxes<TxBox, Frame>, msg: TxMsg) returns (m: int)
    requires can.Inv() && can.port == CAN_PORT && RequestsNothing(msg.Value()) && |msg.data| == 8
    modifies can, msg`dlc
    ensures can.Inv()
    ensures Taken(old(can.accepted), old(can.last), can.accepted, can.last, m,
                  Frame(PackedHeader(old(msg.Value())), Data(msg.data)))
    ensures forall tstatr, i: bv8 :: i < 3 && i as int == m && ShowsMailbox(can, tstatr, i) ==>
      var n := |old(can.accepted)|;
      && (TransmitStatus(tstatr, i) == PENDING <==> n !in can.completed)
      && (TransmitStatus(tstatr, i) == OK <==> n in can.succeeded)
      && (TransmitStatus(tstatr, i) == FAILED <==> n in can.completed && n !in can.succeeded)
  {
    m := Transmit(can, msg);
    can.Hardware();
    forall tstatr, i: bv8 | i < 3 && i as int == m && ShowsMailbox(can, tstatr, i) {
      StatusOfLastFrame(can, tstatr, i);
    }
  }
}
