/**
 CAN_Receive and CANFD_Receive: a message out of the receive FIFO's mailbox.
 */
module CanReceive {
  import opened CanFrame

  const RFOM0: bv32 := 0x20
  const DMA_BASE := 0x2000_0000
  const ADDRESSES := 0x1_0000_0000

  /** The address of byte `k` of a frame in DMA memory; addresses wrap at 32 bits. */
  function AddressOf(dma: int, k: int): int {
    (dma + DMA_BASE + k) % ADDRESSES
  }

  lemma NextAddress(dma: int, k: int)
    ensures (AddressOf(dma, k) + 1) % ADDRESSES == AddressOf(dma, k + 1)
  {
  }

  class Receiver {
    var fifo: seq<Mailbox>    // the output mailbox of each FIFO; the part has one
    var rfifo0: bv32
    var dmaR: seq<int>        // CANFD_DMA_R, one per FIFO
    var memory: int -> bv8    // what the DMA has stored, by address

    ghost predicate Valid()
      reads this
    {
      |fifo| == |dmaR|
    }

    function Byte(n: int, k: int): bv8
      requires 0 <= n < |dmaR|
      reads this
    {
      memory(AddressOf(dmaR[n], k))
    }
  }

  class RxMsg {
    var stdId: bv32
    var extId: bv32
    var ide: bv8
    var rtr: bv8
    var dlc: bv8
    var fmi: bv8
    var brs: bv8  // the last three exist in FD messages only
    var esi: bv8
    var res: bv8
    const data: array<bv8>

    constructor (size: nat)
      ensures fresh(data) && data.Length == size
    {
      data := new bv8[size];
    }

    /** The identifier of the kind the message says it is. */
    function Id(): bv32
      reads this
    {
      if ide == ID_STANDARD then stdId else extId
    }
  }

  function FilterIndex(dtr: bv32): bv8 {
    ((dtr >> 8) & 0xFF) as bv8
  }

  function Bit(w: bv32, shift: bv32): bv8
    requires shift < 32
  {
    ((w >> shift) & 1) as bv8
  }

  function LengthCode(dtr: bv32): (r: bv8)
    ensures r <= 15
  {
    (dtr & 0x0F) as bv8
  }

  /** The identifier of the frame goes to the field of its kind; the other field is left alone. */
  method ReadIdentifier(ir: bv32, dtr: bv32, msg: RxMsg)
    modifies msg`ide, msg`stdId, msg`extId, msg`rtr
    ensures msg.ide == HeaderBits(ir, dtr).ide && msg.Id() == HeaderBits(ir, dtr).id &&
        msg.rtr == HeaderBits(ir, dtr).rtr
    ensures if msg.ide == ID_STANDARD then msg.extId == old(msg.extId) else msg.stdId == old(msg.stdId)
  {
    msg.ide := (ir & 0x04) as bv8;
    if msg.ide == ID_STANDARD {
      msg.stdId := (ir >> 21) & 0x7FF;
    } else {
      msg.extId := (ir >> 3) & 0x1FFF_FFFF;
    }
    msg.rtr := (ir & 0x02) as bv8;
  }

  /** The first eight bytes of the buffer are these, the rest as they were. */
  predicate ReadOff(bytes: seq<bv8>, was: seq<bv8>, now: seq<bv8>)
    requires |bytes| == 8
  {
    8 <= |now| == |was| && forall k :: 0 <= k < |now| ==> now[k] == if k < 8 then bytes[k] else was[k]
  }

  method ReadData(bytes: seq<bv8>, data: array<bv8>)
    requires |bytes| == 8 <= data.Length
    modifies data
    ensures ReadOff(bytes, old(data[..]), data[..])
  {
    data[0], data[1], data[2], data[3] := bytes[0], bytes[1], bytes[2], bytes[3];
    data[4], data[5], data[6], data[7] := bytes[4], bytes[5], bytes[6], bytes[7];
  }

  method Release(can: Receiver, n: int)
    modifies can`rfifo0
    ensures can.rfifo0 == if n == 0 then old(can.rfifo0) | 0x20 else old(can.rfifo0)
  {
    if n == 0 {
      can.rfifo0 := can.rfifo0 | RFOM0;
    }
  }

  /** CAN_Receive. */
  method Receive(can: Receiver, n: int, msg: RxMsg)
    requires can.Valid() && 0 <= n < |can.fifo| && msg.data.Length == 8
    modifies can`rfifo0, msg, msg.data
    ensures var box := can.fifo[n];
      && Header(msg.ide, msg.Id(), msg.rtr, msg.dlc) == HeaderBits(box.ir, box.dtr)
      && ReadOff(DataBytes(box.dlr, box.dhr), old(msg.data[..]), msg.data[..]) && msg.fmi == FilterIndex(box.dtr)
    ensures if msg.ide == ID_STANDARD then msg.extId == old(msg.extId) else msg.stdId == old(msg.stdId)
    ensures can.rfifo0 == if n == 0 then old(can.rfifo0) | 0x20 else old(can.rfifo0)
  {
    var box := can.fifo[n];
    ReadIdentifier(box.ir, box.dtr, msg);
    msg.dlc := LengthCode(box.dtr);
    msg.fmi := FilterIndex(box.dtr);
    ReadData(DataBytes(box.dlr, box.dhr), msg.data);
    Release(can, n);
  }

  /** The first `length` bytes are those the DMA left in memory, the rest as they were. */
  ghost predicate Copied(can: Receiver, n: int, length: nat, was: seq<bv8>, now: seq<bv8>)
    requires 0 <= n < |can.dmaR|
    reads can
  {
    length <= |now| == |was| && forall k :: 0 <= k < |now| ==> now[k] == if k < length then can.Byte(n, k) else was[k]
  }

  /** The copy loop. */
  method CopyFrom(can: Receiver, n: int, length: nat, data: array<bv8>)
    requires can.Valid() && 0 <= n < |can.fifo| && length <= data.Length
    modifies data
    ensures Copied(can, n, length, old(data[..]), data[..])
  {
    var adr := AddressOf(can.dmaR[n], 0);
    var i := 0;
    while i < length
      invariant 0 <= i <= length && adr == AddressOf(can.dmaR[n], i)
      invariant forall k :: 0 <= k < i ==> data[k] == can.Byte(n, k)
      invariant forall k :: i <= k < data.Length ==> data[k] == old(data[k])
    {
      NextAddress(can.dmaR[n], i);
      data[i] := can.memory(adr);
      adr := (adr + 1) % ADDRESSES;
      i := i + 1;
    }
  }

  /** The header as for a classical frame, except that the length is the one listed for the code. */
  predicate FdHeaderRead(ir: bv32, dtr: bv32, msg: RxMsg)
    reads msg
  {
    && Header(msg.ide, msg.Id(), msg.rtr, LengthCode(dtr)) == HeaderBits(ir, dtr)
    && msg.dlc == FdLength(LengthCode(dtr)) && msg.fmi == FilterIndex(dtr)
    && msg.brs == Bit(dtr, 4) && msg.esi == Bit(dtr, 5) && msg.res == Bit(dtr, 6)
  }

  method ReadFdHeader(ir: bv32, dtr: bv32, msg: RxMsg)
    modifies msg
    ensures FdHeaderRead(ir, dtr, msg)
    ensures if msg.ide == ID_STANDARD then msg.extId == old(msg.extId) else msg.stdId == old(msg.stdId)
  {
    ReadIdentifier(ir, dtr, msg);
    msg.dlc, msg.fmi := FdLength(LengthCode(dtr)), FilterIndex(dtr);
    msg.brs, msg.esi, msg.res := Bit(dtr, 4), Bit(dtr, 5), Bit(dtr, 6);
  }

  /** Up to code 8 the data come from the two registers, above it from the DMA's memory, as many bytes as the length
      listed for the code. */
  ghost predicate FdDataRead(can: Receiver, n: int, was: seq<bv8>, now: seq<bv8>)
    requires can.Valid() && 0 <= n < |can.fifo|
    reads can
  {
    var box := can.fifo[n];
    var code := LengthCode(box.dtr);
    if code <= 8 then ReadOff(DataBytes(box.dlr, box.dhr), was, now)
    else Copied(can, n, FdLength(code) as int, was, now)
  }

  method ReadFdData(can: Receiver, n: int, data: array<bv8>)
    requires can.Valid() && 0 <= n < |can.fifo| && data.Length == 64
    modifies data
    ensures FdDataRead(can, n, old(data[..]), data[..])
  {
    var code := LengthCode(can.fifo[n].dtr);
    if code <= 8 {
      ReadData(DataBytes(can.fifo[n].dlr, can.fifo[n].dhr), data);
    } else {
      FdLengthFits(code);
      CopyFrom(can, n, FdLength(code) as int, data);
    }
  }

  /** CANFD_Receive. Without a pending frame it changes nothing. */
  method ReceiveFd(can: Receiver, n: int, msg: RxMsg) returns (ready: bool)
    requires can.Valid() && 0 <= n < |can.fifo| && msg.data.Length == 64
    modifies can`rfifo0, msg, msg.data
    ensures ready == (can.fifo[n].ir & 1 != 0)
    ensures !ready ==> unchanged(can) && unchanged(msg) && unchanged(msg.data)
    ensures ready ==> FdHeaderRead(can.fifo[n].ir, can.fifo[n].dtr, msg)
    ensures ready ==> if msg.ide == ID_STANDARD then msg.extId == old(msg.extId) else msg.stdId == old(msg.stdId)
    ensures ready ==> FdDataRead(can, n, old(msg.data[..]), msg.data[..])
    ensures ready ==> can.rfifo0 == if n == 0 then old(can.rfifo0) | 0x20 else old(can.rfifo0)
  {
    if can.fifo[n].ir & 1 == 0 {
      return false;
    }
    ReadFdHeader(can.fifo[n].ir, can.fifo[n].dtr, msg);
    ReadFdData(can, n, msg.data);
    Release(can, n);
    ready := true;
  }

  // ----- From the controller to the message

  /** A frame as the controller delivers it: its header, the filter that took it, its three FD flags, the time, and the
      bytes of its data. */
  datatype Delivery = Delivery(header: Header, fmi: bv8, brs: bv8, esi: bv8, res: bv8, time: bv32, bytes: seq<bv8>) {
    predicate Valid() {
      && (header.ide == ID_STANDARD || header.ide == ID_EXTENDED)
      && (header.rtr == RTR_DATA || header.rtr == RTR_REMOTE)
      && (if header.ide == ID_STANDARD then header.id <= 0x7FF else header.id <= 0x1FFF_FFFF)
      && header.dlc <= 15 && brs <= 1 && esi <= 1 && res <= 1
      && |bytes| == if header.dlc <= 8 then 8 else FD_LENGTHS[header.dlc as int]
    }
  }

  /** RXMIR: the identifier from bit 21 or bit 3 up, kind and remote flag, and bit 0, which says that a frame is
      there. */
  function ArrivedIr(h: Header): bv32 {
    (if h.ide == ID_STANDARD then h.id << 21 else h.id << 3) | (h.ide as bv32) | (h.rtr as bv32) | 1
  }

  /** RXMDTR: the length code, the three flags, the filter in bits 15 to 8 and the time above. */
  function ArrivedDtr(d: Delivery): bv32 {
    (d.time << 16) | ((d.fmi as bv32) << 8) | ((d.res as bv32) << 6) | ((d.esi as bv32) << 5) | ((d.brs as bv32) << 4)
    | (d.header.dlc as bv32)
  }

  /** A data register, the first byte lowest. */
  function ArrivedWord(b0: bv8, b1: bv8, b2: bv8, b3: bv8): bv32 {
    (b0 as bv32) | ((b1 as bv32) << 8) | ((b2 as bv32) << 16) | ((b3 as bv32) << 24)
  }

  /** The bytes stand in memory from an address on; addresses wrap at 32 bits. */
  ghost predicate InMemory(memory: int -> bv8, start: int, bytes: seq<bv8>) {
    forall k :: 0 <= k < |bytes| ==> memory((start + k) % 0x1_0000_0000) == bytes[k]
  }

  /** The frame is in the mailbox; with a code above 8 its data are in memory, from 0x2000_0000 above CANFD_DMA_R on. */
  ghost predicate Arrived(can: Receiver, n: int, d: Delivery)
    requires can.Valid() && 0 <= n < |can.fifo| && d.Valid()
    reads can
  {
    && BoxHolds(can.fifo[n], d)
    && (d.header.dlc > 8 ==> InMemory(can.memory, 0x2000_0000 + can.dmaR[n], d.bytes))
  }

  predicate BoxHolds(box: Mailbox, d: Delivery)
    requires d.Valid()
  {
    var b := d.bytes;
    && box.ir == ArrivedIr(d.header) && box.dtr == ArrivedDtr(d)
    && (d.header.dlc <= 8 ==>
          box.dlr == ArrivedWord(b[0], b[1], b[2], b[3]) && box.dhr == ArrivedWord(b[4], b[5], b[6], b[7]))
  }

  lemma KindArrives(h: Header)
    requires (h.ide == ID_STANDARD || h.ide == ID_EXTENDED) && (h.rtr == RTR_DATA || h.rtr == RTR_REMOTE)
    ensures IdeBits(ArrivedIr(h)) == h.ide
  {
  }

  lemma RtrArrives(h: Header)
    requires (h.ide == ID_STANDARD || h.ide == ID_EXTENDED) && (h.rtr == RTR_DATA || h.rtr == RTR_REMOTE)
    ensures RtrBits(ArrivedIr(h)) == h.rtr
  {
  }

  lemma StandardArrives(h: Header)
    requires h.ide == ID_STANDARD && (h.rtr == RTR_DATA || h.rtr == RTR_REMOTE) && h.id <= 0x7FF
    ensures StandardBits(ArrivedIr(h)) == h.id
  {
  }

  lemma ExtendedArrives(h: Header)
    requires h.ide == ID_EXTENDED && (h.rtr == RTR_DATA || h.rtr == RTR_REMOTE) && h.id <= 0x1FFF_FFFF
    ensures ExtendedBits(ArrivedIr(h)) == h.id
  {
  }

  lemma PendingArrives(h: Header)
    ensures ArrivedIr(h) & 1 != 0
  {
  }

  lemma CodeArrives(d: Delivery)
    requires d.header.dlc <= 15
    ensures DlcBits(ArrivedDtr(d)) == d.header.dlc && LengthCode(ArrivedDtr(d)) == d.header.dlc
  {
  }

  lemma FilterArrives(d: Delivery)
    requires d.header.dlc <= 15 && d.brs <= 1 && d.esi <= 1 && d.res <= 1
    ensures FilterIndex(ArrivedDtr(d)) == d.fmi
  {
  }

  lemma FlagsArrive(d: Delivery)
    requires d.header.dlc <= 15 && d.brs <= 1 && d.esi <= 1 && d.res <= 1
    ensures Bit(ArrivedDtr(d), 4) == d.brs && Bit(ArrivedDtr(d), 5) == d.esi && Bit(ArrivedDtr(d), 6) == d.res
  {
  }

  lemma HeaderArrives(d: Delivery)
    requires d.Valid()
    ensures HeaderBits(ArrivedIr(d.header), ArrivedDtr(d)) == d.header
  {
    KindArrives(d.header);
    RtrArrives(d.header);
    CodeArrives(d);
    if d.header.ide == ID_STANDARD {
      StandardArrives(d.header);
    } else {
      ExtendedArrives(d.header);
    }
  }

  lemma WordsArrive(b: seq<bv8>)
    requires |b| == 8
    ensures DataBytes(ArrivedWord(b[0], b[1], b[2], b[3]), ArrivedWord(b[4], b[5], b[6], b[7])) == b
  {
  }

  /** What the data bytes of a message are once a delivered frame has been read. */
  lemma BytesArrive(can: Receiver, n: int, d: Delivery, was: seq<bv8>, now: seq<bv8>)
    requires can.Valid() && 0 <= n < |can.fifo| && d.Valid() && Arrived(can, n, d) && FdDataRead(can, n, was, now)
    ensures |d.bytes| <= |now| && now == d.bytes + was[|d.bytes|..]
  {
    CodeArrives(d);
    FdLengthIsListed(d.header.dlc);
    if d.header.dlc <= 8 {
      WordsArrive(d.bytes);
    } else {
      forall k | 0 <= k < |d.bytes|
        ensures can.Byte(n, k) == d.bytes[k]
      {
        assert AddressOf(can.dmaR[n], k) == (0x2000_0000 + can.dmaR[n] + k) % 0x1_0000_0000;
      }
    }
  }

  /** Memory once the bytes have been stored from an address on. */
  function Stored(memory: int -> bv8, start: int, bytes: seq<bv8>): int -> bv8 {
    a =>
      var k := (a - start) % 0x1_0000_0000;
      if k < |bytes| then bytes[k] else memory(a)
  }

  lemma StoredThere(memory: int -> bv8, start: int, bytes: seq<bv8>)
    requires |bytes| <= 64
    ensures InMemory(Stored(memory, start, bytes), start, bytes)
  {
    forall k | 0 <= k < |bytes|
      ensures Stored(memory, start, bytes)((start + k) % 0x1_0000_0000) == bytes[k]
    {
      ThereAndBack(start, k);
    }
  }

  lemma ThereAndBack(start: int, k: int)
    requires 0 <= k < 0x1_0000_0000
    ensures ((start + k) % 0x1_0000_0000 - start) % 0x1_0000_0000 == k
  {
  }

  /** The mailbox of a frame that has arrived. */
  function ArrivedBox(d: Delivery, dlr: bv32, dhr: bv32): Mailbox
    requires d.Valid()
  {
    var b := d.bytes;
    if d.header.dlc <= 8 then
      Mailbox(ArrivedIr(d.header), ArrivedDtr(d), ArrivedWord(b[0], b[1], b[2], b[3]),
              ArrivedWord(b[4], b[5], b[6], b[7]))
    else
      Mailbox(ArrivedIr(d.header), ArrivedDtr(d), dlr, dhr)
  }

  lemma BoxArrives(d: Delivery, dlr: bv32, dhr: bv32)
    requires d.Valid()
    ensures BoxHolds(ArrivedBox(d, dlr, dhr), d)
  {
  }

  lemma FewBytes(d: Delivery)
    requires d.Valid()
    ensures |d.bytes| <= 64
  {
    FdLengthIsListed(d.header.dlc);
    FdLengthFits(d.header.dlc);
  }

  /** The controller delivers a frame; the data registers of a long one hold anything. */
  method Deliver(can: Receiver, n: int, d: Delivery, dlr: bv32, dhr: bv32)
    requires can.Valid() && 0 <= n < |can.fifo| && d.Valid()
    modifies can`fifo, can`memory
    ensures can.Valid() && |can.fifo| == |old(can.fifo)| && Arrived(can, n, d)
  {
    if d.header.dlc > 8 {
      FewBytes(d);
      Store(can, 0x2000_0000 + can.dmaR[n], d.bytes);
    }
    Present(can, n, ArrivedBox(d, dlr, dhr));
    BoxArrives(d, dlr, dhr);
  }

  /** Its DMA writes to memory, */
  method Store(can: Receiver, start: int, bytes: seq<bv8>)
    requires |bytes| <= 64
    modifies can`memory
    ensures InMemory(can.memory, start, bytes)
  {
    StoredThere(can.memory, start, bytes);
    can.memory := Stored(can.memory, start, bytes);
  }

  /** and then the frame shows in the mailbox. */
  method Present(can: Receiver, n: int, box: Mailbox)
    requires 0 <= n < |can.fifo|
    modifies can`fifo
    ensures |can.fifo| == |old(can.fifo)| && can.fifo[n] == box
  {
    can.fifo := can.fifo[n := box];
  }

  /** The header of the message is that of the frame, its length the one listed for the code. */
  predicate HeaderReceived(d: Delivery, msg: RxMsg)
    requires d.Valid()
    reads msg
  {
    && Header(msg.ide, msg.Id(), msg.rtr, d.header.dlc) == d.header
    && msg.dlc as int == FD_LENGTHS[d.header.dlc as int]
    && msg.fmi == d.fmi && msg.brs == d.brs && msg.esi == d.esi && msg.res == d.res
  }

  lemma HeaderMatches(d: Delivery, msg: RxMsg)
    requires d.Valid() && FdHeaderRead(ArrivedIr(d.header), ArrivedDtr(d), msg)
    ensures HeaderReceived(d, msg)
  {
    HeaderArrives(d);
    CodeArrives(d);
    FilterArrives(d);
    FlagsArrive(d);
    FdLengthIsListed(d.header.dlc);
  }

  /** A frame that has arrived is received by CANFD_Receive as it was delivered. */
  method ReceiveArrived(can: Receiver, n: int, ghost d: Delivery, msg: RxMsg)
    requires can.Valid() && 0 <= n < |can.fifo| && d.Valid() && Arrived(can, n, d) && msg.data.Length == 64
    modifies can`rfifo0, msg, msg.data
    ensures HeaderReceived(d, msg) && msg.data[..] == d.bytes + old(msg.data[..])[|d.bytes|..]
  {
    PendingArrives(d.header);
    var ready := ReceiveFd(can, n, msg);
    HeaderMatches(d, msg);
    BytesArrive(can, n, d, old(msg.data[..]), msg.data[..]);
  }

  method DeliverAndReceive(can: Receiver, n: int, d: Delivery, dlr: bv32, dhr: bv32, msg: RxMsg)
    requires can.Valid() && 0 <= n < |can.fifo| && d.Valid() && msg.data.Length == 64
    modifies can, msg, msg.data
    ensures HeaderReceived(d, msg) && msg.data[..] == d.bytes + old(msg.data[..])[|d.bytes|..]
  {
    Deliver(can, n, d, dlr, dhr);
    ReceiveArrived(can, n, d, msg);
  }

  /** And so does a classical one with CAN_Receive. */
  method DeliverAndReceiveClassical(can: Receiver, n: int, d: Delivery, msg: RxMsg)
    requires can.Valid() && 0 <= n < |can.fifo| && d.Valid() && d.header.dlc <= 8 && msg.data.Length == 8
    modifies can, msg, msg.data
    ensures Header(msg.ide, msg.Id(), msg.rtr, msg.dlc) == d.header && msg.fmi == d.fmi && msg.data[..] == d.bytes
  {
    Deliver(can, n, d, 0, 0);
    HeaderArrives(d);
    FilterArrives(d);
    WordsArrive(d.bytes);
    Receive(can, n, msg);
    assert msg.data[..] == d.bytes;
  }
}
