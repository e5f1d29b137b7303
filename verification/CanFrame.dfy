/**
 Classical and FD CAN frames as the mailbox registers hold them. The identifier fields are those of section 3.2.1
 of the Bosch CAN Specification 2.0 Part B; the data length codes above 8 are those of CAN FD.
 */
module CanFrame {

  const ID_STANDARD: bv8 := 0x00
  const ID_EXTENDED: bv8 := 0x04
  const RTR_DATA: bv8 := 0x00
  const RTR_REMOTE: bv8 := 0x02
  const TXRQ: bv32 := 0x0000_0001

  /** The four registers of a transmit or receive mailbox: identifier, length and time, low and high data. */
  datatype Mailbox = Mailbox(ir: bv32, dtr: bv32, dlr: bv32, dhr: bv32)

  /** What the driver is asked to send. */
  datatype Message = Message(stdId: bv32, extId: bv32, ide: bv8, rtr: bv8, dlc: bv8)

  /** The header a frame carries on the bus, with the identifier of its own kind. */
  datatype Header = Header(ide: bv8, id: bv32, rtr: bv8, dlc: bv8)

  function HeaderOf(m: Message): Header {
    Header(m.ide, if m.ide == ID_STANDARD then m.stdId else m.extId, m.rtr, m.dlc & 0x0F)
  }

  /** The values the header file allows: an identifier of 11 or 29 bits, and the named constants. */
  predicate WellFormed(m: Message) {
    && (m.ide == ID_STANDARD || m.ide == ID_EXTENDED)
    && (m.rtr == RTR_DATA || m.rtr == RTR_REMOTE)
    && (if m.ide == ID_STANDARD then m.stdId <= 0x7FF else m.extId <= 0x1FFF_FFFF)
  }

  /** What transmission ors into the identifier register. */
  function IdentifierBits(m: Message): bv32 {
    if m.ide == ID_STANDARD then (m.stdId << 21) | (m.rtr as bv32)
    else (m.extId << 3) | (m.ide as bv32) | (m.rtr as bv32)
  }

  /** And into the length register. */
  function LengthBits(m: Message): bv32 {
    (m.dlc & 0x0F) as bv32
  }

  /** The identifier register after transmission, */
  function IrAfter(ir: bv32, bits: bv32): bv32 {
    ((ir & TXRQ) | bits) | TXRQ
  }

  /** and the length register. */
  function DtrAfter(dtr: bv32, bits: bv32): bv32 {
    (dtr & 0xFFFF_FFF0) | bits
  }

  lemma IdeDecoded(ir: bv32, bits: bv32)
    ensures IdeBits(IrAfter(ir, bits)) == IdeBits(bits)
  {
  }

  lemma RtrDecoded(ir: bv32, bits: bv32)
    ensures RtrBits(IrAfter(ir, bits)) == RtrBits(bits)
  {
  }

  lemma IdentifierDecoded(ir: bv32, bits: bv32)
    ensures StandardBits(IrAfter(ir, bits)) == StandardBits(bits)
    ensures ExtendedBits(IrAfter(ir, bits)) == ExtendedBits(bits)
  {
  }

  lemma DtrDecoded(dtr: bv32, bits: bv32)
    ensures DlcBits(DtrAfter(dtr, bits)) == DlcBits(bits)
    ensures bits <= 0xF ==> DtrAfter(dtr, bits) >> 4 == dtr >> 4
  {
  }

  lemma DlcDecoded(m: Message)
    ensures DlcBits(LengthBits(m)) == m.dlc & 0x0F
  {
  }

  lemma StandardDecoded(m: Message)
    requires m.ide == ID_STANDARD
    ensures WellFormed(m) <==>
      && IdeBits(IdentifierBits(m)) == ID_STANDARD
      && StandardBits(IdentifierBits(m)) == m.stdId
      && RtrBits(IdentifierBits(m)) == m.rtr
  {
  }

  lemma ExtendedDecoded(m: Message)
    requires m.ide != ID_STANDARD
    ensures WellFormed(m) <==>
      && IdeBits(IdentifierBits(m)) == m.ide
      && ExtendedBits(IdentifierBits(m)) == m.extId
      && RtrBits(IdentifierBits(m)) == m.rtr
  {
  }

  /** Four bytes in a data register, the first one lowest. */
  function DataWord(b0: bv8, b1: bv8, b2: bv8, b3: bv8): bv32 {
    ((b3 as bv32) << 24) | ((b2 as bv32) << 16) | ((b1 as bv32) << 8) | (b0 as bv32)
  }

  function ByteOf(w: bv32, shift: bv32): bv8
    requires shift <= 24
  {
    ((w >> shift) & 0xFF) as bv8
  }

  function DataBytes(dlr: bv32, dhr: bv32): (r: seq<bv8>)
    ensures |r| == 8
  {
    [ByteOf(dlr, 0), ByteOf(dlr, 8), ByteOf(dlr, 16), ByteOf(dlr, 24),
     ByteOf(dhr, 0), ByteOf(dhr, 8), ByteOf(dhr, 16), ByteOf(dhr, 24)]
  }

  /** The header as reception decodes it from the identifier and the length register. */
  function HeaderBits(ir: bv32, dtr: bv32): Header {
    Header(IdeBits(ir), if IdeBits(ir) == ID_STANDARD then StandardBits(ir) else ExtendedBits(ir), RtrBits(ir),
           DlcBits(dtr))
  }

  function IdeBits(ir: bv32): bv8 {
    (ir & 0x04) as bv8
  }

  function StandardBits(ir: bv32): bv32 {
    (ir >> 21) & 0x7FF
  }

  function ExtendedBits(ir: bv32): bv32 {
    (ir >> 3) & 0x1FFF_FFFF
  }

  function RtrBits(ir: bv32): bv8 {
    (ir & 0x02) as bv8
  }

  function DlcBits(dtr: bv32): bv8 {
    (dtr & 0x0F) as bv8
  }

  /** The header that transmission packs for any message. */
  function PackedHeader(m: Message): Header {
    HeaderBits(IdentifierBits(m), LengthBits(m))
  }

  /** Whatever the two registers held before, reception decodes the header that transmission packed into them, */
  lemma HeaderDecoded(ir: bv32, dtr: bv32, m: Message)
    ensures HeaderBits(IrAfter(ir, IdentifierBits(m)), DtrAfter(dtr, LengthBits(m))) == PackedHeader(m)
  {
    IdeDecoded(ir, IdentifierBits(m));
    RtrDecoded(ir, IdentifierBits(m));
    IdentifierDecoded(ir, IdentifierBits(m));
    DtrDecoded(dtr, LengthBits(m));
  }

  /** and that is the message's own just when the message is well formed. */
  lemma HeaderRoundTripExactly(m: Message)
    ensures PackedHeader(m) == HeaderOf(m) <==> WellFormed(m)
  {
    DlcDecoded(m);
    if m.ide == ID_STANDARD {
      StandardDecoded(m);
    } else {
      ExtendedDecoded(m);
    }
  }

  /** The message's fields leave the request bit of the identifier register alone. */
  predicate RequestsNothing(m: Message) {
    IdentifierBits(m) & TXRQ == 0
  }

  lemma WellFormedRequestsNothing(m: Message)
    requires WellFormed(m)
    ensures RequestsNothing(m)
  {
  }

  /** And it gives back all eight bytes. */
  lemma DataRoundTrip(data: seq<bv8>)
    requires |data| == 8
    ensures
      DataBytes(DataWord(data[0], data[1], data[2], data[3]), DataWord(data[4], data[5], data[6], data[7])) == data
  {
  }

  // ----- CAN FD data length codes

  /** The number of data bytes for each code, as the standard and the header file list them. */
  const FD_LENGTHS: seq<nat> := [0, 1, 2, 3, 4, 5, 6, 7, 8, 12, 16, 20, 24, 32, 48, 64]

  /** The length as reception computes it from the code, in eight bits. */
  function FdLength(code: bv8): bv8
    requires code <= 15
  {
    if code <= 8 then code else if code <= 12 then (code - 6) * 4 else (code - 11) * 16
  }

  lemma FdLengthIsListed(code: bv8)
    requires code <= 15
    ensures FdLength(code) as int == FD_LENGTHS[code as int]
  {
  }

  lemma FdLengthFits(code: bv8)
    requires code <= 15
    ensures FdLength(code) as int <= 64
  {
  }

  lemma FdLengthIncreases(a: bv8, b: bv8)
    requires a < b <= 15
    ensures FdLength(a) < FdLength(b) <= 64
  {
  }
}
