/**
 CAN_Transmit and CANFD_Transmit on the shared mailboxes, and CAN_TransmitStatus.
 */
module CanTransmit {
  import opened CanFrame
  import opened CanMailboxes

  /** A mailbox with its DMA address register. */
  datatype TxBox = TxBox(mail: Mailbox, dma: bv32)

  /** A classical frame brings its eight data bytes, an FD frame the address of its data buffer. */
  datatype Payload = Data(bytes: seq<bv8>) | Buffer(address: bv32)

  datatype Frame = Frame(header: Header, payload: Payload)

  predicate Requested(b: TxBox) {
    b.mail.ir & TXRQ == TXRQ
  }

  function Drop(b: TxBox): TxBox {
    b.(mail := b.mail.(ir := b.mail.ir & !TXRQ))
  }

  /** Reception would read this frame off the mailbox, or, for FD, find its data at the mailbox's DMA address. */
  predicate Carries(b: TxBox, f: Frame) {
    && HeaderBits(b.mail.ir, b.mail.dtr) == f.header
    && match f.payload case Data(bytes) => DataBytes(b.mail.dlr, b.mail.dhr) == bytes case Buffer(a) => b.dma == a
  }

  const CAN_PORT: Port<TxBox, Frame> := Port(Requested, Drop, Carries)

  lemma PortValid()
    ensures CAN_PORT.Valid()
  {
  }

  /** The mailboxes after reset, whatever their registers hold, as long as nothing is requested. */
  method Reset(b0: TxBox, b1: TxBox, b2: TxBox) returns (can: Mailboxes<TxBox, Frame>)
    requires !Requested(b0) && !Requested(b1) && !Requested(b2)
    ensures fresh(can) && can.Inv() && can.port == CAN_PORT && can.boxes == [b0, b1, b2] && can.accepted == []
  {
    PortValid();
    can := new Mailboxes(CAN_PORT, b0, b1, b2);
  }

  class TxMsg {
    var stdId: bv32
    var extId: bv32
    var ide: bv8
    var rtr: bv8
    var dlc: bv8
    var data: seq<bv8>
    var dataAddress: bv32  // where an FD message keeps its data

    constructor (m: Message, data: seq<bv8>, dataAddress: bv32)
      ensures Value() == m && this.data == data && this.dataAddress == dataAddress
    {
      stdId, extId, ide, rtr, dlc := m.stdId, m.extId, m.ide, m.rtr, m.dlc;
      this.data, this.dataAddress := data, dataAddress;
    }

    function Value(): Message
      reads this
    {
      Message(stdId, extId, ide, rtr, dlc)
    }
  }

  /** The frame went into mailbox `m`, whose last frame it now is; or, if there was none, nothing was accepted. */
  ghost predicate Taken(accepted: seq<Frame>, last: seq<int>, accepted': seq<Frame>, last': seq<int>, m: int,
      f: Frame) {
    if m == NO_MAILBOX then accepted' == accepted && last' == last
    else 0 <= m < |last| && accepted' == accepted + [f] && last' == last[m := |accepted|]
  }

  /** None of the writes to a mailbox before the last sets the request bit. */
  lemma RequestsLast(ir: bv32, m: Message)
    requires ir & TXRQ != TXRQ && RequestsNothing(m)
    ensures (ir & TXRQ) & TXRQ != TXRQ && ((ir & TXRQ) | IdentifierBits(m)) & TXRQ != TXRQ
    ensures (((ir & TXRQ) | IdentifierBits(m)) | TXRQ) & TXRQ == TXRQ
  {
  }

  /** The identifier and length registers hold the header of `m` and lack only the request bit. */
  predicate HeaderWritten(b: TxBox, m: Message) {
    !Requested(b) && Requested(b.(mail := b.mail.(ir := b.mail.ir | TXRQ))) &&
      HeaderBits(b.mail.ir | TXRQ, b.mail.dtr) == PackedHeader(m)
  }

  lemma WrittenHeader(b: TxBox, was: TxBox, m: Message)
    requires !Requested(was) && RequestsNothing(m)
    requires b.mail.ir == (was.mail.ir & TXRQ) | IdentifierBits(m)
    requires b.mail.dtr == (was.mail.dtr & 0xFFFF_FFF0) | ((m.dlc & 0x0F) as bv32)
    ensures HeaderWritten(b, m)
  {
    RequestsLast(was.mail.ir, m);
    HeaderDecoded(was.mail.ir, was.mail.dtr, m);
  }

  method WriteIdentifier(can: Mailboxes<TxBox, Frame>, m: int, message: Message)
    requires can.Inv() && can.port == CAN_PORT && RequestsNothing(message) && 0 <= m < 3 && m in can.tme
    modifies can`tme, can`rqcp, can`txok, can`boxes, can`slot, can`completed, can`succeeded, can`moments
    ensures can.Inv() && old(can.completed) <= can.completed && old(can.moments) <= can.moments
    ensures m in can.tme && can.boxes[m].mail.ir == (old(can.boxes[m].mail.ir) & TXRQ) | IdentifierBits(message)
    ensures can.boxes[m].mail.dtr == old(can.boxes[m].mail.dtr)
  {
    var b := can.boxes[m];
    RequestsLast(b.mail.ir, message);
    can.Write(m, b.(mail := b.mail.(ir := b.mail.ir & TXRQ)));
    b := can.boxes[m];
    var bits := IdentifierBits(message);
    can.Write(m, b.(mail := b.mail.(ir := b.mail.ir | bits)));
  }

  method WriteLength(can: Mailboxes<TxBox, Frame>, m: int, dlc: bv8)
    requires can.Inv() && can.port == CAN_PORT && 0 <= m < 3 && m in can.tme
    modifies can`tme, can`rqcp, can`txok, can`boxes, can`slot, can`completed, can`succeeded, can`moments
    ensures can.Inv() && old(can.completed) <= can.completed && old(can.moments) <= can.moments
    ensures m in can.tme && can.boxes[m].mail.ir == old(can.boxes[m].mail.ir)
    ensures can.boxes[m].mail.dtr == (old(can.boxes[m].mail.dtr) & 0xFFFF_FFF0) | (dlc as bv32)
  {
    var b := can.boxes[m];
    can.Write(m, b.(mail := b.mail.(dtr := b.mail.dtr & 0xFFFF_FFF0)));
    b := can.boxes[m];
    can.Write(m, b.(mail := b.mail.(dtr := b.mail.dtr | (dlc as bv32))));
  }

  /** The part the two transmit functions share: the header, register by register. */
  method WriteHeader(can: Mailboxes<TxBox, Frame>, m: int, msg: TxMsg)
    requires can.Inv() && can.port == CAN_PORT && RequestsNothing(msg.Value()) && 0 <= m < 3 && m in can.tme
    modifies can`tme, can`rqcp, can`txok, can`boxes, can`slot, can`completed, can`succeeded, can`moments, msg`dlc
    ensures can.Inv() && old(can.completed) <= can.completed && old(can.moments) <= can.moments
    ensures m in can.tme && HeaderWritten(can.boxes[m], old(msg.Value())) && msg.dlc == old(msg.dlc) & 0x0F
  {
    ghost var was, message := can.boxes[m], msg.Value();
    WriteIdentifier(can, m, msg.Value());
    msg.dlc := msg.dlc & 0x0F;
    WriteLength(can, m, msg.dlc);
    WrittenHeader(can.boxes[m], was, message);
  }

  /** The classical part: both data registers, then the request. */
  method SendData(can: Mailboxes<TxBox, Frame>, m: int, data: seq<bv8>, ghost message: Message)
    requires can.Inv() && can.port == CAN_PORT && |data| == 8
    requires 0 <= m < 3 && m in can.tme && HeaderWritten(can.boxes[m], message)
    modifies can`tme, can`rqcp, can`txok, can`boxes, can`slot, can`last, can`accepted, can`completed,
      can`succeeded, can`moments
    ensures can.Inv() && old(can.completed) <= can.completed && old(can.moments) <= can.moments
    ensures can.accepted == old(can.accepted) + [Frame(PackedHeader(message), Data(data))]
    ensures can.last == old(can.last)[m := |old(can.accepted)|]
  {
    var b := can.boxes[m];
    can.Write(m, b.(mail := b.mail.(dlr := DataWord(data[0], data[1], data[2], data[3]))));
    b := can.boxes[m];
    can.Write(m, b.(mail := b.mail.(dhr := DataWord(data[4], data[5], data[6], data[7]))));
    DataRoundTrip(data);
    b := can.boxes[m];
    can.Request(m, b.(mail := b.mail.(ir := b.mail.ir | TXRQ)), Frame(PackedHeader(message), Data(data)));
  }

  /** The FD part: the address of the data, then the request. */
  method SendBuffer(can: Mailboxes<TxBox, Frame>, m: int, address: bv32, ghost message: Message)
    requires can.Inv() && can.port == CAN_PORT
    requires 0 <= m < 3 && m in can.tme && HeaderWritten(can.boxes[m], message)
    modifies can`tme, can`rqcp, can`txok, can`boxes, can`slot, can`last, can`accepted, can`completed,
      can`succeeded, can`moments
    ensures can.Inv() && old(can.completed) <= can.completed && old(can.moments) <= can.moments
    ensures can.accepted == old(can.accepted) + [Frame(PackedHeader(message), Buffer(address))]
    ensures can.last == old(can.last)[m := |old(can.accepted)|]
  {
    var b := can.boxes[m];
    can.Write(m, b.(dma := address));
    b := can.boxes[m];
    can.Request(m, b.(mail := b.mail.(ir := b.mail.ir | TXRQ)), Frame(PackedHeader(message), Buffer(address)));
  }

  /** What CAN_Transmit does with the mailbox it has found, */
  method Send(can: Mailboxes<TxBox, Frame>, m: int, msg: TxMsg)
    requires can.Inv() && can.port == CAN_PORT && RequestsNothing(msg.Value()) && |msg.data| == 8
    requires 0 <= m < 3 && m in can.tme
    modifies can`tme, can`rqcp, can`txok, can`boxes, can`slot, can`last, can`accepted, can`completed,
      can`succeeded, can`moments, msg`dlc
    ensures can.Inv() && old(can.completed) <= can.completed && old(can.moments) <= can.moments
    ensures can.accepted == old(can.accepted) + [Frame(PackedHeader(old(msg.Value())), Data(msg.data))]
    ensures can.last == old(can.last)[m := |old(can.accepted)|] && msg.dlc == old(msg.dlc) & 0x0F
  {
    ghost var message := msg.Value();
    WriteHeader(can, m, msg);
    SendData(can, m, msg.data, message);
  }

  /** and CANFD_Transmit. */
  method SendFd(can: Mailboxes<TxBox, Frame>, m: int, msg: TxMsg)
    requires can.Inv() && can.port == CAN_PORT && RequestsNothing(msg.Value())
    requires 0 <= m < 3 && m in can.tme
    modifies can`tme, can`rqcp, can`txok, can`boxes, can`slot, can`last, can`accepted, can`completed,
      can`succeeded, can`moments, msg`dlc
    ensures can.Inv() && old(can.completed) <= can.completed && old(can.moments) <= can.moments
    ensures can.accepted == old(can.accepted) + [Frame(PackedHeader(old(msg.Value())), Buffer(msg.dataAddress))]
    ensures can.last == old(can.last)[m := |old(can.accepted)|] && msg.dlc == old(msg.dlc) & 0x0F
  {
    ghost var message := msg.Value();
    WriteHeader(can, m, msg);
    SendBuffer(can, m, msg.dataAddress, message);
  }

  /** CAN_Transmit, of any message whose fields do not raise the request too early. A frame taken goes into a mailbox
      that was found empty, and is from then on there or completed (`Inv`); the call finds no mailbox only if each was
      occupied at some moment of the call. */
  method Transmit(can: Mailboxes<TxBox, Frame>, msg: TxMsg) returns (m: int)
    requires can.Inv() && can.port == CAN_PORT && RequestsNothing(msg.Value()) && |msg.data| == 8
    modifies can, msg`dlc
    ensures can.Inv() && old(can.completed) <= can.completed && old(can.moments) <= can.moments && !can.fdMode
    ensures Found(can.moments, |old(can.moments)| - 1, m)
    ensures forall i :: 0 <= i < 3 && i in old(can.tme) ==> m <= i
    ensures Taken(old(can.accepted), old(can.last), can.accepted, can.last, m,
                  Frame(PackedHeader(old(msg.Value())), Data(msg.data)))
    ensures msg.dlc == if m == NO_MAILBOX then old(msg.dlc) else old(msg.dlc) & 0x0F
  {
    can.fdMode := false;
    m := can.Select();
    ghost var moments := can.moments;
    if m != NO_MAILBOX {
      Send(can, m, msg);
    }
    FoundLater(moments, can.moments, |old(can.moments)| - 1, m);
  }

  /** CANFD_Transmit: the same, but the frame's data stay in the message's buffer. */
  method TransmitFd(can: Mailboxes<TxBox, Frame>, msg: TxMsg) returns (m: int)
    requires can.Inv() && can.port == CAN_PORT && RequestsNothing(msg.Value())
    modifies can, msg`dlc
    ensures can.Inv() && old(can.completed) <= can.completed && old(can.moments) <= can.moments && can.fdMode
    ensures Found(can.moments, |old(can.moments)| - 1, m)
    ensures forall i :: 0 <= i < 3 && i in old(can.tme) ==> m <= i
    ensures Taken(old(can.accepted), old(can.last), can.accepted, can.last, m,
                  Frame(PackedHeader(old(msg.Value())), Buffer(msg.dataAddress)))
    ensures msg.dlc == if m == NO_MAILBOX then old(msg.dlc) else old(msg.dlc) & 0x0F
  {
    can.fdMode := true;
    m := can.Select();
    ghost var moments := can.moments;
    if m != NO_MAILBOX {
      SendFd(can, m, msg);
    }
    FoundLater(moments, can.moments, |old(can.moments)| - 1, m);
  }

  // ----- What the controller finds

  /** The registers of a mailbox, bit by bit, hold this frame and its request. */
  predicate OnTheWire(b: TxBox, f: Frame) {
    && b.mail.ir & 1 == 1
    && f.header.ide == (b.mail.ir & 4) as bv8 && f.header.rtr == (b.mail.ir & 2) as bv8
    && f.header.id == (if f.header.ide == 0 then (b.mail.ir >> 21) & 0x7FF else (b.mail.ir >> 3) & 0x1FFF_FFFF)
    && f.header.dlc == (b.mail.dtr & 0xF) as bv8
    && match f.payload
       case Data(bytes) => |bytes| == 8 && InWord(b.mail.dlr, bytes[..4]) && InWord(b.mail.dhr, bytes[4..])
       case Buffer(address) => b.dma == address
  }

  /** Four bytes of a register, the lowest first. */
  predicate InWord(w: bv32, bytes: seq<bv8>)
    requires |bytes| == 4
  {
    && bytes[0] == (w & 0xFF) as bv8 && bytes[1] == ((w >> 8) & 0xFF) as bv8
    && bytes[2] == ((w >> 16) & 0xFF) as bv8 && bytes[3] == ((w >> 24) & 0xFF) as bv8
  }

  lemma WordOfBytes(dlr: bv32, dhr: bv32)
    ensures InWord(dlr, DataBytes(dlr, dhr)[..4]) && InWord(dhr, DataBytes(dlr, dhr)[4..])
  {
  }

  lemma CarriedOnTheWire(b: TxBox, f: Frame)
    requires Requested(b) && Carries(b, f)
    ensures OnTheWire(b, f)
  {
    WordOfBytes(b.mail.dlr, b.mail.dhr);
  }

  /** In every state a run can reach: a mailbox not marked empty holds the frame it was taken for, whole. */
  lemma PendingFrame(can: Mailboxes<TxBox, Frame>, i: int)
    requires can.Inv() && can.port == CAN_PORT && 0 <= i < 3 && i !in can.tme
    ensures 0 <= can.slot[i] < |can.accepted| && can.slot[i] !in can.completed
    ensures OnTheWire(can.boxes[i], can.accepted[can.slot[i]])
  {
    CarriedOnTheWire(can.boxes[i], can.accepted[can.slot[i]]);
  }

  // ----- Runs

  datatype Sending = Classical(message: Message, data: seq<bv8>) | Fd(message: Message, address: bv32) {
    predicate Valid() {
      RequestsNothing(message) && (Classical? ==> |data| == 8)
    }

    function Sent(): Frame {
      match this
      case Classical(message, data) => Frame(PackedHeader(message), Data(data))
      case Fd(message, address) => Frame(PackedHeader(message), Buffer(address))
    }
  }

  /** The frames of the calls that returned a mailbox. */
  function TakenFrames(sends: seq<Sending>, mailboxes: seq<int>): seq<Frame>
    requires |sends| == |mailboxes|
  {
    if sends == [] then []
    else
      var n := |sends| - 1;
      TakenFrames(sends[..n], mailboxes[..n]) + if mailboxes[n] == NO_MAILBOX then [] else [sends[n].Sent()]
  }

  lemma TakenOneMore(before: seq<Frame>, accepted: seq<Frame>, sends: seq<Sending>, i: int, mailboxes: seq<int>, m: int)
    requires 0 <= i < |sends| && |mailboxes| == i && accepted == before + TakenFrames(sends[..i], mailboxes)
    ensures accepted + (if m == NO_MAILBOX then [] else [sends[i].Sent()])
      == before + TakenFrames(sends[..i + 1], mailboxes + [m])
  {
    assert sends[..i + 1][..i] == sends[..i] && (mailboxes + [m])[..i] == mailboxes;
  }

  /** The moments of one call: it began after the value of TSTATR at `from` was seen, and ended before that at `to`. */
  datatype Span = Span(from: int, to: int)

  /** A call answered by what TSTATR showed in its span: each mailbox passed over was occupied, and the one returned
      was empty. */
  ghost predicate AnsweredIn(moments: seq<set<int>>, span: Span, m: int) {
    0 <= span.from < span.to <= |moments| && Found(moments[..span.to], span.from, m)
  }

  /** The calls were answered one after another, each in its own span. */
  ghost predicate Answered(mailboxes: seq<int>, moments: seq<set<int>>, since: int, spans: seq<Span>) {
    && |spans| == |mailboxes|
    && (forall i :: 0 <= i < |mailboxes| ==> since <= spans[i].from && AnsweredIn(moments, spans[i], mailboxes[i]))
    && forall i, j :: 0 <= i < j < |spans| ==> spans[i].to <= spans[j].from + 1
  }

  lemma StillAnswered(moments: seq<set<int>>, later: seq<set<int>>, span: Span, m: int)
    requires AnsweredIn(moments, span, m) && moments <= later
    ensures AnsweredIn(later, span, m)
  {
    assert later[..span.to] == moments[..span.to];
  }

  lemma AnsweredOneMore(mailboxes: seq<int>, moments: seq<set<int>>, later: seq<set<int>>, since: int,
      spans: seq<Span>, m: int, span: Span)
    requires Answered(mailboxes, moments, since, spans) && moments <= later && AnsweredIn(later, span, m)
    requires since <= span.from && |moments| <= span.from + 1
    ensures Answered(mailboxes + [m], later, since, spans + [span])
  {
    forall i | 0 <= i < |mailboxes|
      ensures AnsweredIn(later, spans[i], mailboxes[i]) && spans[i].to <= span.from + 1
    {
      StillAnswered(moments, later, spans[i], mailboxes[i]);
    }
  }

  /** The call of one function or the other. */
  method Call(can: Mailboxes<TxBox, Frame>, send: Sending) returns (m: int)
    requires can.Inv() && can.port == CAN_PORT && send.Valid()
    modifies can
    ensures can.Inv() && old(can.completed) <= can.completed && old(can.moments) <= can.moments
    ensures can.accepted == old(can.accepted) + if m == NO_MAILBOX then [] else [send.Sent()]
    ensures Found(can.moments, |old(can.moments)| - 1, m)
  {
    match send
    case Classical(message, data) =>
      var msg := new TxMsg(message, data, 0);
      m := Transmit(can, msg);
    case Fd(message, address) =>
      var msg := new TxMsg(message, [], address);
      m := TransmitFd(can, msg);
  }

  /** Some completions, and then a call. */
  method SendOne(can: Mailboxes<TxBox, Frame>, send: Sending) returns (m: int, ghost span: Span)
    requires can.Inv() && can.port == CAN_PORT && send.Valid()
    modifies can
    ensures can.Inv() && old(can.completed) <= can.completed && old(can.moments) <= can.moments
    ensures can.accepted == old(can.accepted) + if m == NO_MAILBOX then [] else [send.Sent()]
    ensures |old(can.moments)| <= span.from + 1 && AnsweredIn(can.moments, span, m)
  {
    can.Hardware();
    ghost var from := |can.moments| - 1;
    m := Call(can, send);
    span := Span(from, |can.moments|);
    assert can.moments[..|can.moments|] == can.moments;
  }

  /** Any run of both transmit functions, with the controller completing requests at any time: the frames accepted are
      those of the calls that returned a mailbox, in order; that mailbox was empty during the call, and those before it
      were occupied. */
  method Session(can: Mailboxes<TxBox, Frame>, sends: seq<Sending>)
    returns (mailboxes: seq<int>, ghost spans: seq<Span>)
    requires can.Inv() && can.port == CAN_PORT && forall s :: s in sends ==> s.Valid()
    modifies can
    ensures can.Inv() && old(can.completed) <= can.completed && old(can.moments) <= can.moments
    ensures |mailboxes| == |sends| && can.accepted == old(can.accepted) + TakenFrames(sends, mailboxes)
    ensures Answered(mailboxes, can.moments, |old(can.moments)| - 1, spans)
  {
    mailboxes, spans := [], [];
    ghost var since := |can.moments| - 1;
    for i := 0 to |sends|
      invariant can.Inv() && can.port == CAN_PORT
      invariant old(can.completed) <= can.completed && old(can.moments) <= can.moments
      invariant Answered(mailboxes, can.moments, since, spans)
      invariant |mailboxes| == i && can.accepted == old(can.accepted) + TakenFrames(sends[..i], mailboxes)
    {
      ghost var moments, accepted := can.moments, can.accepted;
      var m;
      ghost var span;
      m, span := SendOne(can, sends[i]);
      AnsweredOneMore(mailboxes, moments, can.moments, since, spans, m, span);
      TakenOneMore(old(can.accepted), accepted, sends, i, mailboxes, m);
      mailboxes, spans := mailboxes + [m], spans + [span];
    }
    assert sends[..|sends|] == sends;
  }
}
