/** What dcm.c answers: every request is followed to the bytes of its reply, and those are read back by the walker. */
module DcmReplies {
  import opened Bytes
  import opened Options
  import opened Tlvs
  import opened Walk
  import opened QmiUtil
  import Inet
  import opened Dcm
  import opened DcmMessages

  function OrElse<T>(v: Option<T>, stored: T): T {
    match v case Some(x) => x case None => stored
  }

  /** A reply with the header of a response to this request. */
  predicate Echoes(r: seq<Byte>, b: seq<Byte>)
    requires HEADER_SIZE <= |r| && HEADER_SIZE <= |b|
  {
    && GetQmiMessageType(r) == 0x02
    && GetQmiMessageId(r) == GetQmiMessageId(b)
    && GetQmiTransactionId(r) == GetQmiTransactionId(b)
    && GetQmiLength(r) as int == |r| - HEADER_SIZE
  }

  /** Read by the walker, with anything behind it, the message is a success and says this of a session. */
  ghost predicate Replies(r: seq<Byte>, slack: seq<Byte>, pdpId: Byte, sequence: DWord, instance: DWord) {
    var c, len := r + slack, |r|;
    && ResultReadable(c, len) && OpResultIs(c, len, 0)
    && Fetchable(c, len, 0x10, 1) && Field8(c, len, 0x10) == Some(pdpId)
    && Fetchable(c, len, 0x11, 4) && Field32(c, len, 0x11) == Some(sequence)
    && Fetchable(c, len, 0x12, 4) && Field32(c, len, 0x12) == Some(instance)
  }

  lemma {:induction false} HeaderOfReply(r: seq<Byte>, transaction: Word, message: Word, rest: seq<Byte>)
    requires |rest| < 0x1_0000 && r == Header(0x02, transaction, message, |rest|) + rest
    ensures GetQmiMessageType(r) == 0x02 && GetQmiTransactionId(r) == transaction
    ensures GetQmiMessageId(r) == message && GetQmiLength(r) as int == |r| - HEADER_SIZE
  {
    var h := Header(0x02, transaction, message, |rest|);
    assert r[0..HEADER_SIZE] == h;
    HeaderFields(r, 0x02, transaction, message, |rest|);
  }

  lemma {:induction false} ResponseReplies(transaction: Word, e: PdpSession, slack: seq<Byte>)
    ensures var r := ActivateResponse(transaction, e);
            |r| == 32 && GetQmiMessageType(r) == 0x02 && GetQmiTransactionId(r) == transaction &&
            GetQmiMessageId(r) == 0x0020 && GetQmiLength(r) == 25 &&
            Replies(r, slack, e.internalPdpId, e.sequenceId, e.instanceId)
  {
    ResponseRoundTrip(transaction, e, slack);
    HeaderOfReply(ActivateResponse(transaction, e), transaction, 0x0020, EncodeAll(ResponseItems(e)));
  }

  /**
   An activation request of whole items is answered by 32 bytes that echo its
   message and transaction and carry its own sequence and instance where it has
   them, and the old values of the entry of its slot elsewhere. What it has is
   stored in that entry, and nothing else changes.
   */
  lemma {:induction false} ActivationAnswered(sv: Server, b: seq<Byte>, len: nat, ts: seq<Tlv>, slack: seq<Byte>)
    requires HEADER_SIZE <= |b| && GetQmiMessageId(b) == 0x0020
    requires Carries(b, len, ts) && WellFormed(ts) && SlotOf(ActivationOf(ts)) < MAX_SIM_SLOTS
    ensures ActivationReadable(b, len) && ActivationIn(b, len) == ActivationOf(ts)
    ensures var a := ActivationOf(ts);
            var reply := Handle(sv, b, len).reply;
            var e := sv.sessions[SlotOf(a)];
            reply.Some? && |reply.value| == 32 && Echoes(reply.value, b) &&
            Replies(reply.value, slack, e.internalPdpId, OrElse(a.sequence, e.sequenceId),
                    OrElse(a.instance, e.instanceId))
    ensures var a := ActivationOf(ts);
            var s, h := SlotOf(a), Handle(sv, b, len);
            var e, d := sv.sessions[s], h.server.sessions[s];
            h.start == Some(s) && h.server.transactionId == sv.transactionId &&
            h.server.sessions[1 - s] == sv.sessions[1 - s] &&
            d.internalPdpId == e.internalPdpId && d.sequenceId == OrElse(a.sequence, e.sequenceId) &&
            d.subscriptionId == OrElse(a.subscription, e.subscriptionId) &&
            d.slotId == OrElse(a.slot, e.slotId) && d.instanceId == OrElse(a.instance, e.instanceId)
  {
    ActivationOfItems(b, len, ts);
    var a := ActivationOf(ts);
    ResponseReplies(GetQmiTransactionId(b), Activate(sv, a).sessions[SlotOf(a)], slack);
  }

  /**
   The four other requests are acknowledged: 14 bytes that echo message and
   transaction and are a success; the table stays and nothing is started. No
   other message is answered.
   */
  lemma {:induction false} OthersAnswered(sv: Server, b: seq<Byte>, len: nat, slack: seq<Byte>)
    requires HEADER_SIZE <= |b| && GetQmiMessageId(b) != 0x0020
    ensures var h, id := Handle(sv, b, len), GetQmiMessageId(b);
            h.server == sv && h.start.None? &&
            (h.reply.Some? <==> id == 0x0023 || id == 0x002e || id == 0x0033 || id == 0x0034) &&
            (h.reply.Some? ==>
               |h.reply.value| == 14 && Echoes(h.reply.value, b) && ResultReadable(h.reply.value + slack, 14) &&
               OpResultIs(h.reply.value + slack, 14, 0))
  {
    var id, transaction := GetQmiMessageId(b), GetQmiTransactionId(b);
    if Acknowledged(id) {
      AcknowledgeRoundTrip(transaction, id, slack);
      HeaderOfReply(Acknowledge(transaction, id), transaction, id, Encode(SUCCESS));
    }
  }

  // ---- byte by byte --------------------------------------------------------------------------------

  /** The activation request written out in dcm.h, lines 71-100: header, and items. */
  const EXAMPLE_HEADER: seq<Byte> := [0x00, 0x04, 0x00, 0x20, 0x00, 0x33, 0x00]
  const EXAMPLE_APN: seq<Byte> :=
    [0x01, 0x14, 0x00, 0x03, 0x69, 0x6d, 0x73, 0x00, 0x00, 0x00, 0x00, 0x02,
     0x00, 0x00, 0x00, 0x00, 0x00, 0x00, 0x00, 0x02, 0x00, 0xff, 0xff]
  const EXAMPLE_SEQUENCE: seq<Byte> := [0x10, 0x04, 0x00, 0x65, 0x00, 0x00, 0x00]
  const EXAMPLE_SUBSCRIPTION: seq<Byte> := [0x11, 0x04, 0x00, 0x00, 0x00, 0x00, 0x00]
  const EXAMPLE_SLOT: seq<Byte> := [0x12, 0x04, 0x00, 0x01, 0x00, 0x00, 0x00]
  const EXAMPLE_INSTANCE: seq<Byte> := [0x13, 0x04, 0x00, 0x01, 0x00, 0x00, 0x00]
  const EXAMPLE: seq<Byte> :=
    EXAMPLE_HEADER +
    (EXAMPLE_APN + (EXAMPLE_SEQUENCE + EXAMPLE_SUBSCRIPTION + EXAMPLE_SLOT + EXAMPLE_INSTANCE))

  /** Its answer from a server just started. */
  const EXAMPLE_REPLY: seq<Byte> :=
    [0x02, 0x04, 0x00, 0x20, 0x00, 0x19, 0x00, 0x02, 0x04, 0x00, 0x00, 0x00, 0x00, 0x00, 0x10, 0x01, 0x00, 0x00,
     0x11, 0x04, 0x00, 0x65, 0x00, 0x00, 0x00, 0x12, 0x04, 0x00, 0x01, 0x00, 0x00, 0x00]

  function ExampleItems(): seq<Tlv> {
    [Item(0x01, [0x03, 0x69, 0x6d, 0x73, 0x00, 0x00, 0x00, 0x00, 0x02] +
                [0x00, 0x00, 0x00, 0x00, 0x00, 0x00, 0x00, 0x02, 0x00, 0xff, 0xff]),
     Item(0x10, [0x65, 0x00, 0x00, 0x00]),
     Item(0x11, [0x00, 0x00, 0x00, 0x00]),
     Item(0x12, [0x01, 0x00, 0x00, 0x00]),
     Item(0x13, [0x01, 0x00, 0x00, 0x00])]
  }

  lemma {:induction false} ItemBytes(t: Tlv)
    requires |t.value| < 0x100
    ensures Encode(t) == [t.id, |t.value|, 0] + t.value
  {
  }

  lemma {:induction false} EncodeFour(ts: seq<Tlv>)
    requires |ts| == 4
    ensures EncodeAll(ts) == Encode(ts[0]) + Encode(ts[1]) + Encode(ts[2]) + Encode(ts[3])
  {
    var t1, t2, t3 := ts[1..], ts[2..], ts[3..];
    assert t1[1..] == t2 && t2[1..] == t3 && t3[1..] == [];
    assert t1[0] == ts[1] && t2[0] == ts[2] && t3[0] == ts[3];
    assert EncodeAll(t3) == Encode(ts[3]) + [];
    assert EncodeAll(t2) == Encode(ts[2]) + EncodeAll(t3);
    assert EncodeAll(t1) == Encode(ts[1]) + EncodeAll(t2);
  }

  lemma {:induction false} ExampleFields()
    ensures EncodeAll(ExampleItems()[1..]) ==
            EXAMPLE_SEQUENCE + EXAMPLE_SUBSCRIPTION + EXAMPLE_SLOT + EXAMPLE_INSTANCE
  {
    var ts := ExampleItems()[1..];
    EncodeFour(ts);
    FieldBytes(ts[0], EXAMPLE_SEQUENCE);
    FieldBytes(ts[1], EXAMPLE_SUBSCRIPTION);
    FieldBytes(ts[2], EXAMPLE_SLOT);
    FieldBytes(ts[3], EXAMPLE_INSTANCE);
  }

  lemma {:induction false} FieldBytes(t: Tlv, bytes: seq<Byte>)
    requires |t.value| == 4 && bytes == [t.id, 4, 0] + t.value
    ensures Encode(t) == bytes
  {
    ItemBytes(t);
  }

  lemma {:induction false} ExampleBody()
    ensures EncodeAll(ExampleItems()) ==
            EXAMPLE_APN + (EXAMPLE_SEQUENCE + EXAMPLE_SUBSCRIPTION + EXAMPLE_SLOT + EXAMPLE_INSTANCE)
  {
    ExampleFields();
    ItemBytes(ExampleItems()[0]);
    assert Encode(ExampleItems()[0]) == EXAMPLE_APN;
  }

  lemma {:induction false} BodyBehind(h: seq<Byte>, body: seq<Byte>, slack: seq<Byte>)
    ensures Lies(h + body + slack, |h|, body)
  {
    assert (h + body + slack)[|h|..|h| + |body|] == body;
  }

  lemma {:induction false} ExampleCarries(slack: seq<Byte>)
    ensures |EXAMPLE| == 58 && Carries(EXAMPLE + slack, 58, ExampleItems())
    ensures GetQmiMessageId(EXAMPLE + slack) == 0x0020 && GetQmiTransactionId(EXAMPLE + slack) == 4
  {
    ExampleBody();
    BodyBehind(EXAMPLE_HEADER, EncodeAll(ExampleItems()), slack);
    assert (EXAMPLE + slack)[..HEADER_SIZE] == EXAMPLE_HEADER;
  }

  lemma {:induction false} ExampleMeans()
    ensures WellFormed(ExampleItems())
    ensures ActivationOf(ExampleItems()) == Activation(Some(0x65), Some(0), Some(1), Some(1))
  {
    var ts := ExampleItems();
    FirstIs(ts, 1);
    FirstIs(ts, 2);
    FirstIs(ts, 3);
    FirstIs(ts, 4);
  }

  lemma {:induction false} ReplyBytes(e: PdpSession)
    requires e.internalPdpId == 0 && e.sequenceId == 0x65 && e.instanceId == 1
    ensures ActivateResponse(4, e) == EXAMPLE_REPLY
  {
    var ts := ResponseItems(e);
    EncodeFour(ts);
    ItemBytes(ts[0]);
    ItemBytes(ts[1]);
    ItemBytes(ts[2]);
    ItemBytes(ts[3]);
  }

  lemma {:induction false} ExampleActivated()
    ensures var after := Activate(INITIAL, Activation(Some(0x65), Some(0), Some(1), Some(1)));
            after.sessions == [PdpSession(0, 0, 0, 0, 0), PdpSession(0, 0x65, 1, 1, 0)]
  {
  }

  /** A request that carries an activation is handled by that activation. */
  lemma {:induction false} HandledBy(sv: Server, b: seq<Byte>, len: nat, a: Activation)
    requires HEADER_SIZE <= |b| && GetQmiMessageId(b) == 0x0020
    requires ActivationReadable(b, len) && ActivationIn(b, len) == a && SlotOf(a) < MAX_SIM_SLOTS
    ensures var h := Handle(sv, b, len);
            h.start == Some(SlotOf(a)) && h.server == Activate(sv, a) &&
            h.reply == Some(ActivateResponse(GetQmiTransactionId(b), h.server.sessions[SlotOf(a)]))
  {
  }

  /** Byte for byte: the request of dcm.h, as the first one, starts slot 1 and is answered for slot 1. */
  lemma {:induction false} ExampleAnswered(slack: seq<Byte>)
    ensures ActivationReadable(EXAMPLE + slack, 58)
    ensures SlotOf(ActivationIn(EXAMPLE + slack, 58)) < MAX_SIM_SLOTS
    ensures GetQmiMessageId(EXAMPLE + slack) == 0x0020
    ensures var h := Handle(INITIAL, EXAMPLE + slack, 58);
            h.start == Some(1) && h.reply == Some(EXAMPLE_REPLY) &&
            h.server.sessions == [PdpSession(0, 0, 0, 0, 0), PdpSession(0, 0x65, 1, 1, 0)]
  {
    var b := EXAMPLE + slack;
    ExampleCarries(slack);
    ExampleMeans();
    ActivationOfItems(b, 58, ExampleItems());
    ExampleActivated();
    HandledBy(INITIAL, b, 58, Activation(Some(0x65), Some(0), Some(1), Some(1)));
    ReplyBytes(PdpSession(0, 0x65, 1, 1, 0));
  }

  // ---- the indication that follows -------------------------------------------------------------------

  /** The session of that request has got the address 192.168.0.1: the first indication, byte by byte. */
  const INDICATION_HEADER: seq<Byte> := [0x04, 0x01, 0x00, 0x20, 0x00, 0x2C, 0x00]
  const INDICATION_RESULT: seq<Byte> := [0x02, 0x04, 0x00, 0x00, 0x00, 0x00, 0x00]
  const INDICATION_PDP: seq<Byte> := [0x01, 0x01, 0x00, 0x00]
  const INDICATION_SEQUENCE: seq<Byte> := [0x10, 0x04, 0x00, 0x65, 0x00, 0x00, 0x00]
  const INDICATION_ADDRESS: seq<Byte> :=
    [0x11, 0x10, 0x00, 0x00, 0x00, 0x00, 0x00, 0x0B, 49, 57, 50, 46, 49, 54, 56, 46, 48, 46, 49]
  const INDICATION_INSTANCE: seq<Byte> := [0x12, 0x04, 0x00, 0x01, 0x00, 0x00, 0x00]
  const EXAMPLE_INDICATION: seq<Byte> :=
    INDICATION_HEADER +
    (INDICATION_RESULT + INDICATION_PDP + INDICATION_SEQUENCE + INDICATION_ADDRESS + INDICATION_INSTANCE)

  const EXAMPLE_ADDRESS: seq<Byte> := [49, 57, 50, 46, 49, 54, 56, 46, 48, 46, 49]

  lemma {:induction false} IndicationBytes(e: PdpSession)
    requires e.internalPdpId == 0 && e.sequenceId == 0x65 && e.instanceId == 1
    ensures Indication(1, e, EXAMPLE_ADDRESS) == EXAMPLE_INDICATION
  {
    var ts := IndicationItems(e, EXAMPLE_ADDRESS);
    EncodeFive(ts);
    ItemIs(ts[0], INDICATION_RESULT);
    ItemIs(ts[1], INDICATION_PDP);
    ItemIs(ts[2], INDICATION_SEQUENCE);
    AddressIs();
    ItemIs(ts[4], INDICATION_INSTANCE);
    assert Header(INDICATION, 1, IMS_DCM_PDP_ACTIVATE, 44) == INDICATION_HEADER;
  }

  lemma {:induction false} AddressIs()
    ensures Encode(AddressBlock(EXAMPLE_ADDRESS)) == INDICATION_ADDRESS
  {
    ItemIs(AddressBlock(EXAMPLE_ADDRESS), INDICATION_ADDRESS);
  }

  lemma {:induction false} ItemIs(t: Tlv, bytes: seq<Byte>)
    requires |t.value| < 0x100 && bytes == [t.id, |t.value|, 0] + t.value
    ensures Encode(t) == bytes
  {
    ItemBytes(t);
  }

  lemma {:induction false} EncodeFive(ts: seq<Tlv>)
    requires |ts| == 5
    ensures EncodeAll(ts) == Encode(ts[0]) + Encode(ts[1]) + Encode(ts[2]) + Encode(ts[3]) + Encode(ts[4])
  {
    EncodeFour(ts[1..]);
    assert ts[1..][0] == ts[1] && ts[1..][1] == ts[2] && ts[1..][2] == ts[3] && ts[1..][3] == ts[4];
    assert EncodeAll(ts) == Encode(ts[0]) + EncodeAll(ts[1..]);
  }

  lemma {:induction false} PrintedAddress()
    ensures Inet.QmiInet4Ntop(0xC0A8_0001) == EXAMPLE_ADDRESS
  {
    Inet.PrintedAs();
    assert forall i :: 0 <= i < 11 ==> Inet.Ascii("192.168.0.1")[i] == EXAMPLE_ADDRESS[i];
  }

  lemma {:induction false} FindsSlotOne(sv: Server)
    requires sv.sessions == [PdpSession(0, 0, 0, 0, 0), PdpSession(0, 0x65, 1, 1, 0)]
    ensures Resolve(sv.sessions, 1) == Some(1)
  {
  }

  /** The first notification of that session takes transaction 1 and sends those bytes. */
  lemma {:induction false} ExampleNotified(sv: Server)
    requires sv.transactionId == 99
    requires sv.sessions == [PdpSession(0, 0, 0, 0, 0), PdpSession(0, 0x65, 1, 1, 0)]
    ensures Notify(sv, 1, Inet.QmiInet4Ntop(0xC0A8_0001)) == (sv.(transactionId := 1), Some(EXAMPLE_INDICATION))
  {
    PrintedAddress();
    FindsSlotOne(sv);
    IndicationBytes(sv.sessions[1]);
  }
}
