/** dcm.c: the per-slot PDP session table, the transaction id and the messages made from them. */
module Dcm {
  import opened Bytes
  import opened Options
  import opened Tlvs
  import opened Walk
  import opened QmiUtil
  import Inet

  const MAX_SIM_SLOTS := 2
  const OUTBUFF_SIZE := 1024

  const IMS_DCM_PDP_ACTIVATE: Word := 0x0020
  const IMS_DCM_LINK_ADD: Word := 0x0023
  const IMS_DCM_REGISTER: Word := 0x002e
  const IMS_DCM_ENABLE_STATUS: Word := 0x0034
  const IMS_DCM_CLEAR: Word := 0x0033

  const RESPONSE: Byte := 0x02
  const INDICATION: Byte := 0x04

  datatype PdpSession = PdpSession(
    internalPdpId: Byte,
    sequenceId: DWord,
    instanceId: DWord,
    slotId: DWord,
    subscriptionId: DWord)

  const BLANK_SESSION := PdpSession(0, 0, 0, 0, 0)

  datatype RawServer = Server(transactionId: Word, sessions: seq<PdpSession>)

  type Server = v: RawServer | |v.sessions| == MAX_SIM_SLOTS
    witness Server(99, [BLANK_SESSION, BLANK_SESSION])

  const INITIAL: Server := Server(99, [BLANK_SESSION, BLANK_SESSION])

  // ---- C strings ---------------------------------------------------------------------

  /** `strlen`. */
  function StrLen(b: seq<Byte>): (n: nat)
    requires 0 in b
    ensures n < |b| && b[n] == 0 && forall i :: 0 <= i < n ==> b[i] != 0
  {
    if b[0] == 0 then 0 else 1 + StrLen(b[1..])
  }

  function CText(b: seq<Byte>): seq<Byte>
    requires 0 in b
  {
    b[..StrLen(b)]
  }

  // ---- what an activation request asks for ----------------------------------------------

  /** The fields of interest; the sequence is kept as its low byte, the others whole. */
  datatype Activation = Activation(
    sequence: Option<Byte>,
    subscription: Option<DWord>,
    slot: Option<DWord>,
    instance: Option<DWord>)

  const TLV_SEQUENCE: Byte := 0x10
  const TLV_SUBSCRIPTION: Byte := 0x11
  const TLV_SLOT: Byte := 0x12
  const TLV_INSTANCE: Byte := 0x13

  /** The lookup returns, and a value of `width` bytes can be read behind what it finds. */
  ghost predicate Fetchable(b: seq<Byte>, len: nat, id: Byte, width: nat) {
    && Inside(b, len, ById(id))
    && Returns(b, len, ById(id))
    && forall offset: Word :: LookupIs(b, len, id, offset) ==> offset == 0 || offset + 3 + width <= |b|
  }

  ghost function Lookup(b: seq<Byte>, len: nat, id: Byte): (offset: Word)
    requires Inside(b, len, ById(id)) && Returns(b, len, ById(id))
    ensures LookupIs(b, len, id, offset)
  {
    var n: nat :| !Walked(b, len, ById(id), n).At?;
    LookupResult(Walked(b, len, ById(id), n))
  }

  lemma {:induction false} LookupUnique(b: seq<Byte>, len: nat, id: Byte, offset: Word)
    requires Inside(b, len, ById(id)) && Returns(b, len, ById(id))
    requires LookupIs(b, len, id, offset)
    ensures offset == Lookup(b, len, id)
  {
    var n: nat :| !Walked(b, len, ById(id), n).At? && offset == LookupResult(Walked(b, len, ById(id), n));
    var m: nat :| !Walked(b, len, ById(id), m).At? &&
                  Lookup(b, len, id) == LookupResult(Walked(b, len, ById(id), m));
    OutcomeUnique(b, len, ById(id), n, m);
  }

  ghost function Field8(b: seq<Byte>, len: nat, id: Byte): Option<Byte>
    requires Fetchable(b, len, id, 1)
  {
    var offset := Lookup(b, len, id);
    if offset > 0 then Some(b[offset + 3]) else None
  }

  ghost function Field32(b: seq<Byte>, len: nat, id: Byte): Option<DWord>
    requires Fetchable(b, len, id, 4)
  {
    var offset := Lookup(b, len, id);
    if offset > 0 then Some(Get32(b, offset + 3)) else None
  }

  ghost predicate ActivationReadable(b: seq<Byte>, len: nat) {
    && Fetchable(b, len, TLV_SEQUENCE, 1)
    && Fetchable(b, len, TLV_SUBSCRIPTION, 4)
    && Fetchable(b, len, TLV_SLOT, 4)
    && Fetchable(b, len, TLV_INSTANCE, 4)
  }

  /** The activation as the handler picks it out of raw bytes. */
  ghost function ActivationIn(b: seq<Byte>, len: nat): Activation
    requires ActivationReadable(b, len)
  {
    Activation(Field8(b, len, TLV_SEQUENCE), Field32(b, len, TLV_SUBSCRIPTION),
               Field32(b, len, TLV_SLOT), Field32(b, len, TLV_INSTANCE))
  }

  predicate Wide(v: Option<seq<Byte>>, width: nat) {
    v.Some? ==> width <= |v.value|
  }

  /** Every field that is present is wide enough for the type it is read as. */
  predicate WellFormed(ts: seq<Tlv>) {
    && Wide(ValueOf(ts, TLV_SEQUENCE), 1)
    && Wide(ValueOf(ts, TLV_SUBSCRIPTION), 4)
    && Wide(ValueOf(ts, TLV_SLOT), 4)
    && Wide(ValueOf(ts, TLV_INSTANCE), 4)
  }

  function AsDWord(v: Option<seq<Byte>>): Option<DWord>
    requires Wide(v, 4)
  {
    match v case Some(s) => Some(Get32(s, 0)) case None => None
  }

  /** The activation an item list means. */
  function ActivationOf(ts: seq<Tlv>): Activation
    requires WellFormed(ts)
  {
    Activation(match ValueOf(ts, TLV_SEQUENCE) case Some(s) => Some(s[0]) case None => None,
               AsDWord(ValueOf(ts, TLV_SUBSCRIPTION)),
               AsDWord(ValueOf(ts, TLV_SLOT)),
               AsDWord(ValueOf(ts, TLV_INSTANCE)))
  }

  function SlotOf(a: Activation): DWord {
    match a.slot case Some(s) => s case None => 0
  }

  // ---- the table ----------------------------------------------------------------------

  function Updated(e: PdpSession, a: Activation): PdpSession {
    PdpSession(
      e.internalPdpId,
      match a.sequence { case Some(v) => v case None => e.sequenceId },
      match a.instance { case Some(v) => v case None => e.instanceId },
      match a.slot { case Some(v) => v case None => e.slotId },
      match a.subscription { case Some(v) => v case None => e.subscriptionId })
  }

  /** The table after an activation; the slot must be one the table has. */
  function Activate(sv: Server, a: Activation): Server
    requires SlotOf(a) < MAX_SIM_SLOTS
  {
    var s := SlotOf(a);
    sv.(sessions := sv.sessions[s := Updated(sv.sessions[s], a)])
  }

  /** The entry a slot resolves to: the last one that carries its number. */
  function Resolve(es: seq<PdpSession>, slot: DWord): (r: Option<nat>)
    ensures r.Some? ==> r.value < |es| && es[r.value].slotId == slot &&
                        forall i :: r.value < i < |es| ==> es[i].slotId != slot
    ensures r.None? ==> forall i :: 0 <= i < |es| ==> es[i].slotId != slot
  {
    if es == [] then None
    else if es[|es| - 1].slotId == slot then Some(|es| - 1)
    else Resolve(es[..|es| - 1], slot)
  }

  function NextTransaction(id: Word): Word {
    if id == 99 then 1 else (id + 1) % 0x1_0000
  }

  // ---- messages -----------------------------------------------------------------------

  const SUCCESS: Tlv := Item(0x02, [0, 0, 0, 0])

  function AddressBlock(address: seq<Byte>): Tlv
    requires |address| < 0x100
  {
    Item(0x11, Le32(0) + [|address|] + address)
  }

  function IndicationItems(e: PdpSession, address: seq<Byte>): seq<Tlv>
    requires |address| < 0x100
  {
    [SUCCESS, Item(0x01, [e.internalPdpId]), Item(0x10, Le32(e.sequenceId)), AddressBlock(address),
     Item(0x12, Le32(e.instanceId))]
  }

  function Indication(transaction: Word, e: PdpSession, address: seq<Byte>): seq<Byte>
    requires |address| < 0x100
  {
    Header(INDICATION, transaction, IMS_DCM_PDP_ACTIVATE, 33 + |address|)
    + EncodeAll(IndicationItems(e, address))
  }

  function ResponseItems(e: PdpSession): seq<Tlv> {
    [SUCCESS, Item(0x10, [e.internalPdpId]), Item(0x11, Le32(e.sequenceId)), Item(0x12, Le32(e.instanceId))]
  }

  function ActivateResponse(transaction: Word, e: PdpSession): seq<Byte> {
    Header(RESPONSE, transaction, IMS_DCM_PDP_ACTIVATE, 25) + EncodeAll(ResponseItems(e))
  }

  function Acknowledge(transaction: Word, message: Word): seq<Byte> {
    Header(RESPONSE, transaction, message, 7) + Encode(SUCCESS)
  }

  /** A notification: the transaction id moves and an indication goes out, or neither happens. */
  function Notify(sv: Server, slot: DWord, address: seq<Byte>): (Server, Option<seq<Byte>>)
    requires |address| < 0x100
  {
    match Resolve(sv.sessions, slot)
    case None => (sv, None)
    case Some(k) =>
      var id := NextTransaction(sv.transactionId);
      (sv.(transactionId := id), Some(Indication(id, sv.sessions[k], address)))
  }

  predicate Acknowledged(message: Word) {
    message in {IMS_DCM_LINK_ADD, IMS_DCM_REGISTER, IMS_DCM_ENABLE_STATUS, IMS_DCM_CLEAR}
  }

  datatype Handled = Handled(server: Server, start: Option<DWord>, reply: Option<seq<Byte>>)

  /** What a request packet does: the new table, the session start it asks for, the bytes sent back. */
  ghost function Handle(sv: Server, b: seq<Byte>, len: nat): Handled
    requires HEADER_SIZE <= |b|
    requires GetQmiMessageId(b) == IMS_DCM_PDP_ACTIVATE ==>
               ActivationReadable(b, len) && SlotOf(ActivationIn(b, len)) < MAX_SIM_SLOTS
  {
    var message, transaction := GetQmiMessageId(b), GetQmiTransactionId(b);
    if message == IMS_DCM_PDP_ACTIVATE then
      var a := ActivationIn(b, len);
      var after := Activate(sv, a);
      Handled(after, Some(SlotOf(a)), Some(ActivateResponse(transaction, after.sessions[SlotOf(a)])))
    else if Acknowledged(message) then
      Handled(sv, None, Some(Acknowledge(transaction, message)))
    else
      Handled(sv, None, None)
  }

  lemma {:induction false} LengthPatched(kind: Byte, transaction: Word, message: Word, length: Word, rest: seq<Byte>)
    ensures Overlay(Header(kind, transaction, message, 0) + rest, 5, Le16(length)) ==
            Header(kind, transaction, message, length) + rest
  {
  }

  /** One packed structure laid down at the running length of an output buffer. */
  method Append(out: array<Byte>, len: nat, data: seq<Byte>, ghost prefix: seq<Byte>) returns (newLen: nat)
    requires prefix <= out[..] && len == |prefix| && len + |data| <= out.Length
    modifies out
    ensures newLen == len + |data| && prefix + data <= out[..]
  {
    OverlayExtends(out[..], prefix, data);
    Put(out, len, data);
    return len + |data|;
  }

  /** The next item of a message, behind its header and the items before it. */
  method AppendItem(out: array<Byte>, len: nat, t: Tlv, ghost h: seq<Byte>, ghost ts: seq<Tlv>, ghost k: nat)
    returns (newLen: nat)
    requires k < |ts| && ts[k] == t
    requires h + EncodeAll(ts[..k]) <= out[..] && len == |h + EncodeAll(ts[..k])|
    requires len + 3 + |t.value| <= out.Length
    modifies out
    ensures h + EncodeAll(ts[..k + 1]) <= out[..] && newLen == |h + EncodeAll(ts[..k + 1])|
    ensures newLen == len + 3 + |t.value|
  {
    EncodeNext(ts, k);
    assert h + EncodeAll(ts[..k]) + Encode(t) == h + EncodeAll(ts[..k + 1]);
    newLen := Append(out, len, Encode(t), h + EncodeAll(ts[..k]));
  }

  lemma {:induction false} EncodeNext(ts: seq<Tlv>, k: nat)
    requires k < |ts|
    ensures EncodeAll(ts[..k + 1]) == EncodeAll(ts[..k]) + Encode(ts[k])
  {
    assert ts[..k + 1] == ts[..k] + [ts[k]];
    EncodeAllConcat(ts[..k], [ts[k]]);
    assert EncodeAll([ts[k]]) == Encode(ts[k]) + [];
  }

  /** The length field is filled in last, over the zeros it was allocated with. */
  method Finish(out: array<Byte>, len: nat, kind: Byte, transaction: Word, message: Word, ghost body: seq<Byte>)
    returns (msg: seq<Byte>)
    requires HEADER_SIZE + |body| == len <= out.Length && len < 0x1_0000
    requires Header(kind, transaction, message, 0) + body <= out[..]
    modifies out
    ensures msg == Header(kind, transaction, message, |body|) + body
  {
    OverlayInside(out[..], Header(kind, transaction, message, 0) + body, 5, Le16(|body|));
    LengthPatched(kind, transaction, message, |body|, body);
    Put(out, 5, Le16(len - HEADER_SIZE));
    msg := out[..len];
  }

  // ---- the server object ------------------------------------------------------------------

  class QrtrServer {
    var transactionId: Word
    const pdpSession: array<PdpSession>

    ghost predicate Valid()
      reads this
    {
      pdpSession.Length == MAX_SIM_SLOTS
    }

    ghost function Value(): Server
      requires Valid()
      reads this, pdpSession
    {
      Server(transactionId, pdpSession[..])
    }

    /** `initialize_qmi_server`: a zeroed table and a transaction id about to start over. */
    constructor ()
      ensures Valid() && fresh(pdpSession)
      ensures Value() == INITIAL
    {
      transactionId := 99;
      pdpSession := new PdpSession[MAX_SIM_SLOTS](_ => BLANK_SESSION);
    }

    method NotifyPdpIpAddressChange(slotId: DWord, ipAddress: array<Byte>) returns (sent: Option<seq<Byte>>)
      requires Valid()
      requires ipAddress.Length == Inet.IP_BUFFER_SIZE && 0 in ipAddress[..]
      modifies `transactionId
      ensures (Value(), sent) == Notify(old(Value()), slotId, CText(ipAddress[..]))
    {
      var active := -1;
      for i := 0 to MAX_SIM_SLOTS
        invariant -1 <= active < i
        invariant active == -1 ==> forall j :: 0 <= j < i ==> pdpSession[j].slotId != slotId
        invariant active >= 0 ==> pdpSession[active].slotId == slotId &&
                                  forall j :: active < j < i ==> pdpSession[j].slotId != slotId
      {
        if slotId == pdpSession[i].slotId {
          active := i;
        }
      }
      if active == -1 {
        return None;
      }
      ghost var es := pdpSession[..];
      assert Resolve(es, slotId) == Some(active);
      if transactionId == 99 {
        transactionId := 1;
      } else {
        transactionId := (transactionId + 1) % 0x1_0000;
      }
      var e, address := pdpSession[active], CText(ipAddress[..]);
      var msg := BuildIndication(transactionId, e, address);
      return Some(msg);
    }

    /** The table update of the PDP_ACTIVATE branch; every lookup starts from the packet again. */
    method UpdateSession(inbuff: array<Byte>, len: nat) returns (slot: DWord)
      requires Valid()
      requires ActivationReadable(inbuff[..], len) && SlotOf(ActivationIn(inbuff[..], len)) < MAX_SIM_SLOTS
      modifies pdpSession
      ensures slot == SlotOf(ActivationIn(old(inbuff[..]), len))
      ensures Value() == Activate(old(Value()), ActivationIn(old(inbuff[..]), len))
    {
      slot := 0;
      var found, value := FetchU32(inbuff, len, TLV_SLOT);
      if found { slot := value; }
      var e := pdpSession[slot];
      var asked, sequence := FetchU8(inbuff, len, TLV_SEQUENCE);
      if asked { e := e.(sequenceId := sequence); }
      found, value := FetchU32(inbuff, len, TLV_SUBSCRIPTION);
      if found { e := e.(subscriptionId := value); }
      found, value := FetchU32(inbuff, len, TLV_SLOT);
      if found { e := e.(slotId := value); }
      found, value := FetchU32(inbuff, len, TLV_INSTANCE);
      if found { e := e.(instanceId := value); }
      pdpSession[slot] := e;
    }

    method HandleIncomingRequest(inbuff: array<Byte>, len: nat)
      returns (reply: Option<seq<Byte>>, start: Option<DWord>)
      requires Valid() && HEADER_SIZE <= inbuff.Length
      requires GetQmiMessageId(inbuff[..]) == IMS_DCM_PDP_ACTIVATE ==>
        ActivationReadable(inbuff[..], len) && SlotOf(ActivationIn(inbuff[..], len)) < MAX_SIM_SLOTS
      modifies pdpSession
      ensures Handled(Value(), start, reply) == Handle(old(Value()), old(inbuff[..]), len)
    {
      var message, transaction := GetQmiMessageId(inbuff[..]), GetQmiTransactionId(inbuff[..]);
      if message == IMS_DCM_PDP_ACTIVATE {
        var slot := UpdateSession(inbuff, len);
        var msg := BuildActivateResponse(transaction, pdpSession[slot]);
        return Some(msg), Some(slot);
      } else if Acknowledged(message) {
        var msg := BuildAcknowledge(transaction, message);
        return Some(msg), None;
      }
      return None, None;
    }
  }

  method FetchU8(inbuff: array<Byte>, len: nat, id: Byte) returns (found: bool, value: Byte)
    requires Fetchable(inbuff[..], len, id, 1)
    ensures Field8(inbuff[..], len, id) == if found then Some(value) else None
  {
    var offset := GetTlvOffsetById(inbuff, len, id);
    LookupUnique(inbuff[..], len, id, offset);
    if offset > 0 { return true, inbuff[offset + 3]; }
    return false, 0;
  }

  method FetchU32(inbuff: array<Byte>, len: nat, id: Byte) returns (found: bool, value: DWord)
    requires Fetchable(inbuff[..], len, id, 4)
    ensures Field32(inbuff[..], len, id) == if found then Some(value) else None
  {
    var offset := GetTlvOffsetById(inbuff, len, id);
    LookupUnique(inbuff[..], len, id, offset);
    if offset > 0 { return true, Get32(inbuff[..], offset as int + 3); }
    return false, 0;
  }

  /** A zeroed output buffer with the header fields known at the start. */
  method Begin(kind: Byte, transaction: Word, message: Word) returns (outbuff: array<Byte>, len: nat)
    ensures fresh(outbuff) && outbuff.Length == OUTBUFF_SIZE && len == HEADER_SIZE
    ensures Header(kind, transaction, message, 0) + EncodeAll([]) <= outbuff[..]
  {
    outbuff := new Byte[OUTBUFF_SIZE](_ => 0);
    len := Append(outbuff, 0, Header(kind, transaction, message, 0), []);
    ghost var h := Header(kind, transaction, message, 0);
    assert [] + h == h == h + EncodeAll([]);
  }

  method BuildIndication(transaction: Word, e: PdpSession, address: seq<Byte>) returns (msg: seq<Byte>)
    requires |address| < Inet.IP_BUFFER_SIZE
    ensures msg == Indication(transaction, e, address)
  {
    ghost var h := Header(INDICATION, transaction, IMS_DCM_PDP_ACTIVATE, 0);
    ghost var ts := IndicationItems(e, address);
    var outbuff, len := Begin(INDICATION, transaction, IMS_DCM_PDP_ACTIVATE);
    assert ts[..0] == [] && ts[..5] == ts;
    len := AppendItem(outbuff, len, SUCCESS, h, ts, 0);
    len := AppendItem(outbuff, len, Item(0x01, [e.internalPdpId]), h, ts, 1);
    len := AppendItem(outbuff, len, Item(0x10, Le32(e.sequenceId)), h, ts, 2);
    len := AppendItem(outbuff, len, AddressBlock(address), h, ts, 3);
    len := AppendItem(outbuff, len, Item(0x12, Le32(e.instanceId)), h, ts, 4);
    msg := Finish(outbuff, len, INDICATION, transaction, IMS_DCM_PDP_ACTIVATE, EncodeAll(ts));
  }

  method BuildActivateResponse(transaction: Word, e: PdpSession) returns (msg: seq<Byte>)
    ensures msg == ActivateResponse(transaction, e)
  {
    ghost var h := Header(RESPONSE, transaction, IMS_DCM_PDP_ACTIVATE, 0);
    ghost var ts := ResponseItems(e);
    var outbuff, len := Begin(RESPONSE, transaction, IMS_DCM_PDP_ACTIVATE);
    assert ts[..0] == [] && ts[..4] == ts;
    len := AppendItem(outbuff, len, SUCCESS, h, ts, 0);
    len := AppendItem(outbuff, len, Item(0x10, [e.internalPdpId]), h, ts, 1);
    len := AppendItem(outbuff, len, Item(0x11, Le32(e.sequenceId)), h, ts, 2);
    len := AppendItem(outbuff, len, Item(0x12, Le32(e.instanceId)), h, ts, 3);
    msg := Finish(outbuff, len, RESPONSE, transaction, IMS_DCM_PDP_ACTIVATE, EncodeAll(ts));
  }

  method BuildAcknowledge(transaction: Word, message: Word) returns (msg: seq<Byte>)
    ensures msg == Acknowledge(transaction, message)
  {
    ghost var h := Header(RESPONSE, transaction, message, 0);
    var outbuff, len := Begin(RESPONSE, transaction, message);
    assert [SUCCESS][..0] == [] && [SUCCESS][..1] == [SUCCESS];
    len := AppendItem(outbuff, len, SUCCESS, h, [SUCCESS], 0);
    assert EncodeAll([SUCCESS]) == Encode(SUCCESS) + [];
    msg := Finish(outbuff, len, RESPONSE, transaction, message, Encode(SUCCESS));
  }
}
