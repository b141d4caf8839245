/** What dcm.c messages mean: requests whatever the order of their items, indications read back. */
module DcmMessages {
  import opened Bytes
  import opened Options
  import opened Tlvs
  import opened Walk
  import opened QmiUtil
  import opened Dcm

  // ---- requests -----------------------------------------------------------------------

  /** The first item with an id is fetched, whatever else the packet carries. */
  lemma {:induction false} FetchesValue(b: seq<Byte>, len: nat, ts: seq<Tlv>, id: Byte, width: nat)
    requires Carries(b, len, ts) && width > 0
    requires Wide(ValueOf(ts, id), width)
    ensures Fetchable(b, len, id, width)
    ensures match ValueOf(ts, id)
            case Some(v) => Lookup(b, len, id) > 0 && Lies(b, Lookup(b, len, id) + 3, v)
            case None => Lookup(b, len, id) == 0
  {
    if len < MIN_SIZE {
      TooSmallForValue(b, len, ts, id, width);
    } else {
      WholeItemsReturn(b, len, ts, ById(id));
      forall offset: Word | LookupIs(b, len, id, offset)
        ensures match ValueOf(ts, id)
                case Some(v) => offset > 0 && Lies(b, offset + 3, v)
                case None => offset == 0
      {
        LookupRefines(b, len, ts, id, offset);
        var k := First(ts, id);
        if k < |ts| { ItemFields(b, offset, ts[k]); }
      }
    }
  }

  lemma {:induction false} TooSmallForValue(b: seq<Byte>, len: nat, ts: seq<Tlv>, id: Byte, width: nat)
    requires Carries(b, len, ts) && len < MIN_SIZE && width > 0
    requires Wide(ValueOf(ts, id), width)
    ensures ValueOf(ts, id) == None
    ensures Fetchable(b, len, id, width) && Lookup(b, len, id) == 0
  {
    ItemsWithin(ts);
    assert Walked(b, len, ById(id), 0) == TooSmall;
    EndsInside(b, len, ById(id), 0);
    forall offset: Word | LookupIs(b, len, id, offset) ensures offset == 0 {
      var n: nat :| !Walked(b, len, ById(id), n).At? && offset == LookupResult(Walked(b, len, ById(id), n));
      OutcomeUnique(b, len, ById(id), n, 0);
    }
  }

  lemma {:induction false} FieldOfItems(b: seq<Byte>, len: nat, ts: seq<Tlv>, id: Byte)
    requires Carries(b, len, ts)
    ensures Wide(ValueOf(ts, id), 1) ==>
              Fetchable(b, len, id, 1) &&
              Field8(b, len, id) == match ValueOf(ts, id) { case Some(v) => Some(v[0]) case None => None }
    ensures Wide(ValueOf(ts, id), 4) ==>
              Fetchable(b, len, id, 4) && Field32(b, len, id) == AsDWord(ValueOf(ts, id))
  {
    if Wide(ValueOf(ts, id), 1) {
      FetchesValue(b, len, ts, id, 1);
      if ValueOf(ts, id).Some? { LiesAt(b, Lookup(b, len, id) + 3, ValueOf(ts, id).value); }
    }
    if Wide(ValueOf(ts, id), 4) {
      FetchesValue(b, len, ts, id, 4);
    }
  }

  lemma {:induction false} LiesAt(b: seq<Byte>, at: nat, s: seq<Byte>)
    requires Lies(b, at, s)
    ensures forall i :: 0 <= i < |s| ==> b[at + i] == s[i]
  {
  }

  /** On a packet of whole items the handler picks out exactly what the items mean. */
  lemma {:induction false} ActivationOfItems(b: seq<Byte>, len: nat, ts: seq<Tlv>)
    requires Carries(b, len, ts) && WellFormed(ts)
    ensures ActivationReadable(b, len)
    ensures ActivationIn(b, len) == ActivationOf(ts)
  {
    FieldOfItems(b, len, ts, TLV_SEQUENCE);
    FieldOfItems(b, len, ts, TLV_SUBSCRIPTION);
    FieldOfItems(b, len, ts, TLV_SLOT);
    FieldOfItems(b, len, ts, TLV_INSTANCE);
  }

  lemma {:induction false} ActivationPermuted(ts: seq<Tlv>, us: seq<Tlv>)
    requires multiset(ts) == multiset(us) && DistinctIds(ts) && WellFormed(ts)
    ensures WellFormed(us) && ActivationOf(us) == ActivationOf(ts)
  {
    ValueOfPermuted(ts, us, TLV_SEQUENCE);
    ValueOfPermuted(ts, us, TLV_SUBSCRIPTION);
    ValueOfPermuted(ts, us, TLV_SLOT);
    ValueOfPermuted(ts, us, TLV_INSTANCE);
  }

  /**
   Item order cannot be seen: two request packets with the same header and the
   same items in any order change the table alike, start the same session and
   get byte-identical replies.
   */
  lemma {:induction false} OrderIndependent(sv: Server, b: seq<Byte>, c: seq<Byte>, len: nat, h: seq<Byte>,
                         ts: seq<Tlv>, us: seq<Tlv>)
    requires Carries(b, len, ts) && WellFormed(ts) && DistinctIds(ts)
    requires multiset(ts) == multiset(us)
    requires |h| == HEADER_SIZE && h <= b && h <= c
    requires Lies(c, HEADER_SIZE, EncodeAll(us))
    requires SlotOf(ActivationOf(ts)) < MAX_SIM_SLOTS
    ensures ActivationReadable(b, len) && ActivationReadable(c, len)
    ensures SlotOf(ActivationIn(b, len)) == SlotOf(ActivationIn(c, len)) == SlotOf(ActivationOf(ts))
    ensures Handle(sv, b, len) == Handle(sv, c, len)
  {
    EncodedSizePermuted(ts, us);
    ActivationPermuted(ts, us);
    ActivationOfItems(b, len, ts);
    ActivationOfItems(c, len, us);
    SameHeader(b, c, h);
    SameHandling(sv, b, c, len);
  }

  lemma {:induction false} SameHeader(b: seq<Byte>, c: seq<Byte>, h: seq<Byte>)
    requires |h| == HEADER_SIZE && h <= b && h <= c
    ensures GetQmiMessageId(b) == GetQmiMessageId(c)
    ensures GetQmiTransactionId(b) == GetQmiTransactionId(c)
  {
  }

  /** A request is handled by its header and its activation; nothing else of the packet matters. */
  lemma {:induction false} SameHandling(sv: Server, b: seq<Byte>, c: seq<Byte>, len: nat)
    requires HEADER_SIZE <= |b| && HEADER_SIZE <= |c|
    requires ActivationReadable(b, len) && ActivationReadable(c, len)
    requires ActivationIn(b, len) == ActivationIn(c, len) && SlotOf(ActivationIn(b, len)) < MAX_SIM_SLOTS
    requires GetQmiMessageId(b) == GetQmiMessageId(c)
    requires GetQmiTransactionId(b) == GetQmiTransactionId(c)
    ensures Handle(sv, b, len) == Handle(sv, c, len)
  {
  }

  // ---- indications -----------------------------------------------------------------------

  /** What the repository's own walker reads out of an indication. */
  ghost predicate Announces(b: seq<Byte>, len: nat, e: PdpSession, address: seq<Byte>) {
    && Fetchable(b, len, 0x01, 1) && Fetchable(b, len, 0x10, 4)
    && Fetchable(b, len, 0x11, 5) && Fetchable(b, len, 0x12, 4)
    && Field8(b, len, 0x01) == Some(e.internalPdpId)
    && Field32(b, len, 0x10) == Some(e.sequenceId)
    && Field32(b, len, 0x12) == Some(e.instanceId)
    && var at := Lookup(b, len, 0x11);
       0 < at && Get32(b, at + 3) == 0 && b[at + 7] as int == |address| && Lies(b, at + 8, address)
  }

  /** A message that begins with the success item is a success to `did_qmi_op_fail`. */
  lemma {:induction false} SuccessFirst(b: seq<Byte>, len: nat, ts: seq<Tlv>)
    requires Holds(b, len, ts)
    requires ts != [] && ts[0] == SUCCESS
    ensures ResultReadable(b, len) && OpResultIs(b, len, QMI_RESULT_SUCCESS)
  {
    WholeItemsResult(b, len, ts);
    WalkFinds(b, len, ts, OpResult, 0);
    ItemFields(b, HEADER_SIZE, ts[0]);
    LiesAt(b, HEADER_SIZE + 3, ts[0].value);
    assert b[HEADER_SIZE + 3 + 0] == 0 && b[HEADER_SIZE + 3 + 1] == 0;
    assert OpResultOf(b, Walked(b, len, OpResult, 1)) == QMI_RESULT_SUCCESS;
  }

  lemma {:induction false} IndicationSize(e: PdpSession, address: seq<Byte>)
    requires |address| < 0x100
    ensures |EncodeAll(IndicationItems(e, address))| == 33 + |address|
  {
    var ts := IndicationItems(e, address);
    SizeAll(ts);
    SizeNext(ts, 0);
    SizeNext(ts, 1);
    SizeNext(ts, 2);
    SizeNext(ts, 3);
    SizeNext(ts, 4);
  }

  lemma {:induction false} AddressInBlock(b: seq<Byte>, at: nat, address: seq<Byte>)
    requires |address| < 0x100
    requires Lies(b, at, AddressBlock(address).value)
    ensures Get32(b, at) == 0 && b[at + 4] as int == |address| && Lies(b, at + 5, address)
  {
    var size: Byte := |address|;
    assert AddressBlock(address).value == Le32(0) + ([size] + address);
    LiesSplit(b, at, Le32(0), [size] + address);
    LiesSplit(b, at + 4, [size], address);
    LiesAt(b, at, Le32(0));
    LiesAt(b, at + 4, [size]);
  }

  lemma {:induction false} IndicationValues(e: PdpSession, address: seq<Byte>)
    requires |address| < 0x100
    ensures var ts := IndicationItems(e, address);
            ValueOf(ts, 0x01) == Some([e.internalPdpId]) &&
            ValueOf(ts, 0x10) == Some(Le32(e.sequenceId)) &&
            ValueOf(ts, 0x11) == Some(AddressBlock(address).value) &&
            ValueOf(ts, 0x12) == Some(Le32(e.instanceId))
  {
    var ts := IndicationItems(e, address);
    FirstIs(ts, 1);
    FirstIs(ts, 2);
    FirstIs(ts, 3);
    FirstIs(ts, 4);
  }

  /** The indication, read in place from the buffer it was built in, is a packet of its five items. */
  lemma {:induction false} IndicationCarries(transaction: Word, e: PdpSession, address: seq<Byte>, slack: seq<Byte>)
    requires |address| < 0x100
    ensures var b := Indication(transaction, e, address) + slack;
            Holds(b, 40 + |address|, IndicationItems(e, address)) &&
            Lies(b, 0, Header(INDICATION, transaction, IMS_DCM_PDP_ACTIVATE, 33 + |address|))
  {
    IndicationSize(e, address);
    var h := Header(INDICATION, transaction, IMS_DCM_PDP_ACTIVATE, 33 + |address|);
    var body := EncodeAll(IndicationItems(e, address));
    var b := Indication(transaction, e, address) + slack;
    assert b == h + body + slack;
    assert b[0..HEADER_SIZE] == h;
    assert b[HEADER_SIZE..HEADER_SIZE + |body|] == body;
  }

  /** Round trip of the address indication for every session and every address text. */
  lemma {:induction false} IndicationRoundTrip(transaction: Word, e: PdpSession, address: seq<Byte>, slack: seq<Byte>)
    requires |address| < 0x100
    ensures |Indication(transaction, e, address)| == 40 + |address|
    ensures var b, len := Indication(transaction, e, address) + slack, 40 + |address|;
            GetQmiMessageType(b) == INDICATION && GetQmiMessageId(b) == IMS_DCM_PDP_ACTIVATE &&
            GetQmiTransactionId(b) == transaction && GetQmiLength(b) == 33 + |address| &&
            ReturnsIn(b, len, Every, 5) && ResultReadable(b, len) && OpResultIs(b, len, QMI_RESULT_SUCCESS) &&
            Announces(b, len, e, address)
  {
    var b, len, ts := Indication(transaction, e, address) + slack, 40 + |address|, IndicationItems(e, address);
    IndicationSize(e, address);
    IndicationCarries(transaction, e, address, slack);
    HeaderFields(b, INDICATION, transaction, IMS_DCM_PDP_ACTIVATE, 33 + |address|);
    WalksItems(b, len, ts, Every, 4);
    WalksItems(b, len, ts, Every, 5);
    SuccessFirst(b, len, ts);
    IndicationAnnounces(b, len, e, address);
  }

  lemma {:induction false} IndicationAnnounces(b: seq<Byte>, len: nat, e: PdpSession, address: seq<Byte>)
    requires |address| < 0x100 && Holds(b, len, IndicationItems(e, address))
    ensures Announces(b, len, e, address)
  {
    var ts := IndicationItems(e, address);
    IndicationValues(e, address);
    FieldOfItems(b, len, ts, 0x01);
    FieldOfItems(b, len, ts, 0x10);
    FieldOfItems(b, len, ts, 0x12);
    FetchesValue(b, len, ts, 0x11, 5);
    AddressInBlock(b, Lookup(b, len, 0x11) + 3, address);
  }

  /** An indication announces one session and one address only. */
  lemma {:induction false} AnnouncesOne(b: seq<Byte>, len: nat, e: PdpSession, address: seq<Byte>,
                                        e': PdpSession, address': seq<Byte>)
    requires Announces(b, len, e, address) && Announces(b, len, e', address')
    ensures address == address' && e.sequenceId == e'.sequenceId && e.instanceId == e'.instanceId
    ensures e.internalPdpId == e'.internalPdpId
  {
  }

  // ---- responses --------------------------------------------------------------------------

  lemma {:induction false} ResponseCarries(transaction: Word, e: PdpSession, slack: seq<Byte>)
    ensures |ActivateResponse(transaction, e)| == 32
    ensures var b := ActivateResponse(transaction, e) + slack;
            Holds(b, 32, ResponseItems(e)) && Lies(b, 0, Header(RESPONSE, transaction, IMS_DCM_PDP_ACTIVATE, 25))
  {
    var ts := ResponseItems(e);
    SizeAll(ts);
    SizeNext(ts, 0);
    SizeNext(ts, 1);
    SizeNext(ts, 2);
    SizeNext(ts, 3);
    var h, body := Header(RESPONSE, transaction, IMS_DCM_PDP_ACTIVATE, 25), EncodeAll(ts);
    var b := ActivateResponse(transaction, e) + slack;
    assert b == h + body + slack;
    assert b[0..HEADER_SIZE] == h;
    assert b[HEADER_SIZE..HEADER_SIZE + |body|] == body;
  }

  /** The activation response echoes the transaction and reads back as the entry it was made from. */
  lemma {:induction false} ResponseRoundTrip(transaction: Word, e: PdpSession, slack: seq<Byte>)
    ensures |ActivateResponse(transaction, e)| == 32
    ensures var b := ActivateResponse(transaction, e) + slack;
            GetQmiMessageType(b) == RESPONSE && GetQmiTransactionId(b) == transaction && GetQmiLength(b) == 25 &&
            ReturnsIn(b, 32, Every, 4) && ResultReadable(b, 32) && OpResultIs(b, 32, QMI_RESULT_SUCCESS) &&
            Fetchable(b, 32, 0x10, 1) && Field8(b, 32, 0x10) == Some(e.internalPdpId) &&
            Fetchable(b, 32, 0x11, 4) && Field32(b, 32, 0x11) == Some(e.sequenceId) &&
            Fetchable(b, 32, 0x12, 4) && Field32(b, 32, 0x12) == Some(e.instanceId)
  {
    var b, ts := ActivateResponse(transaction, e) + slack, ResponseItems(e);
    ResponseCarries(transaction, e, slack);
    HeaderFields(b, RESPONSE, transaction, IMS_DCM_PDP_ACTIVATE, 25);
    WalksItems(b, 32, ts, Every, 3);
    WalksItems(b, 32, ts, Every, 4);
    SuccessFirst(b, 32, ts);
    FirstIs(ts, 1);
    FirstIs(ts, 2);
    FirstIs(ts, 3);
    FieldOfItems(b, 32, ts, 0x10);
    FieldOfItems(b, 32, ts, 0x11);
    FieldOfItems(b, 32, ts, 0x12);
  }

  /** The acknowledgement of the other requests echoes message and transaction and is a success. */
  lemma {:induction false} AcknowledgeRoundTrip(transaction: Word, message: Word, slack: seq<Byte>)
    ensures |Acknowledge(transaction, message)| == 14
    ensures var b := Acknowledge(transaction, message) + slack;
            GetQmiMessageType(b) == RESPONSE && GetQmiTransactionId(b) == transaction &&
            GetQmiMessageId(b) == message && GetQmiLength(b) == 7 &&
            ReturnsIn(b, 14, Every, 1) && ResultReadable(b, 14) && OpResultIs(b, 14, QMI_RESULT_SUCCESS)
  {
    var h, ts := Header(RESPONSE, transaction, message, 7), [SUCCESS];
    var b := Acknowledge(transaction, message) + slack;
    assert EncodeAll(ts) == Encode(SUCCESS) + [] == Encode(SUCCESS);
    assert b == h + Encode(SUCCESS) + slack;
    assert b[0..HEADER_SIZE] == h && b[HEADER_SIZE..14] == Encode(SUCCESS);
    HeaderFields(b, RESPONSE, transaction, message, 7);
    WalksItems(b, 14, ts, Every, 0);
    WalksItems(b, 14, ts, Every, 1);
    SuccessFirst(b, 14, ts);
  }
}
