/** qmi-util.c: accessors, walkers and builders of service messages. */
module QmiUtil {
  import opened Bytes
  import opened Options
  import opened Tlvs
  import opened Walk

  const ENOMEM := 12
  /** -EINVAL (-22) returned through an unsigned 16-bit result. */
  const EINVAL_AS_WORD: Word := 0xFFEA

  const QMI_RESULT_SUCCESS: Word := 0
  const QMI_RESULT_FAILURE: Word := 1
  const QMI_RESULT_UNKNOWN: Word := 2

  // ---- walkers -----------------------------------------------------------------

  function LookupResult(w: State): Word
    requires !w.At? && !w.Outside? && (w.Found? ==> w.offset < 0x1_0000)
  {
    match w
    case Found(c) => c
    case Overrun => EINVAL_AS_WORD
    case _ => 0
  }

  /** The value a lookup returns, for packets it returns on. */
  ghost predicate LookupIs(b: seq<Byte>, len: nat, id: Byte, offset: Word)
    requires Inside(b, len, ById(id))
  {
    exists n: nat :: !Walked(b, len, ById(id), n).At? && offset == LookupResult(Walked(b, len, ById(id), n))
  }

  /** Defined on exactly the packets the C loop is left on and reads inside the buffer. */
  method GetTlvOffsetById(bytes: array<Byte>, len: nat, tlvId: Byte) returns (offset: Word)
    requires Inside(bytes[..], len, ById(tlvId))
    requires Returns(bytes[..], len, ById(tlvId))
    ensures LookupIs(bytes[..], len, tlvId, offset)
  {
    ghost var b, q := bytes[..], ById(tlvId);
    ghost var rounds: nat :| !Walked(b, len, q, rounds).At?;
    ghost var n: nat := 0;
    if len < MIN_SIZE {
      assert Walked(b, len, q, 0) == TooSmall;
      return 0;
    }
    var cur := HEADER_SIZE;
    while cur < len
      invariant 0 < cur <= len && cur < 0x1_0000 && n <= rounds
      invariant Walked(b, len, q, n) == if cur < len then At(cur) else End
      decreases rounds - n
    {
      assert n != rounds;
      Step(b, len, q, n);
      if bytes[cur] == tlvId {
        return cur;
      }
      cur := Skip(bytes[..], cur);
      n := n + 1;
      if cur <= 0 || cur > len {
        return EINVAL_AS_WORD;
      }
    }
    return 0;
  }

  /** The number of items visited; the 16-bit counter never wraps on a packet the loop is left on. */
  method CountTlvsInMessage(bytes: array<Byte>, len: nat) returns (count: Word)
    requires Inside(bytes[..], len, Every)
    requires Returns(bytes[..], len, Every)
    ensures ReturnsIn(bytes[..], len, Every, count)
  {
    ghost var b := bytes[..];
    ghost var rounds: nat :| !Walked(b, len, Every, rounds).At?;
    count := 0;
    CountStart(b, len);
    if len < MIN_SIZE {
      return;
    }
    var cur := HEADER_SIZE;
    while cur < len
      invariant 0 < cur && count <= rounds && CountAt(b, len, count, cur)
      decreases rounds - count
    {
      CountsOn(b, len, count, cur, rounds);
      ghost var n: nat := count + 1;
      count := (count + 1) % 0x1_0000;
      assert count == n;
      cur := Skip(bytes[..], cur);
      if cur <= 0 || cur > len {
        return;
      }
    }
  }

  /** The count stands at an item, or the walk has been left in as many rounds. */
  ghost predicate CountAt(b: seq<Byte>, len: nat, count: nat, cur: nat)
  {
    if cur < len then Walked(b, len, Every, count) == At(cur) else ReturnsIn(b, len, Every, count)
  }

  lemma {:induction false} CountStart(b: seq<Byte>, len: nat)
    ensures if len < MIN_SIZE then ReturnsIn(b, len, Every, 0) else CountAt(b, len, 0, HEADER_SIZE)
  {
  }

  /** One round of the count, and what it means to leave the loop after it. */
  lemma {:induction false} CountsOn(b: seq<Byte>, len: nat, n: nat, cur: nat, rounds: nat)
    requires Inside(b, len, Every) && !Walked(b, len, Every, rounds).At?
    requires n <= rounds && cur < len && CountAt(b, len, n, cur)
    ensures n < rounds && n + 1 < 0x1_0000 && cur + 3 <= |b|
    ensures var next := Skip(b, cur);
            if next == 0 || next > len then ReturnsIn(b, len, Every, n + 1)
            else CountAt(b, len, n + 1, next)
  {
    RunningBelow(b, len, Every, n);
    Step(b, len, Every, n);
  }

  function OpResultOf(b: seq<Byte>, w: State): Word
    requires !w.At? && (w.Found? ==> w.offset + 7 <= |b|)
  {
    match w
    case Found(c) => Get16(b, c + 3)
    case End => QMI_RESULT_UNKNOWN
    case _ => QMI_RESULT_FAILURE
  }

  /** The seven-byte result structure is read whole where one is found. */
  ghost predicate ResultReadable(b: seq<Byte>, len: nat) {
    && Inside(b, len, OpResult)
    && forall n: nat :: Walked(b, len, OpResult, n).Found? ==> Walked(b, len, OpResult, n).offset + 7 <= |b|
  }

  ghost predicate OpResultIs(b: seq<Byte>, len: nat, result: Word)
    requires ResultReadable(b, len)
  {
    exists n: nat :: !Walked(b, len, OpResult, n).At? && result == OpResultOf(b, Walked(b, len, OpResult, n))
  }

  method DidQmiOpFail(bytes: array<Byte>, len: nat) returns (result: Word)
    requires ResultReadable(bytes[..], len)
    requires Returns(bytes[..], len, OpResult)
    ensures OpResultIs(bytes[..], len, result)
  {
    ghost var b := bytes[..];
    ghost var rounds: nat :| !Walked(b, len, OpResult, rounds).At?;
    ghost var n: nat := 0;
    result := QMI_RESULT_FAILURE;
    if len < MIN_SIZE {
      assert Walked(b, len, OpResult, 0) == TooSmall;
      return;
    }
    var cur := HEADER_SIZE;
    while cur < len
      invariant 0 < cur <= len && cur < 0x1_0000 && n <= rounds && result == QMI_RESULT_FAILURE
      invariant Walked(b, len, OpResult, n) == if cur < len then At(cur) else End
      decreases rounds - n
    {
      assert n != rounds;
      Step(b, len, OpResult, n);
      if bytes[cur] == 0x02 && Get16(bytes[..], cur + 1) == 0x04 {
        assert Walked(b, len, OpResult, n + 1) == Found(cur);
        result := Get16(bytes[..], cur + 3);
        assert result == OpResultOf(b, Walked(b, len, OpResult, n + 1));
        return;
      }
      cur := Skip(bytes[..], cur);
      n := n + 1;
      if cur <= 0 || cur > len {
        return;
      }
    }
    result := QMI_RESULT_UNKNOWN;
  }

  /** A packet is a success exactly when the walk finds a result item whose word is 0. */
  lemma {:induction false} SucceedsIff(b: seq<Byte>, len: nat)
    requires ResultReadable(b, len)
    ensures OpResultIs(b, len, 0) <==>
              exists n: nat :: Walked(b, len, OpResult, n).Found? &&
                               Get16(b, Walked(b, len, OpResult, n).offset + 3) == 0
  {
    if OpResultIs(b, len, 0) {
      var n: nat :| !Walked(b, len, OpResult, n).At? && 0 == OpResultOf(b, Walked(b, len, OpResult, n));
      assert Walked(b, len, OpResult, n).Found?;
    }
    if n: nat :| Walked(b, len, OpResult, n).Found? && Get16(b, Walked(b, len, OpResult, n).offset + 3) == 0 {
      assert OpResultOf(b, Walked(b, len, OpResult, n)) == 0;
    }
  }

  /** Packets of fewer than eleven bytes, and those the walk overruns, are failures; without a result item, unknown. */
  lemma {:induction false} FailuresAre(b: seq<Byte>, len: nat, result: Word)
    requires ResultReadable(b, len) && OpResultIs(b, len, result)
    ensures len < 11 || (exists n: nat :: Walked(b, len, OpResult, n).Overrun?) ==> result == 1
    ensures (exists n: nat :: Walked(b, len, OpResult, n).End?) ==> result == 2
  {
    var n: nat :| !Walked(b, len, OpResult, n).At? && result == OpResultOf(b, Walked(b, len, OpResult, n));
    if len < 11 {
      assert Walked(b, len, OpResult, 0) == TooSmall;
      OutcomeUnique(b, len, OpResult, n, 0);
    }
    if m: nat :| Walked(b, len, OpResult, m).Overrun? { OutcomeUnique(b, len, OpResult, n, m); }
    if m: nat :| Walked(b, len, OpResult, m).End? { OutcomeUnique(b, len, OpResult, n, m); }
  }

  /** On whole items a lookup answers with the first item of that id, or 0. */
  lemma {:induction false} LookupRefines(b: seq<Byte>, len: nat, ts: seq<Tlv>, id: Byte, offset: Word)
    requires Holds(b, len, ts) && Inside(b, len, ById(id)) && LookupIs(b, len, id, offset)
    ensures var k := First(ts, id);
            if k < |ts| then 0 < offset == Position(ts, k) < len && Lies(b, offset, Encode(ts[k]))
            else offset == 0
  {
    var n: nat :| !Walked(b, len, ById(id), n).At? && offset == LookupResult(Walked(b, len, ById(id), n));
    var k := First(ts, id);
    var m := WholeOutcome(b, len, ts, id);
    OutcomeUnique(b, len, ById(id), n, m);
  }

  lemma {:induction false} WholeOutcome(b: seq<Byte>, len: nat, ts: seq<Tlv>, id: Byte) returns (n: nat)
    requires Holds(b, len, ts)
    ensures var k := First(ts, id);
            Walked(b, len, ById(id), n) == if k < |ts| then Found(Position(ts, k)) else End
    ensures var k := First(ts, id);
            k < |ts| ==> Lies(b, Position(ts, k), Encode(ts[k]))
  {
    n := First(ts, id);
    if n < |ts| {
      WalkFinds(b, len, ts, ById(id), n);
      n := n + 1;
    } else {
      WalksItems(b, len, ts, ById(id), n);
    }
  }

  /** On whole items the count is the number of items. */
  lemma {:induction false} CountRefines(b: seq<Byte>, len: nat, ts: seq<Tlv>, count: Word)
    requires Holds(b, len, ts) && ReturnsIn(b, len, Every, count)
    ensures count == |ts|
  {
    WalksItems(b, len, ts, Every, |ts|);
    var k := |ts|;
    WalksItems(b, len, ts, Every, k - 1);
    OutcomeUnique(b, len, Every, count, k);
  }

  /** The first result item of length 4, independent of the walker. */
  function FirstResult(ts: seq<Tlv>): (r: Option<Word>)
  {
    if ts == [] then None
    else if ts[0].id == 0x02 && |ts[0].value| == 4 then Some(Get16(ts[0].value, 0))
    else FirstResult(ts[1..])
  }

  lemma {:induction false} FirstResultAt(ts: seq<Tlv>) returns (k: nat)
    ensures k <= |ts| && forall i :: 0 <= i < k ==> !Matches(OpResult, ts[i])
    ensures k < |ts| ==> Matches(OpResult, ts[k])
    ensures FirstResult(ts) == if k < |ts| then Some(Get16(ts[k].value, 0)) else None
  {
    if ts == [] || Matches(OpResult, ts[0]) {
      k := 0;
    } else {
      var j := FirstResultAt(ts[1..]);
      k := j + 1;
    }
  }

  /** On whole items a result item lies within the packet. */
  lemma {:induction false} WholeItemsResult(b: seq<Byte>, len: nat, ts: seq<Tlv>)
    requires Holds(b, len, ts)
    ensures ResultReadable(b, len)
  {
    var k := FirstResultAt(ts);
    if k < |ts| {
      WalkFinds(b, len, ts, OpResult, k);
      ItemFields(b, Position(ts, k), ts[k]);
    } else {
      WalksItems(b, len, ts, OpResult, k);
    }
    var m := if k < |ts| then k + 1 else k;
    EndsInside(b, len, OpResult, m);
    forall n: nat | Walked(b, len, OpResult, n).Found? ensures Walked(b, len, OpResult, n).offset + 7 <= |b| {
      OutcomeUnique(b, len, OpResult, n, m);
    }
  }

  lemma {:induction false} ResultOfItem(b: seq<Byte>, at: nat, t: Tlv)
    requires Lies(b, at, Encode(t)) && Matches(OpResult, t)
    ensures at + 7 <= |b| && Get16(b, at + 3) == Get16(t.value, 0)
  {
    ItemFields(b, at, t);
    assert t.value[0] == b[at + 3..at + 7][0] == b[at + 3];
    assert t.value[1] == b[at + 3..at + 7][1] == b[at + 4];
  }

  /** On whole items the operation result is that of the first (0x02, length 4) item, or UNKNOWN. */
  lemma {:induction false} OpResultRefines(b: seq<Byte>, len: nat, ts: seq<Tlv>, result: Word)
    requires Holds(b, len, ts)
    requires ResultReadable(b, len) && OpResultIs(b, len, result)
    ensures result == match FirstResult(ts) case Some(r) => r case None => QMI_RESULT_UNKNOWN
  {
    var n: nat :| !Walked(b, len, OpResult, n).At? && result == OpResultOf(b, Walked(b, len, OpResult, n));
    var k := FirstResultAt(ts);
    if k < |ts| {
      WalkFinds(b, len, ts, OpResult, k);
      OutcomeUnique(b, len, OpResult, n, k + 1);
      ResultOfItem(b, Position(ts, k), ts[k]);
    } else {
      WalksItems(b, len, ts, OpResult, k);
      OutcomeUnique(b, len, OpResult, n, k);
    }
  }

  // ---- accessors ----------------------------------------------------------------

  function GetQmiMessageType(b: seq<Byte>): Byte
    requires HEADER_SIZE <= |b|
  {
    b[0]
  }

  function GetQmiTransactionId(b: seq<Byte>): Word
    requires HEADER_SIZE <= |b|
  {
    Get16(b, 1)
  }

  function GetQmiMessageId(b: seq<Byte>): Word
    requires HEADER_SIZE <= |b|
  {
    Get16(b, 3)
  }

  function GetQmiLength(b: seq<Byte>): Word
    requires HEADER_SIZE <= |b|
  {
    Get16(b, 5)
  }

  /** The accessors read back every field a header was made of. */
  lemma {:induction false} HeaderFields(b: seq<Byte>, kind: Byte, transaction: Word, message: Word, length: Word)
    requires Lies(b, 0, Header(kind, transaction, message, length))
    ensures GetQmiMessageType(b) == kind && GetQmiTransactionId(b) == transaction
    ensures GetQmiMessageId(b) == message && GetQmiLength(b) == length
  {
  }

  // ---- builders ------------------------------------------------------------------

  method BuildQmiHeader(output: array<Byte>, outputLen: nat, kind: Byte, transaction: Word, message: Word)
    returns (status: int)
    requires outputLen <= output.Length
    modifies output
    ensures status == if outputLen < HEADER_SIZE then -ENOMEM else 0
    ensures status != 0 ==> output[..] == old(output[..])
    ensures status == 0 ==>
      output[..] == Overlay(old(output[..]), 0,
                            Header(kind, transaction, message, (outputLen - HEADER_SIZE) % 0x1_0000))
  {
    if outputLen < HEADER_SIZE {
      return -ENOMEM;
    }
    Put(output, 0, Header(kind, transaction, message, (outputLen - HEADER_SIZE) % 0x1_0000));
    return 0;
  }

  method BuildU8Tlv(output: array<Byte>, outputLen: nat, offset: nat, id: Byte, data: Byte)
    returns (status: int)
    requires outputLen <= output.Length
    modifies output
    ensures status == if outputLen < offset + 4 then -ENOMEM else 0
    ensures status != 0 ==> output[..] == old(output[..])
    ensures status == 0 ==> output[..] == Overlay(old(output[..]), offset, Encode(Item(id, [data])))
  {
    if outputLen < offset + 4 {
      return -ENOMEM;
    }
    Put(output, offset, Encode(Item(id, [data])));
    return 0;
  }

  /** The guard is that of the one-byte item, three bytes short of what is written. */
  predicate AcceptsU32(outputLen: nat, offset: nat) {
    offset + 4 <= outputLen
  }

  method BuildU32Tlv(output: array<Byte>, outputLen: nat, offset: nat, id: Byte, data: DWord)
    returns (status: int)
    requires AcceptsU32(outputLen, offset) ==> offset + 7 <= output.Length
    modifies output
    ensures status == if AcceptsU32(outputLen, offset) then 0 else -ENOMEM
    ensures status != 0 ==> output[..] == old(output[..])
    ensures status == 0 ==> output[..] == Overlay(old(output[..]), offset, Encode(Item(id, Le32(data))))
  {
    if outputLen < offset + 4 {
      return -ENOMEM;
    }
    Put(output, offset, Encode(Item(id, Le32(data))));
    return 0;
  }

  /** An accepted 32-bit build leaves the bytes from `outputLen` on alone exactly when the item fits. */
  lemma {:induction false} U32StaysInside(b: seq<Byte>, outputLen: nat, offset: nat, id: Byte, data: DWord)
    requires AcceptsU32(outputLen, offset) && offset + 7 <= |b| && outputLen <= |b|
    ensures offset + 7 <= outputLen ==>
              Overlay(b, offset, Encode(Item(id, Le32(data))))[outputLen..] == b[outputLen..]
    ensures outputLen < offset + 7 ==>
              var top := Overlay(b, offset, Encode(Item(id, Le32(data))))[outputLen..offset + 7];
              top == Le32(data)[outputLen - offset - 3..] && top != []
  {
  }

  // ---- builds at consecutive offsets ----------------------------------------------

  /** What the builders can be asked for. */
  datatype Build = U8(id: Byte, byte: Byte) | U32(id: Byte, dword: DWord)

  function Built(x: Build): Tlv {
    match x
    case U8(id, v) => Item(id, [v])
    case U32(id, v) => Item(id, Le32(v))
  }

  function AllBuilt(xs: seq<Build>): (ts: seq<Tlv>)
    ensures |ts| == |xs| && forall i :: 0 <= i < |xs| ==> ts[i] == Built(xs[i])
  {
    if xs == [] then [] else [Built(xs[0])] + AllBuilt(xs[1..])
  }

  /** The buffer after the builds are done one after the other from `at` on. */
  function BuildAll(b: seq<Byte>, at: nat, xs: seq<Build>): (r: seq<Byte>)
    requires at + |EncodeAll(AllBuilt(xs))| <= |b|
    ensures |r| == |b|
    decreases |xs|
  {
    if xs == [] then b
    else
      var e := Encode(Built(xs[0]));
      assert AllBuilt(xs)[0] == Built(xs[0]) && AllBuilt(xs)[1..] == AllBuilt(xs[1..]);
      BuildAll(Overlay(b, at, e), at + |e|, xs[1..])
  }

  /** Each build leaves what precedes it alone and extends it by exactly its own item. */
  lemma {:induction false} BuildAllExtends(b: seq<Byte>, prefix: seq<Byte>, xs: seq<Build>)
    requires prefix <= b && |prefix| + |EncodeAll(AllBuilt(xs))| <= |b|
    ensures prefix + EncodeAll(AllBuilt(xs)) <= BuildAll(b, |prefix|, xs)
    decreases |xs|
  {
    if xs == [] {
      assert prefix + [] == prefix;
    } else {
      var e := Encode(Built(xs[0]));
      assert AllBuilt(xs)[1..] == AllBuilt(xs[1..]);
      OverlayExtends(b, prefix, e);
      BuildAllExtends(Overlay(b, |prefix|, e), prefix + e, xs[1..]);
      assert prefix + (e + EncodeAll(AllBuilt(xs[1..]))) == prefix + e + EncodeAll(AllBuilt(xs[1..]));
    }
  }

  /**
   A header built for the whole message and builds that exactly fill it make a
   packet whose items are the ones asked for, under a length field that counts them.
   */
  lemma {:induction false} BuiltPacketHolds(b: seq<Byte>, len: nat, kind: Byte, transaction: Word, message: Word,
                                            xs: seq<Build>)
    requires xs != [] && len == HEADER_SIZE + |EncodeAll(AllBuilt(xs))| < 0x1_0000
    requires len <= |b|
    ensures var h := Header(kind, transaction, message, len - HEADER_SIZE);
            var r := BuildAll(Overlay(b, 0, h), HEADER_SIZE, xs);
            Holds(r, len, AllBuilt(xs)) &&
            GetQmiMessageType(r) == kind && GetQmiTransactionId(r) == transaction &&
            GetQmiMessageId(r) == message && GetQmiLength(r) == len - HEADER_SIZE
  {
    var ts := AllBuilt(xs);
    assert |Encode(ts[0])| >= 4;
    var h := Header(kind, transaction, message, len - HEADER_SIZE);
    var b0 := Overlay(b, 0, h);
    assert b0[..HEADER_SIZE] == h;
    BuildAllExtends(b0, h, xs);
    var r := BuildAll(b0, HEADER_SIZE, xs);
    assert r[..len] == h + EncodeAll(ts);
    assert r[HEADER_SIZE..len] == r[..len][HEADER_SIZE..] == EncodeAll(ts);
    assert r[0..HEADER_SIZE] == r[..len][..HEADER_SIZE] == h;
    HeaderFields(r, kind, transaction, message, len - HEADER_SIZE);
  }

  lemma {:induction false} WalkMeetsItem(b: seq<Byte>, len: nat, ts: seq<Tlv>, k: nat)
    requires Holds(b, len, ts) && k < |ts|
    ensures var w := Walked(b, len, Every, k);
            ReturnsIn(b, len, Every, |ts|) && w.At? && Lies(b, w.cursor, Encode(ts[k]))
  {
    WalksItems(b, len, ts, Every, k);
    WalksItems(b, len, ts, Every, |ts| - 1);
    WalksItems(b, len, ts, Every, |ts|);
    EncodedItem(b, HEADER_SIZE, ts, k);
  }

  /**
   Round trip: item `k` of the built packet is where the walk reaches in `k`
   rounds, with the id and value it was built from, and the count is that of the builds.
   */
  lemma {:induction false} BuildRoundTrip(b: seq<Byte>, len: nat, kind: Byte, transaction: Word, message: Word,
                                          xs: seq<Build>, k: nat)
    requires xs != [] && len == HEADER_SIZE + |EncodeAll(AllBuilt(xs))| < 0x1_0000
    requires len <= |b| && k < |xs|
    ensures var h := Header(kind, transaction, message, len - HEADER_SIZE);
            var r := BuildAll(Overlay(b, 0, h), HEADER_SIZE, xs);
            var w := Walked(r, len, Every, k);
            ReturnsIn(r, len, Every, |xs|) && w.At? &&
            Lies(r, w.cursor, Encode(Built(xs[k])))
  {
    BuiltPacketHolds(b, len, kind, transaction, message, xs);
    var r := BuildAll(Overlay(b, 0, Header(kind, transaction, message, len - HEADER_SIZE)), HEADER_SIZE, xs);
    WalkMeetsItem(r, len, AllBuilt(xs), k);
  }
}
