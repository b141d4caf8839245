/** Type-length-value items and the byte strings they stand for. */
module Tlvs {
  import opened Bytes
  import opened Options

  datatype RawTlv = Item(id: Byte, value: seq<Byte>)

  /** The length field of an item is 16 bits wide. */
  type Tlv = t: RawTlv | |t.value| < 0x1_0000 witness Item(0, [])

  const HEADER_SIZE := 7

  function Encode(t: Tlv): (s: seq<Byte>)
    ensures |s| == 3 + |t.value|
  {
    [t.id] + Le16(|t.value|) + t.value
  }

  function EncodeAll(ts: seq<Tlv>): seq<Byte> {
    if ts == [] then [] else Encode(ts[0]) + EncodeAll(ts[1..])
  }

  /** Number of bytes taken by the first `k` items. */
  function Size(ts: seq<Tlv>, k: nat): nat
    requires k <= |ts|
  {
    if k == 0 then 0 else 3 + |ts[0].value| + Size(ts[1..], k - 1)
  }

  /** The five-field service header: type, transaction, message, payload length. */
  function Header(kind: Byte, transaction: Word, message: Word, length: Word): (h: seq<Byte>)
    ensures |h| == HEADER_SIZE
  {
    [kind] + Le16(transaction) + Le16(message) + Le16(length)
  }

  lemma {:induction false} SizeAll(ts: seq<Tlv>)
    ensures Size(ts, |ts|) == |EncodeAll(ts)|
  {
    if ts != [] { SizeAll(ts[1..]); }
  }

  lemma {:induction false} SizeNext(ts: seq<Tlv>, k: nat)
    requires k < |ts|
    ensures Size(ts, k + 1) == Size(ts, k) + 3 + |ts[k].value|
  {
    if k > 0 { SizeNext(ts[1..], k - 1); }
  }

  lemma {:induction false} SizeMonotone(ts: seq<Tlv>, j: nat, k: nat)
    requires j <= k <= |ts|
    ensures Size(ts, j) + 3 * (k - j) <= Size(ts, k)
  {
    if j < k {
      SizeNext(ts, k - 1);
      SizeMonotone(ts, j, k - 1);
    }
  }

  /** Wherever the encoding of a list lies in a buffer, item `k` lies `Size(ts, k)` bytes into it. */
  lemma {:induction false} EncodedItem(b: seq<Byte>, start: nat, ts: seq<Tlv>, k: nat)
    requires Lies(b, start, EncodeAll(ts))
    requires k < |ts|
    ensures Lies(b, start + Size(ts, k), Encode(ts[k]))
    decreases k
  {
    LiesSplit(b, start, Encode(ts[0]), EncodeAll(ts[1..]));
    if k > 0 { EncodedItem(b, start + |Encode(ts[0])|, ts[1..], k - 1); }
  }

  /** The fields a packed structure cast reads out of an encoded item. */
  lemma {:induction false} ItemFields(b: seq<Byte>, at: nat, t: Tlv)
    requires Lies(b, at, Encode(t))
    ensures at + 3 + |t.value| <= |b|
    ensures b[at] == t.id && Get16(b, at + 1) == |t.value|
    ensures Lies(b, at + 3, t.value)
  {
  }

  /** Index of the first item with the given id, `|ts|` when there is none. */
  function First(ts: seq<Tlv>, id: Byte): (k: nat)
    ensures k <= |ts|
    ensures forall i :: 0 <= i < k ==> ts[i].id != id
    ensures k < |ts| ==> ts[k].id == id
  {
    if ts == [] then 0 else if ts[0].id == id then 0 else 1 + First(ts[1..], id)
  }

  lemma {:induction false} FirstIs(ts: seq<Tlv>, k: nat)
    requires k < |ts| && forall i :: 0 <= i < k ==> ts[i].id != ts[k].id
    ensures First(ts, ts[k].id) == k
  {
  }

  /** No item is longer than the encoding it is part of. */
  lemma {:induction false} ItemsWithin(ts: seq<Tlv>)
    ensures forall k :: 0 <= k < |ts| ==> 3 + |ts[k].value| <= |EncodeAll(ts)|
  {
    forall k | 0 <= k < |ts| ensures 3 + |ts[k].value| <= |EncodeAll(ts)| {
      SizeAll(ts);
      SizeNext(ts, k);
      SizeMonotone(ts, k + 1, |ts|);
    }
  }

  /** The value carried under an id, read as the first item with that id. */
  function ValueOf(ts: seq<Tlv>, id: Byte): Option<seq<Byte>> {
    var k := First(ts, id);
    if k < |ts| then Some(ts[k].value) else None
  }

  ghost predicate DistinctIds(ts: seq<Tlv>) {
    forall i, j :: 0 <= i < j < |ts| ==> ts[i].id != ts[j].id
  }

  /** With distinct ids the order of the items cannot be seen through `ValueOf`. */
  lemma {:induction false} ValueOfPermuted(ts: seq<Tlv>, us: seq<Tlv>, id: Byte)
    requires multiset(ts) == multiset(us)
    requires DistinctIds(ts)
    ensures ValueOf(ts, id) == ValueOf(us, id)
  {
    var k, l := First(ts, id), First(us, id);
    if k < |ts| {
      assert ts[k] in multiset(us);
      assert ts[k] in us;
    }
    if l < |us| {
      assert us[l] in multiset(ts);
      assert us[l] in ts;
      var i :| 0 <= i < |ts| && ts[i] == us[l];
      assert i == k;
    }
  }

  /** Taking one item out takes its own bytes out of the encoding. */
  lemma {:induction false} EncodedSizeWithout(ts: seq<Tlv>, j: nat)
    requires j < |ts|
    ensures |EncodeAll(ts)| == |Encode(ts[j])| + |EncodeAll(ts[..j] + ts[j + 1..])|
    decreases j
  {
    var rest := ts[..j] + ts[j + 1..];
    if j == 0 {
      assert rest == ts[1..];
    } else {
      EncodedSizeWithout(ts[1..], j - 1);
      assert rest[0] == ts[0] && rest[1..] == ts[1..][..j - 1] + ts[1..][j..];
    }
  }

  lemma {:induction false} WithoutPermuted(ts: seq<Tlv>, us: seq<Tlv>, j: nat)
    requires ts != [] && multiset(ts) == multiset(us)
    requires j < |us| && us[j] == ts[0]
    ensures multiset(ts[1..]) == multiset(us[..j] + us[j + 1..])
  {
    var rest := us[..j] + us[j + 1..];
    calc {
      multiset(us);
      { assert us == us[..j] + ([us[j]] + us[j + 1..]); }
      multiset(us[..j]) + (multiset{us[j]} + multiset(us[j + 1..]));
      multiset{us[j]} + multiset(rest);
    }
    assert ts == [ts[0]] + ts[1..];
    assert multiset(ts) == multiset{ts[0]} + multiset(ts[1..]);
    assert multiset(ts[1..]) == multiset(ts) - multiset{ts[0]};
    assert multiset(rest) == multiset(us) - multiset{ts[0]};
  }

  /** Reordering the items keeps the packet length. */
  lemma {:induction false} EncodedSizePermuted(ts: seq<Tlv>, us: seq<Tlv>)
    requires multiset(ts) == multiset(us)
    ensures |EncodeAll(ts)| == |EncodeAll(us)|
  {
    if ts == [] {
      assert |multiset(us)| == |us| == 0;
    } else {
      assert ts[0] in multiset(us);
      var j :| 0 <= j < |us| && us[j] == ts[0];
      WithoutPermuted(ts, us, j);
      EncodedSizePermuted(ts[1..], us[..j] + us[j + 1..]);
      EncodedSizeWithout(us, j);
    }
  }

  lemma {:induction false} EncodeAllConcat(ts: seq<Tlv>, us: seq<Tlv>)
    ensures EncodeAll(ts + us) == EncodeAll(ts) + EncodeAll(us)
  {
    if ts == [] {
      assert ts + us == us;
    } else {
      assert (ts + us)[1..] == ts[1..] + us;
      EncodeAllConcat(ts[1..], us);
    }
  }
}
