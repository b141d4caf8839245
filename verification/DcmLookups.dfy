/**
 Which request packets the handler of dcm.c can be given: a lookup that runs
 over the end of the packet answers -EINVAL as 65514, which passes for an
 offset, and the handler reads there.
 */
module DcmLookups {
  import opened Bytes
  import opened Tlvs
  import opened Walk
  import opened QmiUtil
  import opened Dcm

  const INBUFF_SIZE := 1024

  /** The walk is at an item that does not match and whose end, cut to 16 bits, is 0 or past the packet. */
  predicate StepsOver(b: seq<Byte>, len: nat, q: Query, w: State) {
    && w.At? && w.cursor < len && w.cursor + 3 <= |b| && !Hits(b, q, w.cursor)
    && (Skip(b, w.cursor) == 0 || Skip(b, w.cursor) > len)
  }

  /** The walk comes to such an item. */
  ghost predicate RunsOver(b: seq<Byte>, len: nat, q: Query) {
    exists n: nat :: StepsOver(b, len, q, Walked(b, len, q, n))
  }

  /** The walk comes to an item whose header lies partly behind the buffer. */
  ghost predicate ReadsBehind(b: seq<Byte>, len: nat, q: Query) {
    exists n: nat :: Walked(b, len, q, n).At? && Walked(b, len, q, n).cursor + 3 > |b|
  }

  lemma {:induction false} EndComesFrom(b: seq<Byte>, len: nat, q: Query, n: nat)
    requires !Walked(b, len, q, n).At?
    ensures Walked(b, len, q, n).Overrun? ==> RunsOver(b, len, q)
    ensures Walked(b, len, q, n).Outside? ==> ReadsBehind(b, len, q)
  {
    if n > 0 {
      if Walked(b, len, q, n - 1).At? {
        Step(b, len, q, n - 1);
        assert n - 1 + 1 == n;
      } else {
        EndComesFrom(b, len, q, n - 1);
      }
    }
  }

  lemma {:induction false} RunsOverIff(b: seq<Byte>, len: nat, q: Query)
    ensures RunsOver(b, len, q) <==> exists n: nat :: Walked(b, len, q, n).Overrun?
  {
    if n: nat :| Walked(b, len, q, n).Overrun? { EndComesFrom(b, len, q, n); }
    if n: nat :| StepsOver(b, len, q, Walked(b, len, q, n)) {
      Step(b, len, q, n);
      assert Walked(b, len, q, n + 1).Overrun?;
    }
  }

  lemma {:induction false} InsideIff(b: seq<Byte>, len: nat, q: Query)
    ensures Inside(b, len, q) <==> !ReadsBehind(b, len, q)
  {
    if n: nat :| Walked(b, len, q, n).Outside? { EndComesFrom(b, len, q, n); }
    if n: nat :| Walked(b, len, q, n).At? && Walked(b, len, q, n).cursor + 3 > |b| {
      Step(b, len, q, n);
      assert Walked(b, len, q, n + 1).Outside?;
    }
  }

  /** An item that is found has room for the value that is read. */
  ghost predicate FoundFits(b: seq<Byte>, len: nat, id: Byte, width: nat) {
    forall n: nat :: Walked(b, len, ById(id), n).Found? ==> Walked(b, len, ById(id), n).offset + 3 + width <= |b|
  }

  /** The walk is left, reads no header behind the buffer, does not run over the end, and what it finds has room. */
  ghost predicate Followable(b: seq<Byte>, len: nat, id: Byte, width: nat) {
    Returns(b, len, ById(id)) && !ReadsBehind(b, len, ById(id)) && !RunsOver(b, len, ById(id)) &&
    FoundFits(b, len, id, width)
  }

  /**
   In a buffer of fewer than 65514 bytes, exactly then does the handler read
   inside the buffer.
   */
  lemma {:induction false} FetchableIff(b: seq<Byte>, len: nat, id: Byte, width: nat)
    requires |b| < EINVAL_AS_WORD
    ensures Fetchable(b, len, id, width) <==> Followable(b, len, id, width)
  {
    InsideIff(b, len, ById(id));
    if Returns(b, len, ById(id)) && Inside(b, len, ById(id)) {
      var n: nat :| !Walked(b, len, ById(id), n).At?;
      OneOutcome(b, len, ById(id), n);
      var w := Walked(b, len, ById(id), n);
      assert LookupIs(b, len, id, LookupResult(w));
      assert FoundFits(b, len, id, width) <==> (w.Found? ==> w.offset + 3 + width <= |b|);
    }
  }

  lemma {:induction false} OneOutcome(b: seq<Byte>, len: nat, q: Query, n: nat)
    requires !Walked(b, len, q, n).At?
    ensures forall m: nat :: !Walked(b, len, q, m).At? ==> Walked(b, len, q, m) == Walked(b, len, q, n)
    ensures RunsOver(b, len, q) <==> Walked(b, len, q, n).Overrun?
  {
    forall m: nat | !Walked(b, len, q, m).At? ensures Walked(b, len, q, m) == Walked(b, len, q, n) {
      OutcomeUnique(b, len, q, n, m);
    }
    RunsOverIff(b, len, q);
  }

  /** Exactly when the handler stays inside its 1024-byte input buffer. */
  lemma {:induction false} ActivationReadableIff(b: seq<Byte>, len: nat)
    requires |b| == INBUFF_SIZE
    ensures ActivationReadable(b, len) <==>
              Followable(b, len, TLV_SEQUENCE, 1) && Followable(b, len, TLV_SUBSCRIPTION, 4) &&
              Followable(b, len, TLV_SLOT, 4) && Followable(b, len, TLV_INSTANCE, 4)
  {
    FetchableIff(b, len, TLV_SEQUENCE, 1);
    FetchableIff(b, len, TLV_SUBSCRIPTION, 4);
    FetchableIff(b, len, TLV_SLOT, 4);
    FetchableIff(b, len, TLV_INSTANCE, 4);
  }

  /** A first item of length 32767 that does not match sends the handler to offset 65514, whatever follows. */
  lemma {:induction false} LeadsOutside(b: seq<Byte>, len: nat, id: Byte, width: nat)
    requires |b| == INBUFF_SIZE && MIN_SIZE <= len <= |b|
    requires b[HEADER_SIZE] != id && Get16(b, HEADER_SIZE + 1) == 0x7FFF
    ensures Returns(b, len, ById(id)) && Inside(b, len, ById(id)) && LookupIs(b, len, id, EINVAL_AS_WORD)
    ensures !Fetchable(b, len, id, width)
  {
    assert Walked(b, len, ById(id), 0) == At(HEADER_SIZE);
    Step(b, len, ById(id), 0);
    assert Walked(b, len, ById(id), 1) == Overrun;
    EndsInside(b, len, ById(id), 1);
    assert LookupResult(Walked(b, len, ById(id), 1)) == EINVAL_AS_WORD;
    OneOutcome(b, len, ById(id), 1);
    FetchableIff(b, len, id, width);
  }

  /** Such a packet is beyond the handler whatever its first item is. */
  lemma {:induction false} HandlerLedOutside(b: seq<Byte>, len: nat)
    requires |b| == INBUFF_SIZE && MIN_SIZE <= len <= |b|
    requires Get16(b, HEADER_SIZE + 1) == 0x7FFF
    ensures !ActivationReadable(b, len)
  {
    if b[HEADER_SIZE] == TLV_SLOT {
      LeadsOutside(b, len, TLV_SEQUENCE, 1);
    } else {
      LeadsOutside(b, len, TLV_SLOT, 4);
    }
  }
}
