/**
 The cursor shared by the three TLV walkers of qmi-util.c, as a deterministic
 machine over any packet whatsoever. The cursor is 16 bits wide, so a length
 field can carry it past 65535 and back: such a packet may never be left.
 */
module Walk {
  import opened Bytes
  import opened Tlvs

  /** What a walker stops at: an id, a (0x02, length 4) result item, or nothing. */
  datatype Query = ById(id: Byte) | OpResult | Every

  /** `Overrun` is what the walkers check for, `Outside` an item header read behind the buffer, which they do not. */
  datatype State =
    | TooSmall
    | At(cursor: nat)
    | Found(offset: nat)
    | Overrun
    | Outside
    | End

  const MIN_SIZE := HEADER_SIZE + 4

  predicate Hits(b: seq<Byte>, q: Query, c: nat)
    requires c + 3 <= |b|
  {
    match q
    case ById(id) => b[c] == id
    case OpResult => b[c] == 0x02 && Get16(b, c + 1) == 0x04
    case Every => false
  }

  /** The cursor after skipping the item at `c`, in 16-bit arithmetic. */
  function Skip(b: seq<Byte>, c: nat): Word
    requires c + 3 <= |b|
  {
    (c + Get16(b, c + 1) + 3) % 0x1_0000
  }

  function Start(len: nat): State {
    if len < MIN_SIZE then TooSmall else At(HEADER_SIZE)
  }

  function Advance(b: seq<Byte>, len: nat, q: Query, c: nat): State
    requires c < len
  {
    if c + 3 > |b| then Outside
    else if Hits(b, q, c) then Found(c)
    else
      var next := Skip(b, c);
      if next == 0 || next > len then Overrun
      else if next < len then At(next)
      else End
  }

  /** The state after `n` rounds of the loop. */
  ghost function Walked(b: seq<Byte>, len: nat, q: Query, n: nat): (w: State)
    ensures w.At? ==> 0 < w.cursor < len && w.cursor < 0x1_0000
    ensures w.Found? ==> 0 < w.offset < len && w.offset < 0x1_0000 && w.offset + 3 <= |b| && Hits(b, q, w.offset)
  {
    if n == 0 then Start(len)
    else
      var w := Walked(b, len, q, n - 1);
      if w.At? then Advance(b, len, q, w.cursor) else w
  }

  /** The loop is left after finitely many rounds. */
  ghost predicate Returns(b: seq<Byte>, len: nat, q: Query)
  {
    exists n: nat :: !Walked(b, len, q, n).At?
  }

  /** No item header is read behind the buffer. */
  ghost predicate Inside(b: seq<Byte>, len: nat, q: Query) {
    forall n: nat :: !Walked(b, len, q, n).Outside?
  }

  /** The loop is left in exactly `n` rounds. */
  ghost predicate ReturnsIn(b: seq<Byte>, len: nat, q: Query, n: nat)
  {
    !Walked(b, len, q, n).At? && (n == 0 || Walked(b, len, q, n - 1).At?)
  }

  lemma {:induction false} Step(b: seq<Byte>, len: nat, q: Query, n: nat)
    requires Walked(b, len, q, n).At?
    ensures Walked(b, len, q, n + 1) == Advance(b, len, q, Walked(b, len, q, n).cursor)
  {
  }

  lemma {:induction false} Stable(b: seq<Byte>, len: nat, q: Query, n: nat, m: nat)
    requires n <= m && !Walked(b, len, q, n).At?
    ensures Walked(b, len, q, m) == Walked(b, len, q, n)
  {
    if n < m { Stable(b, len, q, n, m - 1); }
  }

  /** A walk has one outcome, reached in one number of rounds. */
  lemma {:induction false} OutcomeUnique(b: seq<Byte>, len: nat, q: Query, n: nat, m: nat)
    requires !Walked(b, len, q, n).At? && !Walked(b, len, q, m).At?
    ensures Walked(b, len, q, n) == Walked(b, len, q, m)
    ensures ReturnsIn(b, len, q, n) && ReturnsIn(b, len, q, m) ==> n == m
  {
    if n <= m { Stable(b, len, q, n, m); } else { Stable(b, len, q, m, n); }
    if n < m && Walked(b, len, q, m - 1).At? { Stable(b, len, q, n, m - 1); }
    if m < n && Walked(b, len, q, n - 1).At? { Stable(b, len, q, m, n - 1); }
  }

  // ---- when the walk is left -------------------------------------------------

  /** The cursor comes back to a position it has already visited. */
  ghost predicate Revisits(b: seq<Byte>, len: nat, q: Query, i: nat, j: nat)
  {
    i < j && Walked(b, len, q, i).At? && Walked(b, len, q, i) == Walked(b, len, q, j)
  }

  lemma {:induction false} Repeats(b: seq<Byte>, len: nat, q: Query, i: nat, j: nat, k: nat)
    requires Walked(b, len, q, i) == Walked(b, len, q, j)
    ensures Walked(b, len, q, i + k) == Walked(b, len, q, j + k)
  {
    if k > 0 {
      Repeats(b, len, q, i, j, k - 1);
      assert i + k - 1 == i + (k - 1) && j + k - 1 == j + (k - 1);
    }
  }

  lemma {:induction false} RevisitLoops(b: seq<Byte>, len: nat, q: Query, i: nat, j: nat, n: nat)
    requires Revisits(b, len, q, i, j)
    ensures Walked(b, len, q, n).At?
    decreases n
  {
    if n <= j {
      if !Walked(b, len, q, n).At? { Stable(b, len, q, n, j); }
    } else {
      var back := n - (j - i);
      RevisitLoops(b, len, q, i, j, back);
      Repeats(b, len, q, i, j, n - j);
    }
  }

  /** Distinct numbers below `bound` are no more than `bound` many. */
  lemma {:induction false} Pigeonhole(s: seq<nat>, bound: nat)
    requires forall i :: 0 <= i < |s| ==> s[i] < bound
    requires forall i, j :: 0 <= i < j < |s| ==> s[i] != s[j]
    ensures |s| <= bound
    decreases bound
  {
    if s == [] {
    } else {
      assert s[0] < bound;
      if k :| 0 <= k < |s| && s[k] == bound - 1 {
        Pigeonhole(s[..k] + s[k + 1..], bound - 1);
      } else {
        Pigeonhole(s, bound - 1);
      }
    }
  }

  /** Cursors stay below 65536, so `n` rounds without a revisit keep `n` below 65536. */
  lemma {:induction false} ManyRoundsRevisit(b: seq<Byte>, len: nat, q: Query, n: nat)
    requires forall i: nat :: i < n ==> Walked(b, len, q, i).At?
    requires n >= 0x1_0000
    ensures exists i: nat, j: nat :: j < n && Revisits(b, len, q, i, j)
  {
    if forall i: nat, j: nat :: j < n ==> !Revisits(b, len, q, i, j) {
      var s := seq(n, (i: nat) requires i < n => Walked(b, len, q, i).cursor - 1);
      forall i, j | 0 <= i < j < |s| ensures s[i] != s[j] {
        assert !Revisits(b, len, q, i, j);
      }
      Pigeonhole(s, 0xFFFF);
    }
  }

  /**
   The loop runs forever exactly when the cursor revisits a position, and this
   shows within the first 65536 rounds.
   */
  lemma {:induction false} DivergesIffRevisits(b: seq<Byte>, len: nat, q: Query)
    ensures !Returns(b, len, q) <==>
            exists i: nat, j: nat :: j < 0x1_0000 && Revisits(b, len, q, i, j)
  {
    if i: nat, j: nat :| j < 0x1_0000 && Revisits(b, len, q, i, j) {
      forall n: nat ensures Walked(b, len, q, n).At? {
        RevisitLoops(b, len, q, i, j, n);
      }
    } else if !Returns(b, len, q) {
      ManyRoundsRevisit(b, len, q, 0x1_0000);
    }
  }

  /** A walk that is left runs for fewer than 65536 rounds, so a 16-bit item counter is exact. */
  lemma {:induction false} RunningBelow(b: seq<Byte>, len: nat, q: Query, n: nat)
    requires Returns(b, len, q) && Walked(b, len, q, n).At?
    ensures n + 1 < 0x1_0000
  {
    if n + 1 >= 0x1_0000 {
      forall i: nat | i < n + 1 ensures Walked(b, len, q, i).At? {
        if !Walked(b, len, q, i).At? { Stable(b, len, q, i, n); }
      }
      ManyRoundsRevisit(b, len, q, n + 1);
      var i: nat, j: nat :| j < n + 1 && Revisits(b, len, q, i, j);
      var m: nat :| !Walked(b, len, q, m).At?;
      RevisitLoops(b, len, q, i, j, m);
    }
  }

  /** The item at the cursor keeps the 16-bit cursor below 65536. */
  ghost predicate Fits(b: seq<Byte>, len: nat, w: State)
  {
    w.At? && w.cursor + 3 <= |b| ==> w.cursor + Get16(b, w.cursor + 1) + 3 < 0x1_0000
  }

  /** No visited item carries the 16-bit cursor past 65535. */
  ghost predicate NeverWraps(b: seq<Byte>, len: nat, q: Query)
  {
    forall n: nat :: Fits(b, len, Walked(b, len, q, n))
  }

  lemma {:induction false} CursorGrows(b: seq<Byte>, len: nat, q: Query, n: nat)
    requires NeverWraps(b, len, q)
    ensures var w := Walked(b, len, q, n); w.At? ==> HEADER_SIZE + 3 * n <= w.cursor
  {
    if n > 0 {
      CursorGrows(b, len, q, n - 1);
      var w := Walked(b, len, q, n - 1);
      assert Fits(b, len, w);
      if w.At? && w.cursor + 3 <= |b| { SkipIsExact(b, len, q, w.cursor); }
    }
  }

  lemma {:induction false} SkipIsExact(b: seq<Byte>, len: nat, q: Query, c: nat)
    requires c < len && c + 3 <= |b| && c + Get16(b, c + 1) + 3 < 0x1_0000
    ensures Advance(b, len, q, c).At? ==> Advance(b, len, q, c).cursor >= c + 3
  {
  }

  /** Without wrap-around `len - cursor` runs out: any packet, well formed or not, is left within `len` rounds. */
  lemma {:induction false} NoWrapReturns(b: seq<Byte>, len: nat, q: Query)
    requires NeverWraps(b, len, q)
    ensures !Walked(b, len, q, len).At?
    ensures Returns(b, len, q)
  {
    CursorGrows(b, len, q, len);
  }

  /** The guard the walkers lack: one item of declared length 65533 holds the cursor still. */
  lemma {:induction false} StuckItem(b: seq<Byte>, len: nat, q: Query)
    requires len >= MIN_SIZE && HEADER_SIZE + 3 <= |b|
    requires !Hits(b, q, HEADER_SIZE)
    requires Get16(b, HEADER_SIZE + 1) == 0xFFFD
    ensures !Returns(b, len, q)
  {
    assert Walked(b, len, q, 0) == At(HEADER_SIZE);
    assert Walked(b, len, q, 1) == Advance(b, len, q, HEADER_SIZE) == At(HEADER_SIZE);
    assert Revisits(b, len, q, 0, 1);
    DivergesIffRevisits(b, len, q);
  }

  // ---- walking whole items ----------------------------------------------------

  /** A packet: seven header bytes followed by whole items, ending at `len`. */
  ghost predicate Carries(b: seq<Byte>, len: nat, ts: seq<Tlv>) {
    && len < 0x1_0000
    && len == HEADER_SIZE + |EncodeAll(ts)|
    && Lies(b, HEADER_SIZE, EncodeAll(ts))
  }

  /** ... and not so short that the walkers refuse it. */
  ghost predicate Holds(b: seq<Byte>, len: nat, ts: seq<Tlv>) {
    MIN_SIZE <= len && Carries(b, len, ts)
  }

  predicate Matches(q: Query, t: Tlv) {
    match q
    case ById(id) => t.id == id
    case OpResult => t.id == 0x02 && |t.value| == 4
    case Every => false
  }

  function Position(ts: seq<Tlv>, k: nat): nat
    requires k <= |ts|
  {
    HEADER_SIZE + Size(ts, k)
  }

  /** Where item `k` lies and where the next one, or the end of the packet, begins. */
  lemma {:induction false} ItemPlaced(b: seq<Byte>, len: nat, ts: seq<Tlv>, k: nat)
    requires Holds(b, len, ts)
    requires k < |ts|
    ensures Lies(b, Position(ts, k), Encode(ts[k]))
    ensures Position(ts, k) + 3 + |ts[k].value| == Position(ts, k + 1) <= len
    ensures k + 1 < |ts| ==> Position(ts, k + 1) + 3 <= len
    ensures k + 1 == |ts| ==> Position(ts, k + 1) == len
  {
    SizeAll(ts);
    EncodedItem(b, HEADER_SIZE, ts, k);
    SizeNext(ts, k);
    SizeMonotone(ts, k + 1, |ts|);
  }

  /** Away from a match, the walk steps from one item to the next. */
  lemma {:induction false} StepsOverItem(b: seq<Byte>, len: nat, ts: seq<Tlv>, q: Query, k: nat)
    requires Holds(b, len, ts)
    requires k < |ts|
    ensures Lies(b, Position(ts, k), Encode(ts[k])) && Position(ts, k) < len
    ensures Advance(b, len, q, Position(ts, k)) ==
            if Matches(q, ts[k]) then Found(Position(ts, k))
            else if k + 1 < |ts| then At(Position(ts, k + 1)) else End
  {
    ItemPlaced(b, len, ts, k);
    var c, next := Position(ts, k), Position(ts, k + 1);
    ItemFields(b, c, ts[k]);
    assert Skip(b, c) == next;
    assert Hits(b, q, c) == Matches(q, ts[k]);
  }

  /** As long as nothing matches, round `k` begins at item `k`; after the last item the walk ends. */
  lemma {:induction false} WalksItems(b: seq<Byte>, len: nat, ts: seq<Tlv>, q: Query, k: nat)
    requires Holds(b, len, ts)
    requires k <= |ts| && forall i :: 0 <= i < k ==> !Matches(q, ts[i])
    ensures Walked(b, len, q, k) == if k < |ts| then At(Position(ts, k)) else End
  {
    if k > 0 {
      WalksItems(b, len, ts, q, k - 1);
      StepsOverItem(b, len, ts, q, k - 1);
    }
  }

  /** The first matching item is where the walk stops. */
  lemma {:induction false} WalkFinds(b: seq<Byte>, len: nat, ts: seq<Tlv>, q: Query, k: nat)
    requires Holds(b, len, ts)
    requires k < |ts| && Matches(q, ts[k]) && forall i :: 0 <= i < k ==> !Matches(q, ts[i])
    ensures Walked(b, len, q, k + 1) == Found(Position(ts, k))
    ensures Lies(b, Position(ts, k), Encode(ts[k]))
  {
    WalksItems(b, len, ts, q, k);
    StepsOverItem(b, len, ts, q, k);
  }

  /** Every whole-item packet is left, whatever the query. */
  lemma {:induction false} WholeItemsReturn(b: seq<Byte>, len: nat, ts: seq<Tlv>, q: Query)
    requires Holds(b, len, ts)
    ensures Returns(b, len, q) && Inside(b, len, q)
  {
    if k: nat :| k < |ts| && Matches(q, ts[k]) && forall i :: 0 <= i < k ==> !Matches(q, ts[i]) {
      WalkFinds(b, len, ts, q, k);
      EndsInside(b, len, q, k + 1);
    } else {
      NoneMatches(ts, q, |ts|);
      WalksItems(b, len, ts, q, |ts|);
      EndsInside(b, len, q, |ts|);
    }
  }

  /** A walk that is left otherwise never reads outside. */
  lemma {:induction false} EndsInside(b: seq<Byte>, len: nat, q: Query, n: nat)
    requires !Walked(b, len, q, n).At? && !Walked(b, len, q, n).Outside?
    ensures Inside(b, len, q)
  {
    forall m: nat ensures !Walked(b, len, q, m).Outside? {
      if !Walked(b, len, q, m).At? { OutcomeUnique(b, len, q, n, m); }
    }
  }

  lemma {:induction false} NoneMatches(ts: seq<Tlv>, q: Query, n: nat)
    requires n <= |ts|
    requires forall k :: 0 <= k < |ts| && Matches(q, ts[k]) ==> exists i :: 0 <= i < k && Matches(q, ts[i])
    ensures forall i :: 0 <= i < n ==> !Matches(q, ts[i])
  {
    if n > 0 { NoneMatches(ts, q, n - 1); }
  }
}
