/** Footers written out in the layouts of mcfg.h, and what the analysis of pdc_locate.c makes of them. */
module FooterImages {
  import opened Bytes
  import opened Footer

  // ---- the layout --------------------------------------------------------------------------------

  datatype RawPiece =
    | Version1(number: Word)
    | Version2(version: DWord)
    | Operators(mcc: Word, mnc: Word)
    | Other(id: Byte, data: seq<Byte>)
    | Empty(id: Byte, filler: Byte)

  /** The sections a footer is made of; a section of length 0 takes up one byte more. */
  type Piece = p: RawPiece | Proper(p) witness Version1(256)

  predicate Proper(p: RawPiece) {
    match p
    case Other(id, data) => id != 0x01 && id != 0x02 && 1 <= |data| <= 61
    case Empty(id, _) => id != 0x01 && id != 0x02
    case _ => true
  }

  function EncodePiece(p: Piece): (s: seq<Byte>)
    ensures 4 <= |s| <= 64
  {
    match p
    case Version1(v) => [0x00, 0x02, 0x00] + Le16(v)
    case Version2(v) => [0x01, 0x04, 0x00] + Le32(v)
    case Operators(mcc, mnc) => [0x02, 0x04, 0x00] + (Le16(mcc) + Le16(mnc))
    case Other(id, data) => [id, |data|, 0x00] + data
    case Empty(id, filler) => [id, 0x00, 0x00, filler]
  }

  function EncodePieces(ps: seq<Piece>): seq<Byte> {
    if ps == [] then [] else EncodePiece(ps[0]) + EncodePieces(ps[1..])
  }

  /** "MCFG_TRL". */
  const TRAILER: seq<Byte> := [0x4D, 0x43, 0x46, 0x47, 0x5F, 0x54, 0x52, 0x4C]

  /** Type 0x0A in 32 bits and magic 0xA1 in 16. */
  const NUMBERS: seq<Byte> := [0x0A, 0x00, 0x00, 0x00, 0xA1, 0x00]

  function FooterLength(body: seq<Byte>, padding: seq<Byte>): nat {
    24 + |body| + |padding|
  }

  function FooterHead(length: DWord, trimmed: Word): (h: seq<Byte>)
    ensures |h| == 20
  {
    Le32(length) + NUMBERS + Le16(trimmed) + TRAILER
  }

  /** A footer around the encoded sections: its header, padding and end marker. */
  function FooterAround(body: seq<Byte>, trimmed: Word, padding: seq<Byte>): (f: seq<Byte>)
    requires FooterLength(body, padding) + |padding| < 0x1_0000_0000
    ensures |f| == FooterLength(body, padding)
  {
    FooterHead(FooterLength(body, padding), trimmed) + body + padding +
    Le32(FooterLength(body, padding) + |padding|)
  }

  // ---- acceptance ----------------------------------------------------------------------------------

  /**
   A footer is accepted exactly when it has 20 bytes, carries type 0x0A and magic
   0xA1 in bytes 4 to 9 and the letters "MCFG_TRL" in bytes 12 to 19; with any
   of those bytes changed it is refused.
   */
  lemma {:induction false} AcceptedIff(b: seq<Byte>, sz: nat)
    requires sz <= |b|
    ensures Accepted(b, sz) <==> sz >= 20 && b[4..10] == NUMBERS && b[12..20] == TRAILER
  {
    if sz >= 20 {
      NumbersAre(b);
      assert MAGIC == TRAILER;
    }
  }

  lemma {:induction false} NumbersAre(b: seq<Byte>)
    requires |b| >= 20
    ensures b[4..10] == NUMBERS <==> Get32(b, 4) == 0x0A && Get16(b, 8) == 0xA1
  {
    var n := b[4..10];
    assert n[0] == b[4] && n[1] == b[5] && n[2] == b[6] && n[3] == b[7] && n[4] == b[8] && n[5] == b[9];
  }

  // ---- one section -----------------------------------------------------------------------------------

  function SectionOf(p: Piece): Section {
    var s := EncodePiece(p);
    Section(s[0], |s|, s)
  }

  /** What the repair makes of a section: the version brought within its limit. */
  function Mended(p: Piece, fix: bool): Piece {
    if fix && p.Version2? then Version2(Repaired(p.version)) else p
  }

  /** The codes after a section, as single bytes. */
  function Codes(p: Piece, o: Operator): Operator {
    match p
    case Operators(mcc, mnc) => Operator(mcc % 0x100, mnc % 0x100)
    case _ => o
  }

  lemma {:induction false} LiesAt(b: seq<Byte>, at: nat, s: seq<Byte>)
    requires Lies(b, at, s)
    ensures forall i :: 0 <= i < |s| ==> b[at + i] == s[i]
  {
  }

  lemma {:induction false} PieceRead(b: seq<Byte>, at: nat, p: Piece)
    requires Lies(b, at, EncodePiece(p))
    ensures SectionReadable(b, at) && SectionEnd(b, at) == at + |EncodePiece(p)|
    ensures b[at] == 0x01 <==> p.Version2?
    ensures b[at] == 0x02 <==> p.Operators?
  {
    LiesAt(b, at, EncodePiece(p));
  }

  lemma {:induction false} PieceHeard(b: seq<Byte>, at: nat, p: Piece, o: Operator)
    requires Lies(b, at, EncodePiece(p)) && SectionReadable(b, at)
    ensures Heard(b, at, o) == Codes(p, o)
  {
    PieceRead(b, at, p);
    LiesAt(b, at, EncodePiece(p));
  }

  /** Bytes laid over themselves change nothing. */
  lemma {:induction false} OverlaySame(b: seq<Byte>, at: nat, s: seq<Byte>)
    requires Lies(b, at, s)
    ensures Overlay(b, at, s) == b
  {
    assert b == b[..at] + b[at..at + |s|] + b[at + |s|..];
  }

  /** Behind bytes that stay, laying over the rest is laying over the whole. */
  lemma {:induction false} OverlayRest(b: seq<Byte>, at: nat, h: seq<Byte>, s: seq<Byte>)
    requires Lies(b, at, h) && at + |h| + |s| <= |b|
    ensures Overlay(b, at + |h|, s) == Overlay(b, at, h + s)
  {
    assert b[..at + |h|] == b[..at] + b[at..at + |h|];
    assert at + |h| + |s| == at + |h + s|;
  }

  lemma {:induction false} PieceMended(b: seq<Byte>, at: nat, p: Piece, fix: bool)
    requires Lies(b, at, EncodePiece(p)) && SectionReadable(b, at)
    ensures |EncodePiece(Mended(p, fix))| == |EncodePiece(p)|
    ensures Touched(b, at, fix) == Overlay(b, at, EncodePiece(Mended(p, fix)))
  {
    PieceRead(b, at, p);
    if fix && p.Version2? {
      LiesSplit(b, at, [0x01, 0x04, 0x00], Le32(p.version));
      VersionAt(b, at + 3, p.version);
      OverlayRest(b, at, [0x01, 0x04, 0x00], Le32(Repaired(p.version)));
    } else {
      OverlaySame(b, at, EncodePiece(p));
    }
  }

  lemma {:induction false} VersionAt(b: seq<Byte>, at: nat, v: DWord)
    requires Lies(b, at, Le32(v))
    ensures Get32(b, at) == v
  {
    LiesAt(b, at, Le32(v));
  }

  lemma {:induction false} PieceTaken(c: seq<Byte>, at: nat, p: Piece)
    requires Lies(c, at, EncodePiece(p)) && at + PROTO_SIZE <= |c| && SectionEnd(c, at) == at + |EncodePiece(p)|
    ensures Taken(c, at) == SectionOf(p)
  {
    LiesAt(c, at, EncodePiece(p));
  }

  // ---- all sections --------------------------------------------------------------------------------

  function SectionsOf(ps: seq<Piece>): (ss: seq<Section>)
    ensures |ss| == |ps| && forall i :: 0 <= i < |ps| ==> ss[i] == SectionOf(ps[i])
  {
    if ps == [] then [] else [SectionOf(ps[0])] + SectionsOf(ps[1..])
  }

  function MendedAll(ps: seq<Piece>, fix: bool): (qs: seq<Piece>)
    ensures |qs| == |ps| && forall i :: 0 <= i < |ps| ==> qs[i] == Mended(ps[i], fix)
  {
    if ps == [] then [] else [Mended(ps[0], fix)] + MendedAll(ps[1..], fix)
  }

  /** The codes after all sections: those of the last operator section. */
  function LastOperators(ps: seq<Piece>, o: Operator): Operator {
    if ps == [] then o else LastOperators(ps[1..], Codes(ps[0], o))
  }

  /** The sections from the `k`-th on that there is room for. */
  function Recordable(ps: seq<Piece>, k: nat): seq<Piece>
    requires k <= MAX_SECTIONS
  {
    if |ps| <= MAX_SECTIONS - k then ps else ps[..MAX_SECTIONS - k]
  }

  /** The outcome the analysis of these sections is to have from section `k` on. */
  ghost predicate Outcome(r: Analysis, heard: Operator, k: nat, fix: bool, ps: seq<Piece>, o: Operator)
    requires k <= MAX_SECTIONS
  {
    && r.status == (if |ps| <= MAX_SECTIONS - k then 0 else -28)
    && r.sections == SectionsOf(MendedAll(Recordable(ps, k), fix))
    && heard == LastOperators(Recordable(ps, k), o)
  }

  ghost predicate Finds(b: seq<Byte>, at: nat, k: nat, limit: DWord, fix: bool, ps: seq<Piece>, o: Operator)
    requires k <= MAX_SECTIONS
  {
    && Roomy(b, at, k, limit, fix)
    && Outcome(Analyze(b, at, k, limit, fix), HeardLast(b, at, k, limit, fix, o), k, fix, ps, o)
  }

  /** The first section is recorded, and the rest lies where the loop goes on. */
  lemma {:induction false} FirstPiece(b: seq<Byte>, at: nat, p: Piece, rest: seq<Byte>, fix: bool, o: Operator)
    requires Lies(b, at, EncodePiece(p) + rest)
    ensures SectionReadable(b, at)
    ensures var c, end := Touched(b, at, fix), SectionEnd(b, at);
            end == at + |EncodePiece(p)| && |c| == |b| && Lies(c, end, rest) &&
            SectionEnd(c, at) == end && end <= |c| && end - at <= MAX_OBJ_SIZE &&
            Taken(c, at) == SectionOf(Mended(p, fix)) && Heard(b, at, o) == Codes(p, o)
  {
    LiesSplit(b, at, EncodePiece(p), rest);
    PieceRead(b, at, p);
    PieceHeard(b, at, p, o);
    PieceMended(b, at, p, fix);
    TouchedKeeps(b, at, fix);
    var q := Mended(p, fix);
    var c, end := Touched(b, at, fix), SectionEnd(b, at);
    assert c[at..end] == EncodePiece(q);
    assert c[end..] == b[end..];
    assert c[end..end + |rest|] == b[end..end + |rest|];
    PieceTaken(c, at, q);
  }

  lemma {:induction false} FindsNone(b: seq<Byte>, at: nat, limit: DWord, fix: bool, ps: seq<Piece>, o: Operator)
    requires ps != []
    ensures Finds(b, at, MAX_SECTIONS, limit, fix, ps, o)
  {
    assert Recordable(ps, MAX_SECTIONS) == [];
  }

  lemma {:induction false} FindsLast(b: seq<Byte>, at: nat, k: nat, limit: DWord, fix: bool, p: Piece, o: Operator)
    requires k < MAX_SECTIONS && Lies(b, at, EncodePiece(p)) && limit as int == at + |EncodePiece(p)|
    ensures Finds(b, at, k, limit, fix, [p], o)
  {
    assert EncodePiece(p) + [] == EncodePiece(p);
    FirstPiece(b, at, p, [], fix, o);
    assert MendedAll([p], fix) == [Mended(p, fix)];
    assert LastOperators([p], o) == LastOperators([], Codes(p, o));
  }

  lemma {:induction false} RecordableRest(ps: seq<Piece>, k: nat, fix: bool, o: Operator)
    requires ps != [] && k < MAX_SECTIONS
    ensures var qs := Recordable(ps, k);
            qs != [] && qs[0] == ps[0] && qs[1..] == Recordable(ps[1..], k + 1) &&
            SectionsOf(MendedAll(qs, fix)) ==
              [SectionOf(Mended(ps[0], fix))] + SectionsOf(MendedAll(qs[1..], fix)) &&
            LastOperators(qs, o) == LastOperators(qs[1..], Codes(ps[0], o))
  {
    var qs := Recordable(ps, k);
    assert qs[1..] == Recordable(ps[1..], k + 1);
    assert MendedAll(qs, fix)[1..] == MendedAll(qs[1..], fix);
  }

  lemma {:induction false} RoomyStep(b: seq<Byte>, at: nat, k: nat, limit: DWord, fix: bool)
    requires k < MAX_SECTIONS && SectionReadable(b, at)
    requires SectionEnd(b, at) <= |b| && SectionEnd(b, at) - at <= MAX_OBJ_SIZE
    requires Roomy(Touched(b, at, fix), SectionEnd(b, at), k + 1, limit, fix)
    ensures Roomy(b, at, k, limit, fix)
  {
  }

  lemma {:induction false} OutcomeLed(s: Section, r: Analysis, heard: Operator, k: nat, fix: bool, ps: seq<Piece>,
                                      o: Operator)
    requires k < MAX_SECTIONS && ps != [] && s == SectionOf(Mended(ps[0], fix))
    requires Outcome(r, heard, k + 1, fix, ps[1..], Codes(ps[0], o))
    ensures Outcome(Led(s, r), heard, k, fix, ps, o)
  {
    RecordableRest(ps, k, fix, o);
  }

  /** The loop goes from this place with this section recorded to that place. */
  ghost predicate Leads(b: seq<Byte>, at: nat, k: nat, limit: DWord, fix: bool, o: Operator,
                        s: Section, c: seq<Byte>, end: nat, o': Operator)
  {
    && Roomy(b, at, k, limit, fix) && Roomy(c, end, k + 1, limit, fix)
    && Analyze(b, at, k, limit, fix) == Led(s, Analyze(c, end, k + 1, limit, fix))
    && HeardLast(b, at, k, limit, fix, o) == HeardLast(c, end, k + 1, limit, fix, o')
  }

  lemma {:induction false} RoundLeads(b: seq<Byte>, at: nat, k: nat, limit: DWord, fix: bool, o: Operator,
                                      s: Section, c: seq<Byte>, end: nat, o': Operator)
    requires k < MAX_SECTIONS && Roomy(b, at, k, limit, fix)
    requires c == Touched(b, at, fix) && end == SectionEnd(b, at) < limit as int && end <= |c|
    requires SectionEnd(c, at) == end && end - at <= MAX_OBJ_SIZE && s == Taken(c, at) && o' == Heard(b, at, o)
    ensures Leads(b, at, k, limit, fix, o, s, c, end, o')
  {
    OneRound(b, at, k, limit, fix, o);
  }

  lemma {:induction false} PieceLeads(b: seq<Byte>, at: nat, k: nat, limit: DWord, fix: bool, p: Piece,
                                      rest: seq<Byte>, o: Operator)
    requires k < MAX_SECTIONS && Lies(b, at, EncodePiece(p) + rest) && at + |EncodePiece(p)| < limit as int
    requires SectionReadable(b, at)
    requires Roomy(Touched(b, at, fix), at + |EncodePiece(p)|, k + 1, limit, fix)
    ensures Leads(b, at, k, limit, fix, o, SectionOf(Mended(p, fix)), Touched(b, at, fix), at + |EncodePiece(p)|,
                  Codes(p, o))
  {
    FirstPiece(b, at, p, rest, fix, o);
    RoomyStep(b, at, k, limit, fix);
    RoundLeads(b, at, k, limit, fix, o, SectionOf(Mended(p, fix)), Touched(b, at, fix), at + |EncodePiece(p)|,
               Codes(p, o));
  }

  lemma {:induction false} LeadsFinds(b: seq<Byte>, at: nat, k: nat, limit: DWord, fix: bool, ps: seq<Piece>,
                                      o: Operator, c: seq<Byte>, end: nat)
    requires k < MAX_SECTIONS && ps != []
    requires Leads(b, at, k, limit, fix, o, SectionOf(Mended(ps[0], fix)), c, end, Codes(ps[0], o))
    requires Finds(c, end, k + 1, limit, fix, ps[1..], Codes(ps[0], o))
    ensures Finds(b, at, k, limit, fix, ps, o)
  {
    OutcomeLed(SectionOf(Mended(ps[0], fix)), Analyze(c, end, k + 1, limit, fix),
               HeardLast(c, end, k + 1, limit, fix, Codes(ps[0], o)), k, fix, ps, o);
  }

  lemma {:induction false} FindsMore(b: seq<Byte>, at: nat, k: nat, limit: DWord, fix: bool, ps: seq<Piece>,
                                     o: Operator)
    requires k < MAX_SECTIONS && |ps| > 1 && Lies(b, at, EncodePieces(ps))
    requires at + |EncodePiece(ps[0])| < limit as int
    requires SectionReadable(b, at)
    requires Finds(Touched(b, at, fix), at + |EncodePiece(ps[0])|, k + 1, limit, fix, ps[1..], Codes(ps[0], o))
    ensures Finds(b, at, k, limit, fix, ps, o)
  {
    PieceLeads(b, at, k, limit, fix, ps[0], EncodePieces(ps[1..]), o);
    LeadsFinds(b, at, k, limit, fix, ps, o, Touched(b, at, fix), at + |EncodePiece(ps[0])|);
  }

  /** Where the loop goes on behind the first of several sections. */
  lemma {:induction false} NextPlace(b: seq<Byte>, at: nat, limit: DWord, fix: bool, ps: seq<Piece>)
    requires |ps| > 1 && Lies(b, at, EncodePieces(ps)) && limit as int == at + |EncodePieces(ps)|
    ensures SectionReadable(b, at)
    ensures var next := at + |EncodePiece(ps[0])|;
            next < limit as int == next + |EncodePieces(ps[1..])| &&
            Lies(Touched(b, at, fix), next, EncodePieces(ps[1..]))
  {
    var rest := ps[1..];
    FirstPiece(b, at, ps[0], EncodePieces(rest), fix, Operator(0, 0));
    assert EncodePieces(rest) == EncodePiece(rest[0]) + EncodePieces(rest[1..]);
  }

  /** Wherever these sections lie up to the limit, they are found. */
  ghost predicate FoundAnywhere(k: nat, ps: seq<Piece>)
    requires k <= MAX_SECTIONS
  {
    forall b: seq<Byte>, at: nat, limit: DWord, fix: bool, o: Operator ::
      Lies(b, at, EncodePieces(ps)) && limit as int == at + |EncodePieces(ps)| ==> Finds(b, at, k, limit, fix, ps, o)
  }

  lemma {:induction false} FindsFirst(b: seq<Byte>, at: nat, k: nat, limit: DWord, fix: bool, ps: seq<Piece>,
                                      o: Operator)
    requires k < MAX_SECTIONS && |ps| > 1 && FoundAnywhere(k + 1, ps[1..])
    requires Lies(b, at, EncodePieces(ps)) && limit as int == at + |EncodePieces(ps)|
    ensures Finds(b, at, k, limit, fix, ps, o)
  {
    NextPlace(b, at, limit, fix, ps);
    assert Finds(Touched(b, at, fix), at + |EncodePiece(ps[0])|, k + 1, limit, fix, ps[1..], Codes(ps[0], o));
    FindsMore(b, at, k, limit, fix, ps, o);
  }

  lemma {:induction false} FindsPieces(k: nat, ps: seq<Piece>)
    requires k <= MAX_SECTIONS && ps != []
    ensures FoundAnywhere(k, ps)
    decreases |ps|
  {
    if |ps| > 1 && k < MAX_SECTIONS { FindsPieces(k + 1, ps[1..]); }
    forall b: seq<Byte>, at: nat, limit: DWord, fix: bool, o: Operator
      | Lies(b, at, EncodePieces(ps)) && limit as int == at + |EncodePieces(ps)|
      ensures Finds(b, at, k, limit, fix, ps, o)
    {
      if k == MAX_SECTIONS {
        FindsNone(b, at, limit, fix, ps, o);
      } else if |ps| == 1 {
        assert EncodePieces(ps) == EncodePiece(ps[0]) + [] && ps == [ps[0]];
        FindsLast(b, at, k, limit, fix, ps[0], o);
      } else {
        FindsFirst(b, at, k, limit, fix, ps, o);
      }
    }
  }

  // ---- whole footers -----------------------------------------------------------------------------

  lemma {:induction false} FooterParts(body: seq<Byte>, trimmed: Word, padding: seq<Byte>)
    requires FooterLength(body, padding) + |padding| < 0x1_0000_0000
    ensures var f, n := FooterAround(body, trimmed, padding), FooterLength(body, padding);
            Get32(f, 0) as int == n && Get32(f, |f| - 4) as int == n + |padding| &&
            f[4..10] == NUMBERS && f[12..20] == TRAILER && Lies(f, 20, body)
  {
    var f, n := FooterAround(body, trimmed, padding), FooterLength(body, padding);
    var h, e := FooterHead(n, trimmed), Le32(n + |padding|);
    assert f[..20] == h && h[..4] == Le32(n) && h[4..10] == NUMBERS && h[12..20] == TRAILER;
    assert f[4..10] == h[4..10] && f[12..20] == h[12..20];
    assert f[20..20 + |body|] == body;
    assert f[|f| - 4..] == e;
    LiesAt(f, 0, Le32(n));
    LiesAt(f, |f| - 4, e);
  }

  /**
   Round trip: a footer of 1 to 16 sections, with any padding, is accepted and
   analysed with status 0; exactly the sections it was made of are recorded, the
   repair having changed the versions above the limit and nothing else, and the
   codes are those of its last operator section. With more sections the first
   16 are recorded and the status is -ENOSPC.
   */
  lemma {:induction false} FooterRoundTrip(ps: seq<Piece>, trimmed: Word, padding: seq<Byte>, fix: bool, o: Operator)
    requires ps != [] && FooterLength(EncodePieces(ps), padding) < 0x1_0000
    ensures var f := FooterAround(EncodePieces(ps), trimmed, padding);
            Accepted(f, |f|) && Limit(f, |f|) as int == 20 + |EncodePieces(ps)| &&
            Finds(f, 20, 0, Limit(f, |f|), fix, ps, o)
  {
    var body := EncodePieces(ps);
    var f := FooterAround(body, trimmed, padding);
    FooterParts(body, trimmed, padding);
    AcceptedIff(f, |f|);
    LimitIs(f, |f|, |padding|);
    FindsPieces(0, ps);
  }
}
