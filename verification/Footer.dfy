/** pdc_locate.c: the sections of an MCFG footer (layouts in mcfg.h). */
module Footer {
  import opened Bytes

  const EINVAL := 22
  const ENOSPC := 28

  const FOOTER_SIZE := 20
  const PROTO_SIZE := 3
  const MIN_FOOTER := 8 + 5 + 7
  const MAX_SECTIONS := 16
  const MAX_OBJ_SIZE := 64

  const MAGIC: seq<Byte> := [77, 67, 70, 71, 95, 84, 82, 76] // "MCFG_TRL"
  const FOOT_TYPE: DWord := 0x0A
  const FOOT_MAGIC: Word := 0xA1

  const SECTION_VERSION_2: Byte := 0x01
  const SECTION_MCC_MNC: Byte := 0x02

  const VERSION_LIMIT: DWord := 0x0600_0000
  const VERSION_STEP: DWord := 0x0100_0000

  datatype Section = Section(id: Byte, size: Word, blob: seq<Byte>)

  const BLANK := Section(0, 0, [])

  /** Magic string and numbers of the footer header. */
  predicate HeaderOk(b: seq<Byte>)
    requires FOOTER_SIZE <= |b|
  {
    b[12..20] == MAGIC && Get32(b, 4) == FOOT_TYPE && Get16(b, 8) == FOOT_MAGIC
  }

  function Sub32(x: DWord, y: DWord): DWord {
    if y <= x then x - y else x - y + 0x1_0000_0000
  }

  /** The footer is long enough and carries the magic. */
  predicate Accepted(b: seq<Byte>, sz: nat)
    requires sz <= |b|
  {
    sz >= MIN_FOOTER && HeaderOk(b)
  }

  /** The offset the sections must reach: the length less padding and end marker, in 32 bits. */
  function Limit(b: seq<Byte>, sz: nat): DWord
    requires FOOTER_SIZE <= sz <= |b|
  {
    var padded := Sub32(Get32(b, sz - 4), Get32(b, 0));
    Sub32(Sub32(Get32(b, 0), padded), 4)
  }

  /** With padding in its proper range the limit is the footer length less padding and end marker. */
  lemma {:induction false} LimitIs(b: seq<Byte>, sz: nat, padding: nat)
    requires FOOTER_SIZE <= sz <= |b|
    requires Get32(b, sz - 4) as int == Get32(b, 0) as int + padding
    requires padding + 4 <= Get32(b, 0) as int
    ensures Limit(b, sz) as int == Get32(b, 0) as int - padding - 4
  {
  }

  /** The version after the repair loop: steps are taken off until it is within the limit. */
  function Repaired(v: DWord): (r: DWord)
    ensures r <= VERSION_LIMIT
    ensures v <= VERSION_LIMIT ==> r == v
    ensures v > VERSION_LIMIT ==> VERSION_LIMIT - VERSION_STEP < r
    decreases v
  {
    if v > VERSION_LIMIT then Repaired(v - VERSION_STEP) else v
  }

  /** The low 24 bits survive the repair. */
  lemma {:induction false} RepairKeepsLow(v: DWord)
    ensures Repaired(v) % VERSION_STEP == v % VERSION_STEP
    decreases v
  {
    if v > VERSION_LIMIT {
      RepairKeepsLow(v - VERSION_STEP);
      assert (v as int - VERSION_STEP as int) % VERSION_STEP == v % VERSION_STEP;
    }
  }

  /** The version after the repair, in one formula. */
  lemma {:induction false} RepairedIs(v: DWord)
    ensures Repaired(v) as int ==
            if v <= 0x0600_0000 then v
            else if v % 0x0100_0000 == 0 then 0x0600_0000
            else 0x0500_0000 + v % 0x0100_0000
  {
    RepairKeepsLow(v);
  }

  /** The structure read for the section at `at` lies in the footer. */
  predicate SectionReadable(b: seq<Byte>, at: nat) {
    && at + PROTO_SIZE <= |b|
    && (b[at] == SECTION_VERSION_2 || b[at] == SECTION_MCC_MNC ==> at + 7 <= |b|)
  }

  /** The footer after the section at `at` has been looked at. */
  function Touched(b: seq<Byte>, at: nat, fix: bool): (r: seq<Byte>)
    requires SectionReadable(b, at)
    ensures |r| == |b|
  {
    if fix && b[at] == SECTION_VERSION_2 then Overlay(b, at + 3, Le32(Repaired(Get32(b, at + 3)))) else b
  }

  function SectionEnd(b: seq<Byte>, at: nat): nat
    requires at + PROTO_SIZE <= |b|
  {
    var len := Get16(b, at + 1);
    at + PROTO_SIZE + if len == 0 then 1 else len
  }

  function Taken(b: seq<Byte>, at: nat): Section
    requires at + PROTO_SIZE <= |b| && SectionEnd(b, at) <= |b|
    requires SectionEnd(b, at) - at <= MAX_OBJ_SIZE
  {
    Section(b[at], SectionEnd(b, at) - at, b[at..SectionEnd(b, at)])
  }

  /** From section `k` on, everything read lies in the footer and every section fits its slot. */
  predicate Roomy(b: seq<Byte>, at: nat, k: nat, limit: DWord, fix: bool)
    decreases |b|, MAX_SECTIONS - k
  {
    k >= MAX_SECTIONS ||
    (SectionReadable(b, at) &&
     var end := SectionEnd(b, at);
     end <= |b| && end - at <= MAX_OBJ_SIZE &&
     (end < limit ==> Roomy(Touched(b, at, fix), end, k + 1, limit, fix)))
  }

  datatype Analysis = Analysis(status: int, sections: seq<Section>, bytes: seq<Byte>, end: nat)

  /** The section loop from section `k` on. */
  function Analyze(b: seq<Byte>, at: nat, k: nat, limit: DWord, fix: bool): (r: Analysis)
    requires Roomy(b, at, k, limit, fix)
    ensures |r.bytes| == |b|
    decreases |b|, MAX_SECTIONS - k
  {
    if k >= MAX_SECTIONS then Analysis(-ENOSPC, [], b, at)
    else
      var c, end := Touched(b, at, fix), SectionEnd(b, at);
      TouchedKeeps(b, at, fix);
      if end >= limit then Analysis(0, [Taken(c, at)], c, end)
      else Led(Taken(c, at), Analyze(c, end, k + 1, limit, fix))
  }

  datatype Operator = Operator(mcc: Byte, mnc: Byte)

  /** The country and network codes after a section: the low bytes of its two words. */
  function Heard(b: seq<Byte>, at: nat, o: Operator): Operator
    requires SectionReadable(b, at)
  {
    if b[at] == SECTION_MCC_MNC then Operator(b[at + 3], b[at + 5]) else o
  }

  /** The codes the loop ends with; a later section overrides an earlier one. */
  function HeardLast(b: seq<Byte>, at: nat, k: nat, limit: DWord, fix: bool, o: Operator): Operator
    requires Roomy(b, at, k, limit, fix)
    decreases |b|, MAX_SECTIONS - k
  {
    if k >= MAX_SECTIONS then o
    else if SectionEnd(b, at) >= limit then Heard(b, at, o)
    else HeardLast(Touched(b, at, fix), SectionEnd(b, at), k + 1, limit, fix, Heard(b, at, o))
  }

  function Led(s: Section, r: Analysis): Analysis {
    r.(sections := [s] + r.sections)
  }

  /** Looking at a section changes nothing up to its length field, and so not where it ends. */
  lemma {:induction false} TouchedKeeps(b: seq<Byte>, at: nat, fix: bool)
    requires SectionReadable(b, at)
    ensures Touched(b, at, fix)[..at + 3] == b[..at + 3]
    ensures Touched(b, at, fix)[at] == b[at]
    ensures SectionEnd(Touched(b, at, fix), at) == SectionEnd(b, at)
    ensures !fix ==> Touched(b, at, fix) == b
  {
  }

  // ---- tiling -----------------------------------------------------------------------------

  function Blobs(ss: seq<Section>): seq<Byte> {
    if ss == [] then [] else ss[0].blob + Blobs(ss[1..])
  }

  /** A recorded section: a header whose id and length field account for exactly its bytes. */
  predicate SelfSized(s: Section) {
    && PROTO_SIZE < |s.blob| <= MAX_OBJ_SIZE && s.size == |s.blob| && s.blob[0] == s.id
    && var len := Get16(s.blob, 1); s.size == PROTO_SIZE + if len == 0 then 1 else len
  }

  lemma {:induction false} TakenSelfSized(b: seq<Byte>, at: nat)
    requires at + PROTO_SIZE <= |b| && SectionEnd(b, at) <= |b|
    requires SectionEnd(b, at) - at <= MAX_OBJ_SIZE
    ensures SelfSized(Taken(b, at))
  {
  }

  lemma {:induction false} SamePrefix(c: seq<Byte>, d: seq<Byte>, at: nat, end: nat)
    requires at <= end <= |c| && end <= |d| && c[..end] == d[..end]
    ensures c[..at] == d[..at]
  {
  }

  /** What a round leaves of the footer, or leaves to the rounds behind it. */
  lemma {:induction false} LeftByRound(b: seq<Byte>, at: nat, k: nat, limit: DWord, fix: bool)
    requires Roomy(b, at, k, limit, fix) && k < MAX_SECTIONS
    ensures at + 3 <= |b|
    ensures var c, end := Touched(b, at, fix), SectionEnd(b, at);
            at < end <= |c| &&
            if end < limit then
              Roomy(c, end, k + 1, limit, fix) &&
              Analyze(b, at, k, limit, fix).bytes == Analyze(c, end, k + 1, limit, fix).bytes
            else
              Analyze(b, at, k, limit, fix).bytes == c
  {
  }

  /** Later sections leave everything up to their own value alone. */
  lemma {:induction false} AnalyzeKeeps(b: seq<Byte>, at: nat, k: nat, limit: DWord, fix: bool)
    requires Roomy(b, at, k, limit, fix) && at <= |b|
    ensures var r := Analyze(b, at, k, limit, fix);
            r.bytes[..at] == b[..at] && (!fix ==> r.bytes == b)
    decreases |b|, MAX_SECTIONS - k
  {
    if k < MAX_SECTIONS {
      TouchedKeeps(b, at, fix);
      LeftByRound(b, at, k, limit, fix);
      var c, end := Touched(b, at, fix), SectionEnd(b, at);
      SamePrefix(c, b, at, at + 3);
      if end < limit {
        AnalyzeKeeps(c, end, k + 1, limit, fix);
        SamePrefix(Analyze(c, end, k + 1, limit, fix).bytes, c, at, end);
      }
    }
  }

  /** The recorded sections are the bytes from `at` to the final offset, cut up by their own length fields. */
  ghost predicate Tiles(r: Analysis, at: nat) {
    && at <= r.end <= |r.bytes|
    && (forall i :: 0 <= i < |r.sections| ==> SelfSized(r.sections[i]))
    && Blobs(r.sections) == r.bytes[at..r.end]
  }

  lemma {:induction false} TileFirst(s: Section, r: Analysis, at: nat, end: nat)
    requires at <= end && Tiles(r, end) && SelfSized(s)
    requires s.blob == r.bytes[at..end]
    ensures Tiles(Led(s, r), at)
  {
  }

  lemma {:induction false} TileLast(s: Section, c: seq<Byte>, at: nat, end: nat)
    requires at <= end <= |c| && SelfSized(s) && s.blob == c[at..end]
    ensures Tiles(Analysis(0, [s], c, end), at)
  {
  }

  lemma {:induction false} SamePart(c: seq<Byte>, d: seq<Byte>, at: nat, end: nat)
    requires at <= end <= |c| && end <= |d| && c[..end] == d[..end]
    ensures c[at..end] == d[at..end]
  {
  }

  /** What is taken of a section that fits: exactly its bytes, under its own length. */
  lemma {:induction false} TakenFits(b: seq<Byte>, at: nat, k: nat, limit: DWord, fix: bool)
    requires Roomy(b, at, k, limit, fix) && k < MAX_SECTIONS
    ensures var c, end := Touched(b, at, fix), SectionEnd(b, at);
            at < end <= |c| && SectionEnd(c, at) == end &&
            end - at <= MAX_OBJ_SIZE &&
            SelfSized(Taken(c, at)) && Taken(c, at).blob == c[at..end]
  {
    TouchedKeeps(b, at, fix);
    TakenSelfSized(Touched(b, at, fix), at);
  }

  /** The sections behind leave the bytes of this one as they were recorded. */
  lemma {:induction false} RestKeeps(b: seq<Byte>, at: nat, k: nat, limit: DWord, fix: bool)
    requires Roomy(b, at, k, limit, fix) && k < MAX_SECTIONS && SectionEnd(b, at) < limit
    ensures var c, end := Touched(b, at, fix), SectionEnd(b, at);
            at < end <= |c| && SectionEnd(c, at) == end && end - at <= MAX_OBJ_SIZE &&
            Taken(c, at).blob == Analyze(c, end, k + 1, limit, fix).bytes[at..end]
  {
    TakenFits(b, at, k, limit, fix);
    var c, end := Touched(b, at, fix), SectionEnd(b, at);
    AnalyzeKeeps(c, end, k + 1, limit, fix);
    SamePart(c, Analyze(c, end, k + 1, limit, fix).bytes, at, end);
  }

  /**
   Tiling: a successful analysis records at most the sections that fit the
   table, each as long as its own length field says, and their bytes put end to
   end are the footer from `at` to the final offset, with the repairs made.
   */
  lemma {:induction false} SectionsTile(b: seq<Byte>, at: nat, k: nat, limit: DWord, fix: bool)
    requires Roomy(b, at, k, limit, fix) && k <= MAX_SECTIONS
    requires Analyze(b, at, k, limit, fix).status == 0
    ensures var r := Analyze(b, at, k, limit, fix);
            Tiles(r, at) && 1 <= |r.sections| <= MAX_SECTIONS - k && r.end >= limit
    decreases |b|, MAX_SECTIONS - k
  {
    TakenFits(b, at, k, limit, fix);
    var c, end := Touched(b, at, fix), SectionEnd(b, at);
    if end >= limit {
      TileLast(Taken(c, at), c, at, end);
    } else {
      SectionsTile(c, end, k + 1, limit, fix);
      RestKeeps(b, at, k, limit, fix);
      TileFirst(Taken(c, at), Analyze(c, end, k + 1, limit, fix), at, end);
    }
  }

  /** Without the repair the footer is left as it was, so the sections tile the original bytes. */
  lemma {:induction false} SectionsTileOriginal(b: seq<Byte>, limit: DWord)
    requires FOOTER_SIZE <= |b| && Roomy(b, FOOTER_SIZE, 0, limit, false)
    requires Analyze(b, FOOTER_SIZE, 0, limit, false).status == 0
    ensures var r := Analyze(b, FOOTER_SIZE, 0, limit, false);
            FOOTER_SIZE <= r.end <= |b| && |r.sections| <= MAX_SECTIONS &&
            Blobs(r.sections) == b[FOOTER_SIZE..r.end]
  {
    SectionsTile(b, FOOTER_SIZE, 0, limit, false);
    AnalyzeKeeps(b, FOOTER_SIZE, 0, limit, false);
  }

  /** The low bytes of the two words behind the header at `at`, of a country-and-network section. */
  function CodesOf(bytes: seq<Byte>, at: nat, s: Section, o: Operator): Operator {
    if s.id == SECTION_MCC_MNC && at + 6 <= |bytes| then Operator(bytes[at + 3], bytes[at + 5]) else o
  }

  /** The same of the last such section, of sections that stand end to end from `at` on. */
  function CodesAt(bytes: seq<Byte>, at: nat, ss: seq<Section>, o: Operator): Operator
    decreases |ss|
  {
    if ss == [] then o
    else CodesAt(bytes, at + ss[0].size, ss[1..], CodesOf(bytes, at, ss[0], o))
  }

  lemma {:induction false} SameBytes(c: seq<Byte>, d: seq<Byte>, at: nat, end: nat)
    requires at <= end <= |c| && end <= |d| && c[..end] == d[..end]
    ensures forall i :: 0 <= i < at ==> c[i] == d[i]
  {
    assert forall i :: 0 <= i < at ==> c[i] == c[..end][i] && d[i] == d[..end][i];
  }

  /** The sections from `at` on leave everything up to the end of the first header alone. */
  lemma {:induction false} AnalyzeKeepsHeader(b: seq<Byte>, at: nat, k: nat, limit: DWord, fix: bool)
    requires Roomy(b, at, k, limit, fix) && k < MAX_SECTIONS && at + 3 <= |b|
    ensures forall i :: 0 <= i < at + 3 ==> Analyze(b, at, k, limit, fix).bytes[i] == b[i]
  {
    TakenFits(b, at, k, limit, fix);
    TouchedKeeps(b, at, fix);
    var c, end := Touched(b, at, fix), SectionEnd(b, at);
    SameBytes(c, b, at + 3, at + 3);
    if end < limit {
      AnalyzeKeeps(c, end, k + 1, limit, fix);
      SameBytes(Analyze(c, end, k + 1, limit, fix).bytes, c, at + 3, end);
    }
  }

  /** A section the repair does not concern leaves the footer to those behind it. */
  lemma {:induction false} RestOnly(b: seq<Byte>, at: nat, k: nat, limit: DWord, fix: bool)
    requires Roomy(b, at, k, limit, fix) && k < MAX_SECTIONS && b[at] == SECTION_MCC_MNC
    ensures at + 7 <= |b| && at + 4 <= SectionEnd(b, at)
    ensures var end := SectionEnd(b, at);
            if end < limit then
              Roomy(b, end, k + 1, limit, fix) && (k + 1 < MAX_SECTIONS ==> end + 3 <= |b|) &&
              Analyze(b, at, k, limit, fix).bytes == Analyze(b, end, k + 1, limit, fix).bytes
            else
              Analyze(b, at, k, limit, fix).bytes == b
  {
    LeftByRound(b, at, k, limit, fix);
  }

  /** What follows a section leaves the words of its codes alone, be it shorter or longer. */
  lemma {:induction false} RestKeepsCodes(b: seq<Byte>, at: nat, k: nat, limit: DWord, fix: bool)
    requires Roomy(b, at, k, limit, fix) && k < MAX_SECTIONS && b[at] == SECTION_MCC_MNC
    ensures at + 7 <= |b|
    ensures var bytes := Analyze(b, at, k, limit, fix).bytes;
            bytes[at + 3] == b[at + 3] && bytes[at + 5] == b[at + 5]
  {
    RestOnly(b, at, k, limit, fix);
    var end := SectionEnd(b, at);
    if end < limit && k + 1 < MAX_SECTIONS {
      AnalyzeKeepsHeader(b, end, k + 1, limit, fix);
    }
  }

  /** The codes a section brings can be read off the footer as it is left. */
  lemma {:induction false} HeardIs(b: seq<Byte>, at: nat, k: nat, limit: DWord, fix: bool, o: Operator)
    requires Roomy(b, at, k, limit, fix) && k < MAX_SECTIONS
    requires SectionEnd(Touched(b, at, fix), at) <= |b| && SectionEnd(Touched(b, at, fix), at) - at <= MAX_OBJ_SIZE
    ensures CodesOf(Analyze(b, at, k, limit, fix).bytes, at, Taken(Touched(b, at, fix), at), o) == Heard(b, at, o)
  {
    TouchedKeeps(b, at, fix);
    if b[at] == SECTION_MCC_MNC { RestKeepsCodes(b, at, k, limit, fix); }
  }

  /** One round of the loop, told of sections and codes together. */
  lemma {:induction false} OneRound(b: seq<Byte>, at: nat, k: nat, limit: DWord, fix: bool, o: Operator)
    requires Roomy(b, at, k, limit, fix) && k < MAX_SECTIONS
    ensures var c, end := Touched(b, at, fix), SectionEnd(b, at);
            end <= |c| && SectionEnd(c, at) == end && end - at <= MAX_OBJ_SIZE &&
            var r, s := Analyze(b, at, k, limit, fix), Taken(c, at);
            at + s.size == end && CodesOf(r.bytes, at, s, o) == Heard(b, at, o) &&
            if end >= limit then
              r == Analysis(0, [s], c, end) && HeardLast(b, at, k, limit, fix, o) == Heard(b, at, o)
            else
              Roomy(c, end, k + 1, limit, fix) && r == Led(s, Analyze(c, end, k + 1, limit, fix)) &&
              HeardLast(b, at, k, limit, fix, o) == HeardLast(c, end, k + 1, limit, fix, Heard(b, at, o))
  {
    TakenFits(b, at, k, limit, fix);
    HeardIs(b, at, k, limit, fix, o);
  }

  lemma {:induction false} CodesLed(s: Section, rest: Analysis, at: nat, o: Operator)
    ensures CodesAt(rest.bytes, at, Led(s, rest).sections, o) ==
            CodesAt(rest.bytes, at + s.size, rest.sections, CodesOf(rest.bytes, at, s, o))
  {
    assert Led(s, rest).sections[1..] == rest.sections;
  }

  /**
   The codes reported are the low bytes of the two words behind the header of
   the last country-and-network section recorded, as the footer is left. In a
   section shorter than six bytes they are not its own.
   */
  lemma {:induction false} CodesFromFooter(b: seq<Byte>, at: nat, k: nat, limit: DWord, fix: bool, o: Operator)
    requires Roomy(b, at, k, limit, fix)
    ensures var r := Analyze(b, at, k, limit, fix);
            HeardLast(b, at, k, limit, fix, o) == CodesAt(r.bytes, at, r.sections, o)
    decreases |b|, MAX_SECTIONS - k
  {
    if k < MAX_SECTIONS {
      OneRound(b, at, k, limit, fix, o);
      var c, end := Touched(b, at, fix), SectionEnd(b, at);
      if end < limit {
        CodesLed(Taken(c, at), Analyze(c, end, k + 1, limit, fix), at, o);
        CodesFromFooter(c, end, k + 1, limit, fix, Heard(b, at, o));
      }
    }
  }

  /** The codes of the last country-and-network section among the recorded ones. */
  function LastCodes(ss: seq<Section>, o: Operator): Operator {
    if ss == [] then o
    else
      var s := ss[0];
      LastCodes(ss[1..], if s.id == SECTION_MCC_MNC && |s.blob| >= 6 then Operator(s.blob[3], s.blob[5]) else o)
  }

  /** Country-and-network sections are long enough to hold their two words' low bytes. */
  predicate CodesInside(ss: seq<Section>) {
    forall i :: 0 <= i < |ss| && ss[i].id == SECTION_MCC_MNC ==> |ss[i].blob| >= 6
  }

  lemma {:induction false} SliceParts(c: seq<Byte>, at: nat, end: nat, x: seq<Byte>, y: seq<Byte>)
    requires at <= end <= |c| && c[at..end] == x + y
    ensures at + |x| <= end && c[at..at + |x|] == x && c[at + |x|..end] == y
  {
    assert |c[at..end]| == end - at;
    assert c[at..at + |x|] == c[at..end][..|x|];
    assert c[at + |x|..end] == c[at..end][|x|..];
  }

  /** In sections that are long enough the codes are their own. */
  lemma {:induction false} CodesFromSections(r: Analysis, at: nat, o: Operator)
    requires Tiles(r, at) && CodesInside(r.sections)
    ensures CodesAt(r.bytes, at, r.sections, o) == LastCodes(r.sections, o)
    decreases |r.sections|
  {
    if r.sections != [] {
      var s := r.sections[0];
      var rest := r.(sections := r.sections[1..]);
      assert SelfSized(s);
      SliceParts(r.bytes, at, r.end, s.blob, Blobs(rest.sections));
      assert s.id == SECTION_MCC_MNC ==>
          s.blob[3] == r.bytes[at..at + |s.blob|][3] && s.blob[5] == r.bytes[at..at + |s.blob|][5];
      assert forall i :: 0 <= i < |rest.sections| ==> rest.sections[i] == r.sections[i + 1];
      var o' := if s.id == SECTION_MCC_MNC then Operator(s.blob[3], s.blob[5]) else o;
      CodesFromSections(rest, at + |s.blob|, o');
    }
  }

  // ---- the analyser -----------------------------------------------------------------------

  /** What is still to be done follows what has been recorded. */
  ghost predicate Pending(b: seq<Byte>, at: nat, k: nat, limit: DWord, fix: bool, whole: Analysis,
                          recorded: seq<Section>, last: Operator, now: Operator)
  {
    && Roomy(b, at, k, limit, fix)
    && whole == Behind(recorded, Analyze(b, at, k, limit, fix))
    && last == HeardLast(b, at, k, limit, fix, now)
  }

  lemma {:induction false} PendingStart(b: seq<Byte>, at: nat, limit: DWord, fix: bool, now: Operator)
    requires Roomy(b, at, 0, limit, fix)
    ensures Pending(b, at, 0, limit, fix, Analyze(b, at, 0, limit, fix), [], HeardLast(b, at, 0, limit, fix, now), now)
  {
    BehindNothing(Analyze(b, at, 0, limit, fix));
  }

  lemma {:induction false} PendingStep(b: seq<Byte>, at: nat, k: nat, limit: DWord, fix: bool, whole: Analysis,
                                       recorded: seq<Section>, last: Operator, now: Operator)
    requires Pending(b, at, k, limit, fix, whole, recorded, last, now) && k < MAX_SECTIONS
    ensures var c, end := Touched(b, at, fix), SectionEnd(b, at);
            at < end <= |c| && SectionEnd(c, at) == end && end - at <= MAX_OBJ_SIZE &&
            if end >= limit then
              whole == Analysis(0, recorded + [Taken(c, at)], c, end) && last == Heard(b, at, now)
            else
              Pending(c, end, k + 1, limit, fix, whole, recorded + [Taken(c, at)], last, Heard(b, at, now))
  {
  }

  lemma {:induction false} PendingFull(b: seq<Byte>, at: nat, k: nat, limit: DWord, fix: bool, whole: Analysis,
                                       recorded: seq<Section>, last: Operator, now: Operator)
    requires Pending(b, at, k, limit, fix, whole, recorded, last, now) && k >= MAX_SECTIONS
    ensures whole == Analysis(-ENOSPC, recorded, b, at) && last == now
  {
  }

  class FooterReader {
    /** `footer_items`: cleared at the start of every analysis. */
    const footerItems: array<Section>
    const fixCarrierId: bool

    constructor (fix: bool)
      ensures fresh(footerItems) && footerItems.Length == MAX_SECTIONS && fixCarrierId == fix
    {
      footerItems := new Section[MAX_SECTIONS](_ => BLANK);
      fixCarrierId := fix;
    }

    /** The repair loop on one version word. */
    method RepairVersion(v: DWord) returns (r: DWord)
      ensures r == Repaired(v)
    {
      r := v;
      while r > VERSION_LIMIT
        invariant Repaired(r) == Repaired(v)
        decreases r
      {
        r := r - VERSION_STEP;
      }
    }

    /** What is done for one section before it is recorded. */
    method LookAt(footer: array<Byte>, at: nat, heard: Operator) returns (now: Operator)
      requires SectionReadable(footer[..], at)
      modifies footer
      ensures footer[..] == Touched(old(footer[..]), at, fixCarrierId)
      ensures now == Heard(old(footer[..]), at, heard)
    {
      now := heard;
      if footer[at] == SECTION_VERSION_2 {
        if fixCarrierId {
          var v := RepairVersion(Get32(footer[..], at + 3));
          Put(footer, at + 3, Le32(v));
        }
      } else if footer[at] == SECTION_MCC_MNC {
        now := Operator(footer[at + 3], footer[at + 5]);
      }
    }

    method ClearItems()
      requires footerItems.Length == MAX_SECTIONS
      modifies footerItems
      ensures forall i :: 0 <= i < MAX_SECTIONS ==> footerItems[i] == BLANK
    {
      forall i | 0 <= i < MAX_SECTIONS { footerItems[i] := BLANK; }
    }

    /**
     `analyze_footer`: status 0, or -EINVAL with nothing recorded when the
     footer is too short or has the wrong magic, or -ENOSPC after 16 sections.
     */
    method AnalyzeFooter(footer: array<Byte>, sz: Word, heard: Operator) returns (status: int, now: Operator)
      requires footerItems.Length == MAX_SECTIONS && sz <= footer.Length
      requires Accepted(footer[..], sz) ==>
        Roomy(footer[..], FOOTER_SIZE, 0, Limit(footer[..], sz), fixCarrierId)
      modifies footer, footerItems
      ensures !Accepted(old(footer[..]), sz) ==>
        status == -EINVAL && footer[..] == old(footer[..]) && now == heard &&
        forall i :: 0 <= i < MAX_SECTIONS ==> footerItems[i] == BLANK
      ensures Accepted(old(footer[..]), sz) ==>
        var b := old(footer[..]);
        Recorded(Analyze(b, FOOTER_SIZE, 0, Limit(b, sz), fixCarrierId), status, footer) &&
        now == HeardLast(b, FOOTER_SIZE, 0, Limit(b, sz), fixCarrierId, heard)
    {
      ClearItems();
      if sz < MIN_FOOTER {
        return -EINVAL, heard;
      }
      if footer[12..20] != MAGIC || Get32(footer[..], 4) != FOOT_TYPE || Get16(footer[..], 8) != FOOT_MAGIC {
        return -EINVAL, heard;
      }
      var limit := Limit(footer[..], sz);
      status, now := RecordSections(footer, limit, heard);
    }

    ghost predicate Recorded(r: Analysis, status: int, footer: array<Byte>)
      reads footer, footerItems
    {
      && status == r.status && footer[..] == r.bytes
      && |r.sections| <= footerItems.Length && footerItems[..|r.sections|] == r.sections
    }

    /** One round of the loop: look, step, record. */
    method RecordOne(footer: array<Byte>, at: nat, k: nat, limit: DWord, heard: Operator,
                     ghost whole: Analysis, ghost last: Operator)
      returns (end: nat, now: Operator)
      requires footerItems.Length == MAX_SECTIONS && k < MAX_SECTIONS
      requires Pending(footer[..], at, k, limit, fixCarrierId, whole, footerItems[..k], last, heard)
      modifies footer, footerItems
      ensures if end >= limit then
                whole == Analysis(0, footerItems[..k + 1], footer[..], end) && last == now
              else
                Pending(footer[..], end, k + 1, limit, fixCarrierId, whole, footerItems[..k + 1], last, now)
    {
      ghost var b, recorded := footer[..], footerItems[..k];
      PendingStep(b, at, k, limit, fixCarrierId, whole, recorded, last, heard);
      now := LookAt(footer, at, heard);
      end := SectionEnd(footer[..], at);
      footerItems[k] := Section(footer[at], end - at, footer[at..end]);
      assert footerItems[..k + 1] == recorded + [Taken(footer[..], at)];
    }

    method RecordSections(footer: array<Byte>, limit: DWord, heard: Operator) returns (status: int, now: Operator)
      requires footerItems.Length == MAX_SECTIONS
      requires Roomy(footer[..], FOOTER_SIZE, 0, limit, fixCarrierId)
      modifies footer, footerItems
      ensures Recorded(Analyze(old(footer[..]), FOOTER_SIZE, 0, limit, fixCarrierId), status, footer)
      ensures now == HeardLast(old(footer[..]), FOOTER_SIZE, 0, limit, fixCarrierId, heard)
    {
      ghost var whole := Analyze(footer[..], FOOTER_SIZE, 0, limit, fixCarrierId);
      now := heard;
      ghost var last := HeardLast(footer[..], FOOTER_SIZE, 0, limit, fixCarrierId, heard);
      var at: nat, k, done := FOOTER_SIZE, 0, false;
      PendingStart(footer[..], at, limit, fixCarrierId, now);
      assert footerItems[..0] == [];
      while !done
        invariant 0 <= k <= MAX_SECTIONS
        invariant !done ==>
          Pending(footer[..], at, k, limit, fixCarrierId, whole, footerItems[..k], last, now)
        invariant done ==> whole == Analysis(0, footerItems[..k], footer[..], at) && last == now
        decreases MAX_SECTIONS - k, !done
      {
        if k > 15 {
          PendingFull(footer[..], at, k, limit, fixCarrierId, whole, footerItems[..k], last, now);
          assert whole.sections == footerItems[..k];
          return -ENOSPC, now;
        }
        var end: nat;
        end, now := RecordOne(footer, at, k, limit, now, whole, last);
        if end >= limit {
          done := true;
        }
        at := end;
        k := k + 1;
      }
      status := 0;
    }
  }

  function Behind(ss: seq<Section>, r: Analysis): Analysis {
    r.(sections := ss + r.sections)
  }

  lemma {:induction false} BehindNothing(r: Analysis)
    ensures Behind([], r) == r
  {
  }
}
