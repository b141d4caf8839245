/** pdc_locate.c: offset accounting over the items of an MCFG image (layouts in mcfg.h). */
module Mcfg {
  import opened Bytes
  import opened Options
  import Footer

  const ITEM_HEADER := 8
  const NV_HEADER := 4
  const PART_HEADER := 4
  /** The file header and the version data in front of the first item. */
  const FRONT := 16 + 8

  const TYPE_NV: Byte := 0x01
  const TYPE_NVFILE: Byte := 0x02
  const TYPE_FILE: Byte := 0x04
  const TYPE_UNKNOWN: Byte := 0x05
  const TYPE_FOOT: Byte := 0x0A

  const EFS_FILENAME: Word := 0x01
  const EFS_FILECONTENTS: Word := 0x02

  predicate IsNv(kind: Byte) { kind == TYPE_NV || kind == TYPE_UNKNOWN }
  predicate IsFile(kind: Byte) { kind == TYPE_NVFILE || kind == TYPE_FILE }
  predicate IsPart(kind: Word) { kind == EFS_FILENAME || kind == EFS_FILECONTENTS }

  /** A table entry; offset and size are 16-bit fields, and a footer never gets its size. */
  datatype ItemBlob = ItemBlob(id: DWord, kind: Byte, attrib: Byte, offset: Word, size: Option<Word>)

  /** Where a part of a file item ends; an unknown kind of part is not stepped over. */
  function PartEnd(b: seq<Byte>, at: nat): nat
    requires at + PART_HEADER <= |b|
  {
    if IsPart(Get16(b, at)) then at + PART_HEADER + Get16(b, at + 2) else at
  }

  /** The headers of the item at `at` can be read. */
  predicate ItemReadable(b: seq<Byte>, at: nat) {
    && at + ITEM_HEADER <= |b|
    && (IsNv(b[at + 4]) ==> at + ITEM_HEADER + NV_HEADER <= |b|)
    && (IsFile(b[at + 4]) ==>
          at + ITEM_HEADER + PART_HEADER <= |b| && PartEnd(b, at + ITEM_HEADER) + PART_HEADER <= |b|)
  }

  /** Where the item at `at` ends; a footer is not stepped over, an unknown item has no known end. */
  function ItemEnd(b: seq<Byte>, at: nat): Option<nat>
    requires ItemReadable(b, at)
  {
    var kind := b[at + 4];
    if IsNv(kind) then Some(at + ITEM_HEADER + NV_HEADER + Get16(b, at + ITEM_HEADER + 2))
    else if IsFile(kind) then Some(PartEnd(b, PartEnd(b, at + ITEM_HEADER)))
    else if kind == TYPE_FOOT then Some(at + ITEM_HEADER)
    else None
  }

  /** Everything the walk over `n` items reads lies in the image. */
  predicate AllReadable(b: seq<Byte>, at: nat, n: nat)
    decreases n
  {
    n == 0 || (ItemReadable(b, at) && (ItemEnd(b, at).Some? ==> AllReadable(b, ItemEnd(b, at).value, n - 1)))
  }

  datatype Tally = Tally(status: int, nvSize: DWord, footerSize: DWord, items: seq<ItemBlob>)

  /** 32-bit addition. */
  function Sum32(x: DWord, y: DWord): DWord {
    var s := x as int + y as int;
    if s < 0x1_0000_0000 then s else s - 0x1_0000_0000
  }

  /** The size field: a 16-bit difference from the 16-bit copy of the starting offset. */
  function SizeField(at: nat, end: nat): Word
    requires at <= end
  {
    (end - at % 0x1_0000) % 0x1_0000
  }

  /** The difference is the item size modulo 65536, wherever in the image the item lies. */
  lemma {:induction false} SizeFieldIs(at: nat, end: nat)
    requires at <= end
    ensures SizeField(at, end) == (end - at) % 0x1_0000
  {
  }

  function Entry(b: seq<Byte>, at: nat): (e: ItemBlob)
    requires ItemReadable(b, at)
    ensures e.kind == b[at + 4]
    ensures e.size.Some? <==> ItemEnd(b, at).Some? && e.kind != TYPE_FOOT
  {
    ItemBlob(Get32(b, at), b[at + 4], b[at + 5], at % 0x1_0000,
             match ItemEnd(b, at)
             case Some(end) => if b[at + 4] == TYPE_FOOT then None else Some(SizeField(at, end))
             case None => None)
  }

  /** The walk over the next `n` items. */
  function Scan(b: seq<Byte>, at: nat, n: nat, nv: DWord, foot: DWord): Tally
    requires AllReadable(b, at, n) && |b| < 0x1_0000_0000
    decreases n
  {
    if n == 0 then Tally(0, nv, foot, [])
    else
      var e := Entry(b, at);
      match ItemEnd(b, at)
      case None => Tally(-Footer.EINVAL, nv, foot, [e])
      case Some(end) =>
        Behind([e],
               if e.size.None? then Scan(b, end, n - 1, nv, |b| - at)
               else Scan(b, end, n - 1, Sum32(nv, e.size.value), foot))
  }

  function Behind(items: seq<ItemBlob>, t: Tally): Tally {
    t.(items := items + t.items)
  }

  lemma {:induction false} BehindNothing(t: Tally)
    ensures Behind([], t) == t
  {
  }

  /** What is still to be walked follows what has been entered. */
  ghost predicate Pending(b: seq<Byte>, at: nat, n: nat, nv: DWord, foot: DWord, whole: Tally, entered: seq<ItemBlob>) {
    && |b| < 0x1_0000_0000 && AllReadable(b, at, n)
    && whole == Behind(entered, Scan(b, at, n, nv, foot))
  }

  lemma {:induction false} PendingStart(b: seq<Byte>, at: nat, n: nat, foot: DWord)
    requires |b| < 0x1_0000_0000 && AllReadable(b, at, n)
    ensures Pending(b, at, n, 0, foot, Scan(b, at, n, 0, foot), [])
  {
    BehindNothing(Scan(b, at, n, 0, foot));
  }

  lemma {:induction false} PendingEnd(b: seq<Byte>, at: nat, nv: DWord, foot: DWord, whole: Tally,
                                      entered: seq<ItemBlob>)
    requires Pending(b, at, 0, nv, foot, whole, entered)
    ensures whole == Tally(0, nv, foot, entered)
  {
  }

  lemma {:induction false} PendingStep(b: seq<Byte>, at: nat, n: nat, nv: DWord, foot: DWord, whole: Tally,
                                       entered: seq<ItemBlob>)
    requires n > 0 && Pending(b, at, n, nv, foot, whole, entered)
    ensures ItemReadable(b, at)
    ensures var e := Entry(b, at);
            match ItemEnd(b, at)
            case None => whole == Tally(-Footer.EINVAL, nv, foot, entered + [e])
            case Some(end) =>
              if e.size.None? then end == at + ITEM_HEADER && Pending(b, end, n - 1, nv, |b| - at, whole, entered + [e])
              else Pending(b, end, n - 1, Sum32(nv, e.size.value), foot, whole, entered + [e])
  {
  }

  class McfgReader {
    const fileInBuff: array<Byte>
    const fileInSize: DWord
    var inputNvItemsSize: DWord
    var inputFooterSize: DWord

    constructor (buff: array<Byte>)
      requires buff.Length < 0x1_0000_0000
      ensures fileInBuff == buff && fileInSize as int == buff.Length
    {
      fileInBuff, fileInSize := buff, buff.Length;
      inputNvItemsSize, inputFooterSize := 0, 0;
    }

    /**
     `process_nv_configuration_data`, with the analysis of a footer left to its
     own method. The table holds one entry per item met; an unknown item ends the walk.
     */
    method ProcessNvConfigurationData(segment: DWord, numItems: Word) returns (status: int, nvItems: array<ItemBlob>)
      requires fileInSize as int == fileInBuff.Length
      requires AllReadable(fileInBuff[..], segment as int + FRONT, numItems)
      modifies this
      ensures fresh(nvItems) && nvItems.Length == numItems
      ensures var t := Scan(fileInBuff[..], segment as int + FRONT, numItems, 0, old(inputFooterSize));
              status == t.status && inputNvItemsSize == t.nvSize && inputFooterSize == t.footerSize &&
              t.items <= nvItems[..]
    {
      ghost var b := fileInBuff[..];
      var current: nat := segment as int + FRONT;
      inputNvItemsSize := 0;
      status := 0;
      nvItems := NewTable(numItems);
      ghost var whole := Scan(b, current, numItems, 0, inputFooterSize);
      PendingStart(b, current, numItems, inputFooterSize);
      for i := 0 to numItems
        invariant Pending(b, current, numItems - i, inputNvItemsSize, inputFooterSize, whole, nvItems[..i])
      {
        var known, end, blob := TakeItem(current, numItems - i, whole, nvItems[..i]);
        ghost var entered := nvItems[..i];
        nvItems[i] := blob;
        assert nvItems[..i + 1] == entered + [blob];
        if !known {
          return -Footer.EINVAL, nvItems;
        }
        current := end;
      }
      PendingEnd(b, current, inputNvItemsSize, inputFooterSize, whole, nvItems[..numItems]);
    }

    method NewTable(n: nat) returns (table: array<ItemBlob>)
      ensures fresh(table) && table.Length == n
    {
      table := new ItemBlob[n](_ => ItemBlob(0, 0, 0, 0, None));
    }

    /** One table entry, where the item it describes ends, and what it adds to the sizes. */
    method TakeItem(at: nat, ghost n: nat, ghost whole: Tally, ghost entered: seq<ItemBlob>)
      returns (known: bool, end: nat, blob: ItemBlob)
      requires fileInSize as int == fileInBuff.Length && n > 0
      requires Pending(fileInBuff[..], at, n, inputNvItemsSize, inputFooterSize, whole, entered)
      modifies this
      ensures if known then
                Pending(fileInBuff[..], end, n - 1, inputNvItemsSize, inputFooterSize, whole, entered + [blob])
              else
                whole == Tally(-Footer.EINVAL, inputNvItemsSize, inputFooterSize, entered + [blob])
    {
      PendingStep(fileInBuff[..], at, n, inputNvItemsSize, inputFooterSize, whole, entered);
      known, end, blob := ReadItem(at);
      if known && blob.size.Some? {
        inputNvItemsSize := Sum32(inputNvItemsSize, blob.size.value);
      } else if known {
        inputFooterSize := fileInSize - (end - ITEM_HEADER);
      }
    }

    /** One table entry, and where the item it describes ends. */
    method ReadItem(at: nat) returns (known: bool, end: nat, blob: ItemBlob)
      requires ItemReadable(fileInBuff[..], at)
      ensures blob == Entry(fileInBuff[..], at)
      ensures ItemEnd(fileInBuff[..], at) == if known then Some(end) else None
    {
      var kind := fileInBuff[at + 4];
      blob := ItemBlob(Get32(fileInBuff[..], at), kind, fileInBuff[at + 5], at % 0x1_0000, None);
      end := at + ITEM_HEADER;
      if IsNv(kind) {
        end := end + NV_HEADER + Get16(fileInBuff[..], end + 2);
        blob := blob.(size := Some(SizeField(at, end)));
      } else if IsFile(kind) {
        end := StepOverParts(end);
        blob := blob.(size := Some(SizeField(at, end)));
      } else if kind != TYPE_FOOT {
        return false, end, blob;
      }
      known := true;
    }

    /** The two parts of a file item. */
    method StepOverParts(start: nat) returns (end: nat)
      requires start + PART_HEADER <= fileInBuff.Length
      requires PartEnd(fileInBuff[..], start) + PART_HEADER <= fileInBuff.Length
      ensures end == PartEnd(fileInBuff[..], PartEnd(fileInBuff[..], start))
    {
      end := start;
      for k := 0 to 2
        invariant k == 0 ==> end == start
        invariant k == 1 ==> end == PartEnd(fileInBuff[..], start)
        invariant k == 2 ==> end == PartEnd(fileInBuff[..], PartEnd(fileInBuff[..], start))
      {
        if IsPart(Get16(fileInBuff[..], end)) {
          end := end + PART_HEADER + Get16(fileInBuff[..], end + 2);
        }
      }
    }
  }

  // ---- images -------------------------------------------------------------------------

  /** An item as it stands in an image, with its true size. */
  datatype Placed = Placed(id: DWord, kind: Byte, attrib: Byte, size: nat)

  predicate Stands(b: seq<Byte>, at: nat, p: Placed) {
    && ItemReadable(b, at)
    && (IsNv(p.kind) || IsFile(p.kind))
    && Get32(b, at) == p.id && b[at + 4] == p.kind && b[at + 5] == p.attrib
    && ItemEnd(b, at) == Some(at + p.size)
  }

  predicate FootAt(b: seq<Byte>, at: nat) {
    at + 8 <= |b| && b[at + 4] == 0x0A
  }

  /** Items end to end, and a footer item behind the last. */
  predicate Chain(b: seq<Byte>, at: nat, ps: seq<Placed>)
    decreases |ps|
  {
    if ps == [] then FootAt(b, at)
    else Stands(b, at, ps[0]) && Chain(b, at + ps[0].size, ps[1..])
  }

  function Total(ps: seq<Placed>): nat {
    if ps == [] then 0 else ps[0].size + Total(ps[1..])
  }

  /** What the 16-bit size fields add up to: the whole exactly when no item is too long for its field. */
  function Total16(ps: seq<Placed>): (n: nat)
    ensures n <= Total(ps)
    ensures n == Total(ps) <==> forall i :: 0 <= i < |ps| ==> ps[i].size < 0x1_0000
  {
    if ps == [] then 0 else
      assert ps == [ps[0]] + ps[1..];
      ps[0].size % 0x1_0000 + Total16(ps[1..])
  }

  function EntryOf(p: Placed, at: nat): ItemBlob {
    ItemBlob(p.id, p.kind, p.attrib, at % 0x1_0000, Some(p.size % 0x1_0000))
  }

  lemma {:induction false} FooterScan(b: seq<Byte>, at: nat, nv: DWord, foot: DWord)
    requires |b| < 0x1_0000_0000 && FootAt(b, at)
    ensures AllReadable(b, at, 1)
    ensures var t := Scan(b, at, 1, nv, foot);
            t.status == 0 && t.nvSize == nv && t.footerSize == |b| - at
  {
  }

  lemma {:induction false} ItemScan(b: seq<Byte>, at: nat, p: Placed, n: nat, nv: DWord, foot: DWord)
    requires Stands(b, at, p) && |b| < 0x1_0000_0000
    requires AllReadable(b, at + p.size, n)
    ensures AllReadable(b, at, n + 1)
    ensures Scan(b, at, n + 1, nv, foot) ==
            Behind([EntryOf(p, at)], Scan(b, at + p.size, n, Sum32(nv, p.size % 0x1_0000), foot))
  {
    SizeFieldIs(at, at + p.size);
    assert Entry(b, at) == EntryOf(p, at);
  }

  lemma {:induction false} ChainReadable(b: seq<Byte>, at: nat, ps: seq<Placed>)
    requires |b| < 0x1_0000_0000 && Chain(b, at, ps)
    ensures AllReadable(b, at, |ps| + 1)
    ensures at + Total(ps) + ITEM_HEADER <= |b|
    decreases |ps|
  {
    if ps == [] {
      FooterScan(b, at, 0, 0);
    } else {
      ChainReadable(b, at + ps[0].size, ps[1..]);
      ItemScan(b, at, ps[0], |ps|, 0, 0);
    }
  }

  lemma {:induction false} SumFits(nv: DWord, size: nat)
    requires nv as int + size < 0x1_0000_0000
    ensures Sum32(nv, size % 0x1_0000) as int == nv as int + size % 0x1_0000 <= nv as int + size
  {
  }

  /** The walk over items and a footer behind them. */
  lemma {:induction false} ScanChain(b: seq<Byte>, at: nat, ps: seq<Placed>, nv: DWord, foot: DWord)
    requires |b| < 0x1_0000_0000 && Chain(b, at, ps) && AllReadable(b, at, |ps| + 1)
    requires nv as int + Total(ps) < 0x1_0000_0000
    ensures var t := Scan(b, at, |ps| + 1, nv, foot);
            t.status == 0 && t.nvSize as int == nv as int + Total16(ps) &&
            t.footerSize as int == |b| - (at + Total(ps))
    decreases |ps|
  {
    if ps == [] {
      FooterScan(b, at, nv, foot);
    } else {
      var size := ps[0].size;
      SumFits(nv, size);
      ChainReadable(b, at + size, ps[1..]);
      ItemScan(b, at, ps[0], |ps|, nv, foot);
      ScanChain(b, at + size, ps[1..], Sum32(nv, size % 0x1_0000), foot);
      assert Total16(ps) == size % 0x1_0000 + Total16(ps[1..]);
    }
  }

  /**
   Conservation: the front, the item sizes added up and the footer make up the
   file exactly when every item is shorter than 65536 bytes. An NV item can take
   12 + 65535 bytes and a file item more; the 16-bit size field then loses the
   excess.
   */
  lemma {:induction false} SizesMakeUpFile(b: seq<Byte>, segment: DWord, ps: seq<Placed>, foot: DWord)
    requires |b| < 0x1_0000_0000 && Chain(b, segment as int + FRONT, ps)
    ensures AllReadable(b, segment as int + FRONT, |ps| + 1)
    ensures var t := Scan(b, segment as int + FRONT, |ps| + 1, 0, foot);
            t.status == 0 &&
            (segment as int + FRONT + t.nvSize as int + t.footerSize as int == |b| <==>
               forall i :: 0 <= i < |ps| ==> ps[i].size < 0x1_0000)
  {
    ChainReadable(b, segment as int + FRONT, ps);
    ScanChain(b, segment as int + FRONT, ps, 0, foot);
  }

  /** A part of another kind is not stepped over: a file item that begins with one ends behind its item header. */
  lemma {:induction false} OtherPartStays(b: seq<Byte>, at: nat)
    requires at + 12 <= |b| && (b[at + 4] == 0x02 || b[at + 4] == 0x04)
    requires Get16(b, at + 8) != 0x01 && Get16(b, at + 8) != 0x02
    ensures ItemReadable(b, at) && ItemEnd(b, at) == Some(at + 8)
  {
  }

  /** An item of a type that is none of those known. */
  predicate UnknownAt(b: seq<Byte>, at: nat) {
    at + 8 <= |b| && b[at + 4] !in [0x01, 0x02, 0x04, 0x05, 0x0A]
  }

  /** Items end to end up to an unknown one. */
  predicate ChainTo(b: seq<Byte>, at: nat, ps: seq<Placed>, end: nat)
    decreases |ps|
  {
    if ps == [] then at == end else Stands(b, at, ps[0]) && ChainTo(b, at + ps[0].size, ps[1..], end)
  }

  lemma {:induction false} UnknownScan(b: seq<Byte>, at: nat, n: nat, nv: DWord, foot: DWord)
    requires |b| < 0x1_0000_0000 && UnknownAt(b, at) && n > 0
    ensures AllReadable(b, at, n)
    ensures var t := Scan(b, at, n, nv, foot);
            t.status == -22 && t.nvSize == nv && t.footerSize == foot && |t.items| == 1 && t.items[0].size == None
  {
  }

  /**
   An unknown item ends the walk with -EINVAL wherever it stands: the items
   before it have been entered and their sizes added up, and no footer is found.
   */
  lemma {:induction false} UnknownEnds(b: seq<Byte>, at: nat, ps: seq<Placed>, end: nat, n: nat, nv: DWord, foot: DWord)
    requires |b| < 0x1_0000_0000 && ChainTo(b, at, ps, end) && UnknownAt(b, end) && n > 0
    requires nv as int + Total(ps) < 0x1_0000_0000
    ensures AllReadable(b, at, |ps| + n)
    ensures var t := Scan(b, at, |ps| + n, nv, foot);
            t.status == -22 && |t.items| == |ps| + 1 && t.footerSize == foot &&
            t.nvSize as int == nv as int + Total16(ps)
    decreases |ps|
  {
    if ps == [] {
      UnknownScan(b, at, n, nv, foot);
    } else {
      var size := ps[0].size;
      SumFits(nv, size);
      UnknownEnds(b, at + size, ps[1..], end, n, Sum32(nv, size % 0x1_0000), foot);
      ItemScan(b, at, ps[0], |ps| - 1 + n, nv, foot);
      assert Total16(ps) == size % 0x1_0000 + Total16(ps[1..]);
    }
  }

  /** Number of bytes taken by the first `k` items. */
  function Extent(ps: seq<Placed>, k: nat): nat
    requires k <= |ps|
  {
    if k == 0 then 0 else ps[0].size + Extent(ps[1..], k - 1)
  }

  /** The table entries of items laid end to end from `at` on. */
  function Entries(ps: seq<Placed>, at: nat): (es: seq<ItemBlob>)
    ensures |es| == |ps|
    decreases |ps|
  {
    if ps == [] then [] else [EntryOf(ps[0], at)] + Entries(ps[1..], at + ps[0].size)
  }

  lemma {:induction false} EntriesAt(ps: seq<Placed>, at: nat, k: nat)
    requires k < |ps|
    ensures Entries(ps, at)[k] == EntryOf(ps[k], at + Extent(ps, k))
    decreases k
  {
    if k > 0 { EntriesAt(ps[1..], at + ps[0].size, k - 1); }
  }

  /** The walk over a chain enters its first item and goes on with the rest. */
  lemma {:induction false} ChainScan(b: seq<Byte>, at: nat, ps: seq<Placed>, nv: DWord, foot: DWord)
    requires |b| < 0x1_0000_0000 && ps != [] && Chain(b, at, ps) && AllReadable(b, at, |ps| + 1)
    ensures var next := at + ps[0].size;
            Chain(b, next, ps[1..]) && AllReadable(b, next, |ps|) &&
            Scan(b, at, |ps| + 1, nv, foot) ==
              Behind([EntryOf(ps[0], at)], Scan(b, next, |ps|, Sum32(nv, ps[0].size % 0x1_0000), foot))
  {
    ChainReadable(b, at + ps[0].size, ps[1..]);
    ItemScan(b, at, ps[0], |ps|, nv, foot);
  }

  lemma {:induction false} EntriesStep(ps: seq<Placed>, at: nat, rest: Tally)
    requires ps != [] && |rest.items| == |ps|
    requires rest.items[..|ps| - 1] == Entries(ps[1..], at + ps[0].size)
    ensures var items := Behind([EntryOf(ps[0], at)], rest).items;
            |items| == |ps| + 1 && items[..|ps|] == Entries(ps, at)
  {
  }

  /** The table of a walk over items and a footer behind them. */
  lemma {:induction false} ScanEntries(b: seq<Byte>, at: nat, ps: seq<Placed>, nv: DWord, foot: DWord)
    requires |b| < 0x1_0000_0000 && Chain(b, at, ps) && AllReadable(b, at, |ps| + 1)
    ensures |Scan(b, at, |ps| + 1, nv, foot).items| == |ps| + 1
    ensures Scan(b, at, |ps| + 1, nv, foot).items[..|ps|] == Entries(ps, at)
    decreases |ps|
  {
    if ps != [] {
      var size := ps[0].size;
      var sum := Sum32(nv, size % 0x1_0000);
      ChainScan(b, at, ps, nv, foot);
      ScanEntries(b, at + size, ps[1..], sum, foot);
      EntriesStep(ps, at, Scan(b, at + size, |ps|, sum, foot));
    }
  }

  /** One entry for each item and one for the footer; offset and size are modulo 65536 wherever the item stands. */
  lemma {:induction false} TableEntries(b: seq<Byte>, at: nat, ps: seq<Placed>, nv: DWord, foot: DWord, k: nat)
    requires |b| < 0x1_0000_0000 && Chain(b, at, ps) && AllReadable(b, at, |ps| + 1) && k < |ps|
    ensures var t := Scan(b, at, |ps| + 1, nv, foot);
            |t.items| == |ps| + 1 && t.items[k] == EntryOf(ps[k], at + Extent(ps, k))
  {
    ScanEntries(b, at, ps, nv, foot);
    EntriesAt(ps, at, k);
    var items := Scan(b, at, |ps| + 1, nv, foot).items;
    assert items[k] == items[..|ps|][k];
  }

  // ---- encoded items ---------------------------------------------------------------------

  datatype Part = Part(contents: bool, payload: seq<Byte>)

  datatype RawContent =
    | Nv(id: DWord, attrib: Byte, unknown: bool, number: Word, payload: seq<Byte>)
    | File(id: DWord, attrib: Byte, nvfile: bool, first: Part, second: Part)

  /** The items an image is made of; payload lengths have 16-bit fields. */
  type Content = c: RawContent | Sized(c) witness Nv(0, 0, false, 0, [])

  predicate Sized(c: RawContent) {
    match c
    case Nv(_, _, _, _, payload) => |payload| < 0x1_0000
    case File(_, _, _, p, q) => |p.payload| < 0x1_0000 && |q.payload| < 0x1_0000
  }

  function ItemHeader(id: DWord, kind: Byte, attrib: Byte): (s: seq<Byte>)
    ensures |s| == ITEM_HEADER
  {
    Le32(id) + [kind, attrib, 0, 0]
  }

  function EncodePart(p: Part): (s: seq<Byte>)
    requires |p.payload| < 0x1_0000
    ensures |s| == PART_HEADER + |p.payload|
  {
    Le16(if p.contents then 0x02 else 0x01) + Le16(|p.payload|) + p.payload
  }

  function KindOf(c: Content): Byte {
    match c
    case Nv(_, _, unknown, _, _) => if unknown then 0x05 else 0x01
    case File(_, _, nvfile, _, _) => if nvfile then 0x02 else 0x04
  }

  function Body(c: Content): seq<Byte> {
    match c
    case Nv(_, _, _, number, payload) => Le16(number) + Le16(|payload|) + payload
    case File(_, _, _, p, q) => EncodePart(p) + EncodePart(q)
  }

  function Length(c: Content): nat {
    match c
    case Nv(_, _, _, _, payload) => ITEM_HEADER + NV_HEADER + |payload|
    case File(_, _, _, p, q) => ITEM_HEADER + PART_HEADER + |p.payload| + PART_HEADER + |q.payload|
  }

  function Encode(c: Content): (s: seq<Byte>)
    ensures |s| == Length(c)
  {
    ItemHeader(c.id, KindOf(c), c.attrib) + Body(c)
  }

  function Joined(xs: seq<seq<Byte>>): seq<Byte> {
    if xs == [] then [] else xs[0] + Joined(xs[1..])
  }

  function EncodeAll(cs: seq<Content>): seq<Byte> {
    Joined(seq(|cs|, i requires 0 <= i < |cs| => Encode(cs[i])))
  }

  lemma {:induction false} HeaderAt(b: seq<Byte>, at: nat, id: DWord, kind: Byte, attrib: Byte)
    requires Lies(b, at, ItemHeader(id, kind, attrib))
    ensures Get32(b, at) == id && b[at + 4] == kind && b[at + 5] == attrib
  {
  }

  lemma {:induction false} PartAt(b: seq<Byte>, at: nat, p: Part)
    requires |p.payload| < 0x1_0000 && Lies(b, at, EncodePart(p))
    ensures PartEnd(b, at) == at + |EncodePart(p)|
  {
    var kind, size := Le16(if p.contents then 0x02 else 0x01), Le16(|p.payload|);
    assert EncodePart(p) == kind + (size + p.payload);
    LiesSplit(b, at, kind, size + p.payload);
    LiesSplit(b, at + 2, size, p.payload);
    WordAt(b, at, kind);
    WordAt(b, at + 2, size);
  }

  lemma {:induction false} WordAt(b: seq<Byte>, at: nat, w: seq<Byte>)
    requires |w| == 2 && Lies(b, at, w)
    ensures Get16(b, at) == Get16(w, 0)
  {
  }

  function PlacedOf(c: Content): Placed {
    Placed(c.id, KindOf(c), c.attrib, Length(c))
  }

  lemma {:induction false} NvStands(b: seq<Byte>, at: nat, number: Word, payload: seq<Byte>)
    requires |payload| < 0x1_0000 && Lies(b, at, Le16(number) + Le16(|payload|) + payload)
    ensures at + NV_HEADER <= |b| && Get16(b, at + 2) == |payload|
  {
    assert Le16(number) + Le16(|payload|) + payload == Le16(number) + (Le16(|payload|) + payload);
    LiesSplit(b, at, Le16(number), Le16(|payload|) + payload);
    LiesSplit(b, at + 2, Le16(|payload|), payload);
    WordAt(b, at + 2, Le16(|payload|));
  }

  lemma {:induction false} FileStands(b: seq<Byte>, at: nat, p: Part, q: Part)
    requires |p.payload| < 0x1_0000 && |q.payload| < 0x1_0000
    requires Lies(b, at, EncodePart(p) + EncodePart(q))
    ensures at + PART_HEADER <= |b| && PartEnd(b, at) + PART_HEADER <= |b|
    ensures PartEnd(b, PartEnd(b, at)) == at + |EncodePart(p)| + |EncodePart(q)|
  {
    LiesSplit(b, at, EncodePart(p), EncodePart(q));
    PartAt(b, at, p);
    PartAt(b, at + |EncodePart(p)|, q);
  }

  /** An encoded item is read as itself and stepped over exactly. */
  lemma {:induction false} ItemAt(b: seq<Byte>, at: nat, c: Content)
    requires Lies(b, at, Encode(c))
    ensures Stands(b, at, PlacedOf(c))
  {
    LiesSplit(b, at, ItemHeader(c.id, KindOf(c), c.attrib), Body(c));
    HeaderAt(b, at, c.id, KindOf(c), c.attrib);
    match c {
      case Nv(_, _, _, number, payload) => NvStands(b, at + ITEM_HEADER, number, payload);
      case File(_, _, _, p, q) => FileStands(b, at + ITEM_HEADER, p, q);
    }
  }

  /** Wherever these bytes lie, this item stands. */
  ghost predicate ReadsAs(b: seq<Byte>, x: seq<Byte>, p: Placed) {
    |x| == p.size && forall at: nat :: Lies(b, at, x) ==> Stands(b, at, p)
  }

  lemma {:induction false} EncodeReads(b: seq<Byte>, c: Content)
    ensures ReadsAs(b, Encode(c), PlacedOf(c))
  {
    forall at: nat | Lies(b, at, Encode(c)) ensures Stands(b, at, PlacedOf(c)) {
      ItemAt(b, at, c);
    }
  }

  lemma {:induction false} AllRead(b: seq<Byte>, cs: seq<Content>, xs: seq<seq<Byte>>, ps: seq<Placed>)
    requires |xs| == |cs| == |ps|
    requires forall i :: 0 <= i < |cs| ==> xs[i] == Encode(cs[i]) && ps[i] == PlacedOf(cs[i])
    ensures forall i :: 0 <= i < |xs| ==> ReadsAs(b, xs[i], ps[i])
  {
    forall i | 0 <= i < |xs| ensures ReadsAs(b, xs[i], ps[i]) {
      EncodeReads(b, cs[i]);
    }
  }

  lemma {:induction false} ChainStep(b: seq<Byte>, at: nat, ps: seq<Placed>)
    requires ps != [] && Stands(b, at, ps[0]) && Chain(b, at + ps[0].size, ps[1..])
    ensures Chain(b, at, ps)
  {
  }

  lemma {:induction false} JoinedHead(b: seq<Byte>, at: nat, x: seq<Byte>, rest: seq<Byte>, p: Placed)
    requires Lies(b, at, x + rest) && ReadsAs(b, x, p)
    ensures Stands(b, at, p) && Lies(b, at + p.size, rest)
  {
    LiesSplit(b, at, x, rest);
  }

  /** Items laid end to end with a footer behind them are a chain. */
  lemma {:induction false} JoinedChain(b: seq<Byte>, at: nat, xs: seq<seq<Byte>>, ps: seq<Placed>)
    requires |xs| == |ps| && forall i :: 0 <= i < |xs| ==> ReadsAs(b, xs[i], ps[i])
    requires Lies(b, at, Joined(xs)) && FootAt(b, at + |Joined(xs)|)
    ensures Chain(b, at, ps)
    decreases |xs|
  {
    if xs != [] {
      JoinedHead(b, at, xs[0], Joined(xs[1..]), ps[0]);
      JoinedChain(b, at + ps[0].size, xs[1..], ps[1..]);
      ChainStep(b, at, ps);
    }
  }

  /** Encoded items with a footer behind them are such a chain. */
  lemma {:induction false} EncodedChain(b: seq<Byte>, at: nat, cs: seq<Content>) returns (ps: seq<Placed>)
    requires Lies(b, at, EncodeAll(cs))
    requires FootAt(b, at + |EncodeAll(cs)|)
    ensures Chain(b, at, ps)
    ensures |ps| == |cs| && forall i :: 0 <= i < |cs| ==> ps[i] == PlacedOf(cs[i])
  {
    var xs := seq(|cs|, i requires 0 <= i < |cs| => Encode(cs[i]));
    ps := seq(|cs|, i requires 0 <= i < |cs| => PlacedOf(cs[i]));
    AllRead(b, cs, xs, ps);
    assert EncodeAll(cs) == Joined(xs);
    JoinedChain(b, at, xs, ps);
  }
}
