/**
 pdc_locate.c copies every NV item of an image into a 64-byte field and every
 file name into a 256-byte array. The model of the walk leaves these copies out;
 here is exactly when they stay inside.
 */
module McfgCopies {
  import opened Bytes
  import opened Options
  import opened Mcfg
  import Footer

  const MAX_NAME := 256

  /** A file name at `at`, if there is one, fits its array. */
  predicate NameFits(b: seq<Byte>, at: nat)
    requires at + PART_HEADER <= |b|
  {
    Get16(b, at) == 0x01 ==> Get16(b, at + 2) <= MAX_NAME && at + PART_HEADER + Get16(b, at + 2) <= |b|
  }

  /** What is copied of the item at `at` fits, where length and source offset are the 16-bit fields of its entry. */
  predicate CopyFits(b: seq<Byte>, at: nat)
    requires ItemReadable(b, at)
  {
    && (IsNv(b[at + 4]) ==>
          var size := SizeField(at, ItemEnd(b, at).value);
          size <= Footer.MAX_OBJ_SIZE && at % 0x1_0000 + size <= |b|)
    && (IsFile(b[at + 4]) ==>
          NameFits(b, at + ITEM_HEADER) && NameFits(b, PartEnd(b, at + ITEM_HEADER)))
  }

  predicate ShortName(p: Part) {
    p.contents || |p.payload| <= MAX_NAME
  }

  /** What can be said of an item before it is encoded; a length past 65535 wraps to a small one. */
  predicate Copyable(c: Content) {
    match c
    case Nv(_, _, _, _, payload) => |payload| <= 52 || |payload| >= 65524
    case File(_, _, _, p, q) => ShortName(p) && ShortName(q)
  }

  /** The sizes an NV item can have, cut to 16 bits. */
  lemma {:induction false} CutSize(n: nat)
    requires 12 <= n < 0x1_0000 + 12
    ensures n % 0x1_0000 <= Footer.MAX_OBJ_SIZE <==> n <= Footer.MAX_OBJ_SIZE || n >= 0x1_0000
    ensures n % 0x1_0000 <= n
  {
  }

  lemma {:induction false} NvCopies(b: seq<Byte>, at: nat, c: Content)
    requires Lies(b, at, Encode(c)) && c.Nv?
    ensures Stands(b, at, PlacedOf(c)) && (CopyFits(b, at) <==> Copyable(c))
  {
    ItemAt(b, at, c);
    var size := SizeField(at, at + Length(c));
    SizeFieldIs(at, at + Length(c));
    CutSize(Length(c));
    assert at % 0x1_0000 + size <= at + Length(c) <= |b|;
    assert CopyFits(b, at) <==> size <= Footer.MAX_OBJ_SIZE;
  }

  lemma {:induction false} NameCopies(b: seq<Byte>, at: nat, p: Part)
    requires |p.payload| < 0x1_0000 && Lies(b, at, EncodePart(p))
    ensures NameFits(b, at) <==> ShortName(p)
  {
    var kind, size := Le16(if p.contents then 0x02 else 0x01), Le16(|p.payload|);
    assert EncodePart(p) == kind + (size + p.payload);
    LiesSplit(b, at, kind, size + p.payload);
    LiesSplit(b, at + 2, size, p.payload);
    WordAt(b, at, kind);
    WordAt(b, at + 2, size);
  }

  lemma {:induction false} FileCopies(b: seq<Byte>, at: nat, c: Content)
    requires Lies(b, at, Encode(c)) && c.File?
    ensures Stands(b, at, PlacedOf(c)) && (CopyFits(b, at) <==> Copyable(c))
  {
    ItemAt(b, at, c);
    var first, second := EncodePart(c.first), EncodePart(c.second);
    LiesSplit(b, at, ItemHeader(c.id, KindOf(c), c.attrib), first + second);
    LiesSplit(b, at + ITEM_HEADER, first, second);
    PartAt(b, at + ITEM_HEADER, c.first);
    NameCopies(b, at + ITEM_HEADER, c.first);
    NameCopies(b, at + ITEM_HEADER + |first|, c.second);
  }

  lemma {:induction false} ItemCopies(b: seq<Byte>, at: nat, c: Content)
    requires Lies(b, at, Encode(c))
    ensures ItemReadable(b, at) && (CopyFits(b, at) <==> Copyable(c))
  {
    if c.Nv? { NvCopies(b, at, c); } else { FileCopies(b, at, c); }
  }

  /** Where the `k`-th of byte strings laid end to end begins. */
  lemma {:induction false} JoinedAt(b: seq<Byte>, at: nat, xs: seq<seq<Byte>>, ps: seq<Placed>, k: nat)
    requires |xs| == |ps| && forall i :: 0 <= i < |xs| ==> |xs[i]| == ps[i].size
    requires Lies(b, at, Joined(xs)) && k < |xs|
    ensures Lies(b, at + Extent(ps, k), xs[k])
    decreases k
  {
    LiesSplit(b, at, xs[0], Joined(xs[1..]));
    if k > 0 { JoinedAt(b, at + |xs[0]|, xs[1..], ps[1..], k - 1); }
  }

  /**
   On an image of such items, the walk finds item `k` where `Extent` has it, and
   what is copied of it stays inside exactly when it is an NV item with a
   payload of at most 52 bytes, or of so many that the 16-bit size wraps, or a
   file item with names of at most 256.
   */
  lemma {:induction false} CopyFitsIff(b: seq<Byte>, at: nat, cs: seq<Content>, ps: seq<Placed>, k: nat)
    requires Lies(b, at, EncodeAll(cs)) && k < |cs|
    requires |ps| == |cs| && forall i :: 0 <= i < |cs| ==> ps[i] == PlacedOf(cs[i])
    ensures var pos := at + Extent(ps, k);
            ItemReadable(b, pos) && (CopyFits(b, pos) <==> Copyable(cs[k]))
  {
    var xs := seq(|cs|, i requires 0 <= i < |cs| => Encode(cs[i]));
    assert EncodeAll(cs) == Joined(xs);
    JoinedAt(b, at, xs, ps, k);
    ItemCopies(b, at + Extent(ps, k), cs[k]);
  }
}
