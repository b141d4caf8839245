/** Octets, machine words and the little-endian layout of packed C structures. */
module Bytes {
  type Byte = n: int | 0 <= n < 0x100
  type Word = n: int | 0 <= n < 0x1_0000
  type DWord = n: int | 0 <= n < 0x1_0000_0000

  /** The 16-bit little-endian word stored at offset `i`. */
  function Get16(b: seq<Byte>, i: nat): Word
    requires i + 2 <= |b|
  {
    b[i] as int + 0x100 * (b[i + 1] as int)
  }

  /** The 32-bit little-endian word stored at offset `i`. */
  function Get32(b: seq<Byte>, i: nat): DWord
    requires i + 4 <= |b|
  {
    b[i] as int + 0x100 * (b[i + 1] as int) + 0x1_0000 * (b[i + 2] as int) + 0x100_0000 * (b[i + 3] as int)
  }

  function Le16(v: Word): (s: seq<Byte>)
    ensures |s| == 2 && Get16(s, 0) == v
  {
    [v % 0x100, v / 0x100]
  }

  function Le32(v: DWord): (s: seq<Byte>)
    ensures |s| == 4 && Get32(s, 0) == v
  {
    var low, high := v % 0x1_0000, v / 0x1_0000;
    [low % 0x100, low / 0x100, high % 0x100, high / 0x100]
  }

  /** A zeroed buffer. */
  function Zeros(n: nat): (s: seq<Byte>)
    ensures |s| == n && forall i :: 0 <= i < n ==> s[i] == 0
  {
    if n == 0 then [] else Zeros(n - 1) + [0]
  }

  /** What a buffer holds after `data` is copied to offset `at`. */
  function Overlay(b: seq<Byte>, at: nat, data: seq<Byte>): (r: seq<Byte>)
    requires at + |data| <= |b|
    ensures |r| == |b|
  {
    b[..at] + data + b[at + |data|..]
  }

  /** A write that starts where a known prefix ends extends that prefix. */
  lemma {:induction false} OverlayExtends(b: seq<Byte>, prefix: seq<Byte>, data: seq<Byte>)
    requires prefix <= b && |prefix| + |data| <= |b|
    ensures prefix + data <= Overlay(b, |prefix|, data)
  {
  }

  /** A write inside a known prefix changes that prefix only. */
  lemma {:induction false} OverlayInside(b: seq<Byte>, prefix: seq<Byte>, at: nat, data: seq<Byte>)
    requires prefix <= b && at + |data| <= |prefix|
    ensures Overlay(prefix, at, data) <= Overlay(b, at, data)
  {
  }

  /** The bytes `s` are found in `b` from offset `at` on. */
  ghost predicate Lies(b: seq<Byte>, at: nat, s: seq<Byte>) {
    at + |s| <= |b| && b[at..at + |s|] == s
  }

  lemma {:induction false} LiesSplit(b: seq<Byte>, at: nat, x: seq<Byte>, y: seq<Byte>)
    requires Lies(b, at, x + y)
    ensures Lies(b, at, x) && Lies(b, at + |x|, y)
  {
    var s := b[at..at + |x + y|];
    assert b[at..at + |x|] == s[..|x|] == x;
    assert b[at + |x|..at + |x| + |y|] == s[|x|..] == y;
  }

  /** `memcpy` or a packed structure assignment into a byte buffer. */
  method Put(out: array<Byte>, at: nat, data: seq<Byte>)
    requires at + |data| <= out.Length
    modifies out
    ensures out[..] == Overlay(old(out[..]), at, data)
  {
    forall i | 0 <= i < |data| {
      out[at + i] := data[i];
    }
  }
}
