/**
 wds.c helpers: counting mask bits, and IPv4 addresses as dotted-quad text.
 `inet_ntop` and `inet_pton` are library calls; they are modelled by the
 dotted-decimal notation they implement.
 */
module Inet {
  import opened Bytes
  import opened Options

  // ---- bits ------------------------------------------------------------------------

  function Pow2(k: nat): (p: nat)
    ensures p >= 1
  {
    if k == 0 then 1 else 2 * Pow2(k - 1)
  }

  function BitAnd(a: nat, b: nat): nat {
    if a == 0 || b == 0 then 0 else 2 * BitAnd(a / 2, b / 2) + if a % 2 == 1 && b % 2 == 1 then 1 else 0
  }

  /** Number of ones in the binary representation. */
  function PopCount(n: nat): nat {
    if n == 0 then 0 else n % 2 + PopCount(n / 2)
  }

  /** Index of the lowest one. */
  function LowestBit(n: nat): nat
    requires n > 0
  {
    if n % 2 == 1 then 0 else 1 + LowestBit(n / 2)
  }

  lemma {:induction false} BitAndSelf(n: nat)
    ensures BitAnd(n, n) == n
  {
    if n > 0 { BitAndSelf(n / 2); }
  }

  lemma {:induction false} ClearsOdd(n: nat)
    requires n % 2 == 1
    ensures BitAnd(n, n - 1) == n - 1
    ensures LowestBit(n) == 0 && PopCount(n - 1) + 1 == PopCount(n)
  {
    BitAndSelf(n / 2);
    assert (n - 1) / 2 == n / 2 && (n - 1) % 2 == 0;
    if n > 1 { assert BitAnd(n, n - 1) == 2 * BitAnd(n / 2, n / 2); }
  }

  lemma {:induction false} AndDoubles(h: nat)
    requires h > 0
    ensures BitAnd(2 * h, 2 * h - 1) == 2 * BitAnd(h, h - 1)
    ensures LowestBit(2 * h) == 1 + LowestBit(h)
  {
    var a, b := 2 * h, 2 * h - 1;
    assert a / 2 == h && a % 2 == 0 && b / 2 == h - 1;
    assert BitAnd(a, b) == 2 * BitAnd(h, h - 1);
  }

  /** `n & (n - 1)` takes away the lowest one and nothing else. */
  lemma {:induction false} ClearsLowestBit(n: nat)
    requires n > 0
    ensures BitAnd(n, n - 1) == n - Pow2(LowestBit(n))
    ensures PopCount(BitAnd(n, n - 1)) + 1 == PopCount(n)
    ensures BitAnd(n, n - 1) < n
  {
    if n % 2 == 1 {
      ClearsOdd(n);
    } else {
      var h := n / 2;
      ClearsLowestBit(h);
      AndDoubles(h);
      PopCountDoubles(h);
      PopCountDoubles(BitAnd(h, h - 1));
      assert n == 2 * h;
    }
  }

  lemma {:induction false} PopCountDoubles(h: nat)
    ensures PopCount(2 * h) == PopCount(h)
  {
  }

  /** The number of rounds, hence the count, is the number of ones. */
  method MmCountBitsSet(number: nat) returns (c: nat)
    ensures c == PopCount(number)
  {
    var n := number;
    c := 0;
    while n != 0
      invariant c + PopCount(n) == PopCount(number)
      decreases n
    {
      ClearsLowestBit(n);
      n := BitAnd(n, n - 1);
      c := c + 1;
    }
  }

  /** The loop shifts until a one comes last, so it needs a one to be there. */
  method MmFindBitSet(number: nat) returns (c: nat)
    requires number != 0
    ensures c == LowestBit(number)
  {
    var n := number;
    c := 0;
    while n % 2 == 0
      invariant n > 0 && c + LowestBit(n) == LowestBit(number)
      decreases n
    {
      n := n / 2;
      c := c + 1;
    }
  }

  /** What is left of a number once its trailing zeros are gone. */
  function OddPart(n: nat): (m: nat)
    requires n > 0
    ensures m % 2 == 1
  {
    if n % 2 == 1 then n else OddPart(n / 2)
  }

  /** The index found is that of the lowest one: an odd multiple of its power of two. */
  lemma {:induction false} LowestBitSplits(n: nat)
    requires n > 0
    ensures n == Pow2(LowestBit(n)) * OddPart(n)
  {
    if n % 2 == 0 {
      var h := n / 2;
      LowestBitSplits(h);
      assert Pow2(LowestBit(n)) == 2 * Pow2(LowestBit(h));
    }
  }

  /** One binary digit in front of a number. */
  lemma {:induction false} PopCountDigit(digit: nat, rest: nat)
    requires digit < 2
    ensures PopCount(digit + 2 * rest) == digit + PopCount(rest)
  {
    assert (digit + 2 * rest) / 2 == rest && (digit + 2 * rest) % 2 == digit;
  }

  /** The low digit of a sum whose other part is a multiple of a higher power. */
  lemma {:induction false} LowDigit(low: nat, high: nat, k: nat)
    requires k > 0
    ensures low + Pow2(k) * high == low % 2 + 2 * (low / 2 + Pow2(k - 1) * high)
  {
    DoubleTimes(Pow2(k - 1), high);
  }

  lemma {:induction false} DoubleTimes(x: int, y: int)
    ensures 2 * x * y == 2 * (x * y)
  {
  }

  /** Ones in the low `k` bits and ones above them add up. */
  lemma {:induction false} PopCountSplit(low: nat, high: nat, k: nat)
    requires low < Pow2(k)
    ensures PopCount(low + Pow2(k) * high) == PopCount(low) + PopCount(high)
    decreases k
  {
    if k > 0 {
      LowDigit(low, high, k);
      PopCountDigit(low % 2, low / 2 + Pow2(k - 1) * high);
      PopCountDigit(low % 2, low / 2);
      PopCountSplit(low / 2, high, k - 1);
    }
  }

  lemma {:induction false} PopCountOnes(k: nat)
    ensures PopCount(Pow2(k) - 1) == k
  {
    if k > 0 {
      PopCountOnes(k - 1);
      assert (Pow2(k) - 1) / 2 == Pow2(k - 1) - 1;
    }
  }

  /** A mask of width `w` with `p` leading ones. */
  function LeadingOnes(w: nat, p: nat): nat
    requires p <= w
  {
    Pow2(w - p) * (Pow2(p) - 1)
  }

  /** ... which is the CIDR mask of prefix length `p`, as in section 3.1 of RFC 4632. */
  lemma {:induction false} LeadingOnesIsMask(w: nat, p: nat)
    requires p <= w
    ensures LeadingOnes(w, p) == Pow2(w) - Pow2(w - p)
  {
    var a, b := Pow2(w - p), Pow2(p);
    Pow2Sum(w - p, p);
    Distributes(a, b);
  }

  lemma {:induction false} Distributes(a: int, b: int)
    ensures a * (b - 1) == a * b - a
  {
  }

  lemma {:induction false} LeadingOnesCount(w: nat, p: nat)
    requires p <= w
    ensures PopCount(LeadingOnes(w, p)) == p
  {
    PopCountOnes(p);
    PopCountSplit(0, Pow2(p) - 1, w - p);
    assert PopCount(0) == 0;
  }

  lemma {:induction false} Pow2Sum(a: nat, b: nat)
    ensures Pow2(a + b) == Pow2(a) * Pow2(b)
  {
    if a > 0 { Pow2Sum(a - 1, b); }
  }

  // ---- addresses ----------------------------------------------------------------------

  const DOT: Byte := 46
  const ZERO: Byte := 48
  const INET_ADDRSTRLEN := 16
  const IP_BUFFER_SIZE := 128

  predicate IsDigit(c: Byte) { ZERO <= c <= ZERO + 9 }

  /** The decimal text of a number. */
  function Decimal(n: nat): (t: seq<Byte>)
    ensures t != [] && forall i :: 0 <= i < |t| ==> IsDigit(t[i])
    ensures n < 10 ==> |t| == 1
    ensures n < 1000 ==> |t| <= 3
  {
    if n < 10 then [ZERO + n] else Decimal(n / 10) + [ZERO + n % 10]
  }

  /** Reads digits onto `acc` and gives the number and what follows it. */
  function ReadDigits(t: seq<Byte>, acc: nat): (nat, seq<Byte>)
  {
    if t != [] && IsDigit(t[0]) then ReadDigits(t[1..], 10 * acc + (t[0] - ZERO)) else (acc, t)
  }

  lemma {:induction false} ReadsDecimal(n: nat, rest: seq<Byte>)
    ensures ReadDigits(Decimal(n) + rest, 0) == ReadDigits(rest, n)
  {
    if n < 10 {
      assert (Decimal(n) + rest)[1..] == rest;
    } else {
      var d: Byte := ZERO + n % 10;
      ReadsDecimal(n / 10, [d] + rest);
      assert Decimal(n) + rest == Decimal(n / 10) + ([d] + rest);
      assert ([d] + rest)[1..] == rest;
      assert ReadDigits([d] + rest, n / 10) == ReadDigits(rest, 10 * (n / 10) + n % 10);
    }
  }

  datatype Quad = Quad(a: Byte, b: Byte, c: Byte, d: Byte)

  function Text(q: Quad): (t: seq<Byte>)
    ensures 7 <= |t| < INET_ADDRSTRLEN
    ensures forall i :: 0 <= i < |t| ==> t[i] != 0
  {
    Decimal(q.a) + [DOT] + Decimal(q.b) + [DOT] + Decimal(q.c) + [DOT] + Decimal(q.d)
  }

  /** One octet: at least one digit, no leading zero, at most 255. */
  function ReadOctet(t: seq<Byte>): Option<(Byte, seq<Byte>)> {
    if t == [] || !IsDigit(t[0]) || (|t| > 1 && t[0] == ZERO && IsDigit(t[1])) then None
    else
      var (n, rest) := ReadDigits(t, 0);
      if n < 0x100 then Some((n, rest)) else None
  }

  function ReadDotOctet(t: seq<Byte>): Option<(Byte, seq<Byte>)> {
    if t != [] && t[0] == DOT then ReadOctet(t[1..]) else None
  }

  function Parse(t: seq<Byte>): Option<Quad> {
    match ReadOctet(t) case None => None case Some((a, t1)) =>
    match ReadDotOctet(t1) case None => None case Some((b, t2)) =>
    match ReadDotOctet(t2) case None => None case Some((c, t3)) =>
    match ReadDotOctet(t3) case None => None case Some((d, t4)) =>
    if t4 == [] then Some(Quad(a, b, c, d)) else None
  }

  lemma {:induction false} DecimalHead(n: nat)
    ensures |Decimal(n)| > 1 ==> Decimal(n)[0] != ZERO
    ensures n > 0 ==> Decimal(n)[0] != ZERO
  {
    if n >= 10 { DecimalHead(n / 10); }
  }

  lemma {:induction false} ReadsOctet(n: Byte, rest: seq<Byte>)
    requires rest == [] || !IsDigit(rest[0])
    ensures ReadOctet(Decimal(n) + rest) == Some((n, rest))
  {
    ReadsDecimal(n, rest);
    DecimalHead(n);
  }

  lemma {:induction false} ReadsDotOctet(n: Byte, rest: seq<Byte>)
    requires rest == [] || !IsDigit(rest[0])
    ensures ReadDotOctet([DOT] + Decimal(n) + rest) == Some((n, rest))
  {
    ReadsOctet(n, rest);
    assert ([DOT] + Decimal(n) + rest)[1..] == Decimal(n) + rest;
  }

  /** Printing an address and parsing the text gives the address back. */
  lemma {:induction false} TextRoundTrip(q: Quad)
    ensures Parse(Text(q)) == Some(q)
  {
    var t3 := [DOT] + Decimal(q.d) + [];
    var t2 := [DOT] + Decimal(q.c) + t3;
    var t1 := [DOT] + Decimal(q.b) + t2;
    assert Text(q) == Decimal(q.a) + t1;
    ReadsOctet(q.a, t1);
    ReadsDotOctet(q.b, t2);
    ReadsDotOctet(q.c, t3);
    ReadsDotOctet(q.d, []);
  }

  /** The octets of an address given as a host integer, most significant first. */
  function Octets(address: DWord): Quad {
    Quad(address / 0x100_0000, address / 0x1_0000 % 0x100, address / 0x100 % 0x100, address % 0x100)
  }

  /** The text stored for an address: the host integer is put in network order and printed. */
  function QmiInet4Ntop(address: DWord): seq<Byte> {
    Text(Octets(address))
  }

  /** The 32-bit word `inet_pton` leaves on a little-endian host, 0 when the text is refused. */
  function InetPton(text: seq<Byte>): DWord {
    match Parse(text)
    case Some(q) => q.a as int + 0x100 * (q.b as int) + 0x1_0000 * (q.c as int) + 0x100_0000 * (q.d as int)
    case None => 0
  }

  method MmNetmaskToCidr(netmask: seq<Byte>) returns (prefix: nat)
    ensures prefix == PopCount(InetPton(netmask))
  {
    var num := InetPton(netmask);
    prefix := MmCountBitsSet(num);
  }

  lemma {:induction false} PopCountBytes(w: Byte, x: Byte, y: Byte, z: Byte)
    ensures PopCount(w as int + 0x100 * (x as int) + 0x1_0000 * (y as int) + 0x100_0000 * (z as int)) ==
            PopCount(w) + PopCount(x) + PopCount(y) + PopCount(z)
  {
    assert Pow2(8) == 0x100;
    var yz: nat := y as int + 0x100 * (z as int);
    var xyz: nat := x as int + 0x100 * yz;
    PopCountSplit(y, z, 8);
    PopCountSplit(x, yz, 8);
    PopCountSplit(w, xyz, 8);
    assert w as int + 0x100 * xyz ==
      w as int + 0x100 * (x as int) + 0x1_0000 * (y as int) + 0x100_0000 * (z as int);
  }

  lemma {:induction false} OctetsSum(address: DWord)
    ensures var q := Octets(address);
            address == q.d as int + 0x100 * (q.c as int) + 0x1_0000 * (q.b as int) + 0x100_0000 * (q.a as int)
  {
    var x, y, z := address / 0x100, address / 0x1_0000, address / 0x100_0000;
    assert address == 0x100 * x + address % 0x100;
    assert x == 0x100 * y + x % 0x100 by { assert x / 0x100 == y; }
    assert y == 0x100 * z + y % 0x100 by { assert y / 0x100 == z; }
  }

  lemma {:induction false} WidthIs32()
    ensures Pow2(32) == 0x1_0000_0000
  {
    assert Pow2(8) == 0x100;
    Pow2Sum(8, 8);
    Pow2Sum(16, 16);
  }

  /** Printing a mask and parsing it back swaps its bytes; the count of ones survives. */
  lemma {:induction false} MaskCountSurvives(mask: DWord)
    ensures PopCount(InetPton(QmiInet4Ntop(mask))) == PopCount(mask)
  {
    var q := Octets(mask);
    TextRoundTrip(q);
    PopCountBytes(q.a, q.b, q.c, q.d);
    PopCountBytes(q.d, q.c, q.b, q.a);
    OctetsSum(mask);
  }

  /** A 32-bit mask with `p` leading ones is reported as prefix `p`. */
  lemma {:induction false} MaskGivesPrefix(p: nat)
    requires p <= 32
    ensures LeadingOnes(32, p) < 0x1_0000_0000
    ensures PopCount(InetPton(QmiInet4Ntop(LeadingOnes(32, p)))) == p
  {
    LeadingOnesIsMask(32, p);
    LeadingOnesCount(32, p);
    WidthIs32();
    MaskCountSurvives(LeadingOnes(32, p));
  }

  // ---- character by character ------------------------------------------------------------------------

  /** The codes of the characters of a text. */
  function Ascii(text: string): (t: seq<int>)
    ensures |t| == |text|
  {
    seq(|text|, i requires 0 <= i < |text| => text[i] as int)
  }

  lemma {:induction false} DecimalDigits()
    ensures Decimal(0) == [48] && Decimal(1) == [49] && Decimal(192) == [49, 57, 50] && Decimal(168) == [49, 54, 56]
  {
    assert Decimal(19) == [49, 57] && Decimal(16) == [49, 54];
  }

  /** An address as it is printed: 0xC0A80001 is 192.168.0.1. */
  lemma {:induction false} PrintedAs()
    ensures QmiInet4Ntop(0xC0A8_0001) == Ascii("192.168.0.1")
  {
    DecimalDigits();
    assert Octets(0xC0A8_0001) == Quad(192, 168, 0, 1);
    var t: seq<Byte> := [49, 57, 50, 46, 49, 54, 56, 46, 48, 46, 49];
    assert QmiInet4Ntop(0xC0A8_0001) == t;
    assert forall i :: 0 <= i < 11 ==> Ascii("192.168.0.1")[i] == t[i];
  }

  /** Parsing on a little-endian host leaves the bytes of the address in the opposite order. */
  lemma {:induction false} ParsingSwaps(address: DWord)
    ensures var swapped := InetPton(QmiInet4Ntop(address));
            forall k :: 0 <= k < 4 ==> Le32(swapped)[k] == Le32(address)[3 - k]
  {
    var q := Octets(address);
    TextRoundTrip(q);
    OctetsSum(address);
    BytesOf(q.d, q.c, q.b, q.a);
    BytesOf(q.a, q.b, q.c, q.d);
  }

  lemma {:induction false} BytesOf(w: Byte, x: Byte, y: Byte, z: Byte)
    ensures Le32(w as int + 0x100 * (x as int) + 0x1_0000 * (y as int) + 0x100_0000 * (z as int)) == [w, x, y, z]
  {
    var low, high := w as int + 0x100 * (x as int), y as int + 0x100 * (z as int);
    var v := w as int + 0x100 * (x as int) + 0x1_0000 * (y as int) + 0x100_0000 * (z as int);
    assert v == low + 0x1_0000 * high;
    assert v % 0x1_0000 == low && v / 0x1_0000 == high;
    assert low % 0x100 == w && low / 0x100 == x && high % 0x100 == y && high / 0x100 == z;
  }
}
