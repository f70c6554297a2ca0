/** The bitwise CRC loop, the table form of section 8 of RFC 1952, and its error detection.
    A 32-bit register is its sequence of bits, least significant first. */
module Crc {
  import opened Bytes

  type Word = w: seq<bool> | |w| == 32 witness Fill(false)

  function Fill(b: bool): (r: seq<bool>)
    ensures |r| == 32
  {
    seq(32, _ => b)
  }

  const POLYNOMIAL: Word := Bits(0xedb88320, |Fill(false)|)
  const ALL_ONES: Word := Fill(true)
  const ZERO: Word := Fill(false)

  function Xor(x: Word, y: Word): Word {
    seq(32, i requires 0 <= i < 32 => x[i] != y[i])
  }

  function ShiftRight(x: Word, n: nat): Word {
    seq(32, i requires 0 <= i < 32 => i + n < 32 && x[i + n])
  }

  /** A byte as the low eight bits of a register. */
  function Byte(b: u8): Word {
    Octet(b) + seq(24, _ => false)
  }

  /** One turn of the inner loop. */
  function Shift(c: Word): Word {
    Xor(ShiftRight(c, 1), if c[0] then POLYNOMIAL else ZERO)
  }

  function Iterate(f: Word -> Word, c: Word, n: nat): Word
    decreases n
  {
    if n == 0 then c else Iterate(f, f(c), n - 1)
  }

  function Shifts(c: Word, n: nat): Word { Iterate(Shift, c, n) }

  /** One byte: mixed in, then one shift for each of its bits. */
  function Mix(c: Word, b: u8): Word {
    Shifts(Xor(c, Byte(b)), |Octet(b)|)
  }

  /** The register after the bytes, from a given start. */
  function Run(c: Word, bytes: seq<u8>): Word
    decreases |bytes|
  {
    if bytes == [] then c else Run(Mix(c, bytes[0]), bytes[1..])
  }

  function Crc(bytes: seq<u8>): Word {
    Xor(Run(ALL_ONES, bytes), ALL_ONES)
  }

  /** The check word as a number, behind a descent that the verifier does not follow (see CrcOpen). */
  function Crc32(bytes: seq<u8>): u32 { Crc32Behind(bytes, 2 + |bytes|) }

  function Crc32Behind(bytes: seq<u8>, depth: nat): u32 {
    PowerOf32();
    if depth == 0 then Value(Crc(bytes)) else Crc32Behind(bytes, depth - 1)
  }

  lemma CrcOpen(bytes: seq<u8>)
    ensures Crc32(bytes) == Value(Crc(bytes))
  {
    CrcDescent(bytes, 2 + |bytes|);
  }

  lemma {:induction false} CrcDescent(bytes: seq<u8>, depth: nat)
    ensures Crc32Behind(bytes, depth) == Value(Crc(bytes))
  {
    if depth != 0 { CrcDescent(bytes, depth - 1); }
  }

  lemma {:induction false} RunConcat(c: Word, x: seq<u8>, y: seq<u8>)
    ensures Run(c, x + y) == Run(Run(c, x), y)
    decreases |x|
  {
    if x == [] {
      assert x + y == y;
    } else {
      assert (x + y)[1..] == x[1..] + y;
      RunConcat(Mix(c, x[0]), x[1..], y);
    }
  }

  lemma {:induction false} IterateSplit(f: Word -> Word, c: Word, m: nat, n: nat, total: nat)
    requires total == m + n
    ensures Iterate(f, c, total) == Iterate(f, Iterate(f, c, m), n)
    decreases m
  {
    if m != 0 {
      IterateSplit(f, f(c), m - 1, n, total - 1);
    }
  }

  lemma ShiftsSplit(c: Word, m: nat, n: nat, total: nat)
    requires total == m + n
    ensures Shifts(c, total) == Shifts(Shifts(c, m), n)
  {
    IterateSplit(Shift, c, m, n, total);
  }

  /** The inner loop of boot_crc32: eight conditional shifts after one byte. */
  method Absorb(start: Word, b: u8) returns (crc: Word)
    ensures crc == Mix(start, b)
  {
    crc := Xor(start, Byte(b));
    ghost var first := crc;
    var bit := 0;
    while bit < |Octet(b)|
      invariant 0 <= bit <= |Octet(b)|
      invariant crc == Shifts(first, bit)
    {
      ShiftsSplit(first, bit, 1, bit + 1);
      OneShift(crc);
      crc := Xor(ShiftRight(crc, 1), if crc[0] then POLYNOMIAL else ZERO);
      bit := bit + 1;
    }
  }

  lemma OneShift(c: Word)
    ensures Shifts(c, 1) == Shift(c)
  {}

  lemma RunSnoc(c: Word, bytes: seq<u8>, b: u8)
    ensures Run(c, bytes + [b]) == Mix(Run(c, bytes), b)
  {
    RunConcat(c, bytes, [b]);
    assert [b][1..] == [];
  }

  /** The byte loop of boot_crc32. */
  method Compute(bytes: seq<u8>) returns (crc: Word)
    ensures crc == Crc(bytes)
  {
    crc := ALL_ONES;
    var i := 0;
    while i < |bytes|
      invariant 0 <= i <= |bytes|
      invariant crc == Run(ALL_ONES, bytes[..i])
    {
      RunSnoc(ALL_ONES, bytes[..i], bytes[i]);
      assert bytes[..i + 1] == bytes[..i] + [bytes[i]];
      crc := Absorb(crc, bytes[i]);
      i := i + 1;
    }
    assert bytes[..i] == bytes;
    crc := Xor(crc, ALL_ONES);
  }

  // ---- the reference: table lookup, RFC 1952 section 8 ----

  function Table(n: Word): Word { Shifts(n, 8) }

  function LowByte(c: Word): Word {
    seq(32, i requires 0 <= i < 32 => i < 8 && c[i])
  }

  function RfcUpdate(c: Word, bytes: seq<u8>): Word
    decreases |bytes|
  {
    if bytes == [] then c
    else RfcUpdate(Xor(Table(LowByte(Xor(c, Byte(bytes[0])))), ShiftRight(c, 8)), bytes[1..])
  }

  function RfcCrc(bytes: seq<u8>): Word {
    Xor(RfcUpdate(ALL_ONES, bytes), ALL_ONES)
  }

  lemma ShiftLinear(x: Word, y: Word)
    ensures Shift(Xor(x, y)) == Xor(Shift(x), Shift(y))
  {}

  lemma {:induction false} IterateLinear(f: Word -> Word, x: Word, y: Word, n: nat)
    requires forall u: Word, v: Word :: f(Xor(u, v)) == Xor(f(u), f(v))
    ensures Iterate(f, Xor(x, y), n) == Xor(Iterate(f, x, n), Iterate(f, y, n))
    decreases n
  {
    if n != 0 {
      IterateLinear(f, f(x), f(y), n - 1);
    }
  }

  lemma ShiftsLinear(x: Word, y: Word, n: nat)
    ensures Shifts(Xor(x, y), n) == Xor(Shifts(x, n), Shifts(y, n))
  {
    forall u: Word, v: Word ensures Shift(Xor(u, v)) == Xor(Shift(u), Shift(v)) { ShiftLinear(u, v); }
    IterateLinear(Shift, x, y, n);
  }

  /** Clear low bits are simply dropped. */
  lemma {:induction false} ShiftsOfHigh(x: Word, n: nat)
    requires n <= 32 && forall i :: 0 <= i < n ==> !x[i]
    ensures Shifts(x, n) == ShiftRight(x, n)
    decreases n
  {
    if n == 0 {
      assert ShiftRight(x, 0) == x;
    } else {
      assert Shift(x) == ShiftRight(x, 1);
      ShiftsOfHigh(Shift(x), n - 1);
      assert ShiftRight(ShiftRight(x, 1), n - 1) == ShiftRight(x, n);
    }
  }

  lemma TableStep(c: Word, b: u8)
    ensures Mix(c, b) == Xor(Table(LowByte(Xor(c, Byte(b)))), ShiftRight(c, 8))
  {
    var x := Xor(c, Byte(b));
    var high: Word := seq(32, i requires 0 <= i < 32 => i >= 8 && x[i]);
    assert Xor(LowByte(x), high) == x;
    ShiftsLinear(LowByte(x), high, 8);
    ShiftsOfHigh(high, 8);
    assert ShiftRight(high, 8) == ShiftRight(c, 8);
  }

  lemma {:induction false} RunIsRfc(c: Word, bytes: seq<u8>)
    ensures Run(c, bytes) == RfcUpdate(c, bytes)
    decreases |bytes|
  {
    if bytes != [] {
      TableStep(c, bytes[0]);
      RunIsRfc(Mix(c, bytes[0]), bytes[1..]);
    }
  }

  /** The loop computes the check value that the standard defines by table lookup. */
  lemma LoopIsRfc(bytes: seq<u8>)
    ensures Crc(bytes) == RfcCrc(bytes)
  {
    RunIsRfc(ALL_ONES, bytes);
  }

  // ---- error detection ----

  lemma XorCancel(c: Word, x: Word, y: Word)
    requires Xor(c, x) == Xor(c, y)
    ensures x == y
  {
    forall i | 0 <= i < 32 ensures x[i] == y[i] {
      assert Xor(c, x)[i] == Xor(c, y)[i];
    }
  }

  lemma XorCommutes(x: Word, y: Word)
    ensures Xor(x, y) == Xor(y, x)
  {}

  lemma PolynomialTop()
    ensures POLYNOMIAL[31]
  {
    PowerOf32();
    TopBit(0xedb88320, |Fill(false)|);
  }

  /** The same for any polynomial, so that its digits stay out of the proof. */
  lemma ShiftWith(c: Word, p: Word, i: nat)
    requires i < 32
    ensures Xor(ShiftRight(c, 1), if c[0] then p else ZERO)[i] == ((i < 31 && c[i + 1]) != (c[0] && p[i]))
  {
    assert !ZERO[i];
  }

  lemma ShiftBit(c: Word, i: nat)
    requires i < 32
    ensures Shift(c)[i] == (if i < 31 then c[i + 1] != (c[0] && POLYNOMIAL[i]) else c[0])
  {
    if i == 31 { PolynomialTop(); }
    ShiftWith(c, POLYNOMIAL, i);
  }

  lemma ShiftInjective(x: Word, y: Word)
    requires Shift(x) == Shift(y)
    ensures x == y
  {
    ShiftBit(x, 31);
    ShiftBit(y, 31);
    forall i | 0 <= i < 32 ensures x[i] == y[i] {
      if i != 0 {
        ShiftBit(x, i - 1);
        ShiftBit(y, i - 1);
      }
    }
  }

  lemma {:induction false} IterateInjective(f: Word -> Word, x: Word, y: Word, n: nat)
    requires forall u: Word, v: Word :: f(u) == f(v) ==> u == v
    requires Iterate(f, x, n) == Iterate(f, y, n)
    ensures x == y
    decreases n
  {
    if n != 0 {
      IterateInjective(f, f(x), f(y), n - 1);
    }
  }

  lemma ShiftsInjective(x: Word, y: Word, n: nat)
    requires Shifts(x, n) == Shifts(y, n)
    ensures x == y
  {
    forall u: Word, v: Word | Shift(u) == Shift(v) ensures u == v { ShiftInjective(u, v); }
    IterateInjective(Shift, x, y, n);
  }

  lemma {:induction false} RunInjective(x: Word, y: Word, bytes: seq<u8>)
    requires Run(x, bytes) == Run(y, bytes)
    ensures x == y
    decreases |bytes|
  {
    if bytes != [] {
      var b := Byte(bytes[0]);
      RunInjective(Mix(x, bytes[0]), Mix(y, bytes[0]), bytes[1..]);
      ShiftsInjective(Xor(x, b), Xor(y, b), |Octet(bytes[0])|);
      XorCommutes(x, b);
      XorCommutes(y, b);
      XorCancel(b, x, y);
    }
  }

  /** Up to four bytes read as one little-endian register. */
  function Window(d: seq<u8>): Word
    requires |d| <= 4
  {
    seq(32, i requires 0 <= i < 32 => i / 8 < |d| && Byte(d[i / 8])[i % 8])
  }

  lemma WindowSplit(d: seq<u8>)
    requires 0 < |d| <= 4
    ensures forall i :: 0 <= i < 8 ==> Window(d)[i] == Byte(d[0])[i]
    ensures forall i :: 0 <= i < 24 ==> Window(d)[i + 8] == Window(d[1..])[i]
    ensures forall i :: 24 <= i < 32 ==> !Window(d[1..])[i]
  {
    forall i | 0 <= i < 24 ensures Window(d)[i + 8] == Window(d[1..])[i] {
      assert (i + 8) / 8 == i / 8 + 1 && (i + 8) % 8 == i % 8;
    }
  }

  lemma {:induction false} WindowRun(c: Word, d: seq<u8>)
    requires |d| <= 4
    ensures Run(c, d) == Shifts(Xor(c, Window(d)), 8 * |d|)
    decreases |d|
  {
    if d == [] {
      assert Xor(c, Window(d)) == c;
    } else {
      WindowStep(c, d);
      ShiftsSplit(Xor(c, Window(d)), |Octet(d[0])|, 8 * |d[1..]|, 8 * |d|);
      WindowRun(Mix(c, d[0]), d[1..]);
    }
  }

  lemma WindowStep(c: Word, d: seq<u8>)
    requires 0 < |d| <= 4
    ensures Shifts(Xor(c, Window(d)), |Octet(d[0])|) == Xor(Mix(c, d[0]), Window(d[1..]))
  {
    WindowSplit(d);
    var b, tail := Byte(d[0]), Window(d[1..]);
    var high: Word := seq(32, i requires 0 <= i < 32 => i >= 8 && Window(d)[i]);
    assert ShiftRight(high, 8) == tail by {
      forall i | 0 <= i < 32 ensures ShiftRight(high, 8)[i] == tail[i] {
        if i < 24 { assert Window(d)[i + 8] == tail[i]; }
      }
    }
    assert Xor(c, Window(d)) == Xor(Xor(c, b), high);
    ShiftsLinear(Xor(c, b), high, 8);
    ShiftsOfHigh(high, 8);
  }

  lemma {:induction false} WindowInjective(d: seq<u8>, e: seq<u8>)
    requires |d| == |e| <= 4 && Window(d) == Window(e)
    ensures d == e
  {
    if d != [] {
      WindowSplit(d);
      WindowSplit(e);
      assert Octet(d[0]) == Octet(e[0]) by {
        forall i | 0 <= i < 8 ensures Octet(d[0])[i] == Octet(e[0])[i] {
          assert Byte(d[0])[i] == Window(d)[i] == Window(e)[i] == Byte(e[0])[i];
        }
      }
      FromOfOctet(d[0]);
      FromOfOctet(e[0]);
      forall i | 0 <= i < 32 ensures Window(d[1..])[i] == Window(e[1..])[i] {
        if i < 24 { assert Window(d)[i + 8] == Window(e)[i + 8]; }
      }
      WindowInjective(d[1..], e[1..]);
      assert d == [d[0]] + d[1..] && e == [e[0]] + e[1..];
    }
  }

  lemma {:induction false} BurstAfterPrefix(c: Word, d: seq<u8>, e: seq<u8>, s: seq<u8>)
    requires |d| == |e| <= 4 && Run(c, d + s) == Run(c, e + s)
    ensures d == e
  {
    RunConcat(c, d, s);
    RunConcat(c, e, s);
    RunInjective(Run(c, d), Run(c, e), s);
    WindowRun(c, d);
    WindowRun(c, e);
    ShiftsInjective(Xor(c, Window(d)), Xor(c, Window(e)), 8 * |d|);
    XorCancel(c, Window(d), Window(e));
    WindowInjective(d, e);
  }

  /** A difference inside four consecutive bytes never goes unnoticed. */
  lemma BurstDetected(x: seq<u8>, y: seq<u8>, at: nat)
    requires |x| == |y| && x != y
    requires forall i :: 0 <= i < |x| && x[i] != y[i] ==> at <= i < at + 4
    ensures Crc32(x) != Crc32(y)
  {
    var lo := if at <= |x| then at else |x|;
    var hi := if at + 4 <= |x| then at + 4 else |x|;
    var p, d, e, s := x[..lo], x[lo..hi], y[lo..hi], x[hi..];
    assert x == p + (d + s);
    assert y == p + (e + s);
    if Crc32(x) == Crc32(y) {
      CrcOpen(x);
      CrcOpen(y);
      ValueInjective(Crc(x), Crc(y));
      XorCommutes(Run(ALL_ONES, x), ALL_ONES);
      XorCommutes(Run(ALL_ONES, y), ALL_ONES);
      XorCancel(ALL_ONES, Run(ALL_ONES, x), Run(ALL_ONES, y));
      RunConcat(ALL_ONES, p, d + s);
      RunConcat(ALL_ONES, p, e + s);
      BurstAfterPrefix(Run(ALL_ONES, p), d, e, s);
    }
  }
}
