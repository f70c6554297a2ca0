/** Bytes, little-endian words and small result types shared by every component. */
module Bytes {

  type u8 = x: int | 0 <= x < 256
  type u32 = x: int | 0 <= x < 0x1_0000_0000

  const UINT32_MAX: u32 := 0xffff_ffff

  datatype Option<+T> = None | Some(value: T) {
    function GetOr(default: T): T { if Some? then value else default }
  }

  /** The value of a predicate that is kept behind a descent, where the verifier does not follow its definition. */
  datatype Verdict = Yes | No

  function Min(a: int, b: int): int { if a < b then a else b }

  /** The number whose bytes, least significant first, are s. */
  function Little(s: seq<u8>): (v: nat)
    ensures v < Power256(|s|)
  {
    if s == [] then 0 else (s[0] as int) + 0x100 * Little(s[1..])
  }

  function LittleBytes(v: nat, n: nat): (r: seq<u8>)
    ensures |r| == n
  {
    if n == 0 then [] else [v % 0x100] + LittleBytes(v / 0x100, n - 1)
  }

  function Power256(n: nat): (p: nat)
    ensures p > 0
  {
    if n == 0 then 1 else 0x100 * Power256(n - 1)
  }

  lemma {:induction false} LittleOfBytes(v: nat, n: nat)
    requires v < Power256(n)
    ensures Little(LittleBytes(v, n)) == v
  {
    if n != 0 {
      LittleOfBytes(v / 0x100, n - 1);
      assert LittleBytes(v, n)[1..] == LittleBytes(v / 0x100, n - 1);
    }
  }

  lemma Digit(a: int, q: int)
    requires 0 <= a < 0x100
    ensures (a + 0x100 * q) % 0x100 == a && (a + 0x100 * q) / 0x100 == q
  {}

  lemma {:induction false} BytesOfLittle(s: seq<u8>)
    ensures LittleBytes(Little(s), |s|) == s
  {
    if s != [] {
      Digit(s[0], Little(s[1..]));
      BytesOfLittle(s[1..]);
    }
  }

  lemma WordRange()
    ensures Power256(4) == 0x1_0000_0000
  {
    assert Power256(2) == 0x1_0000;
  }

  /** put32: the four bytes of a word, least significant first. */
  function Put32(v: u32): (r: seq<u8>)
    ensures |r| == 4
  {
    LittleBytes(v, 4)
  }

  /** get32: the word stored at offset at. */
  function Get32(s: seq<u8>, at: nat): u32
    requires at + 4 <= |s|
  {
    WordRange();
    Little(s[at..at + 4])
  }

  lemma GetOfPut(s: seq<u8>, at: nat, v: u32)
    requires at + 4 <= |s| && s[at..at + 4] == Put32(v)
    ensures Get32(s, at) == v
  {
    WordRange();
    LittleOfBytes(v, 4);
  }

  lemma PutOfGet(s: seq<u8>, at: nat)
    requires at + 4 <= |s|
    ensures Put32(Get32(s, at)) == s[at..at + 4]
  {
    BytesOfLittle(s[at..at + 4]);
  }

  lemma ZeroWord(s: seq<u8>, at: nat)
    requires at + 4 <= |s| && Get32(s, at) == 0
    ensures forall k :: at <= k < at + 4 ==> s[k] == 0
  {
    PutOfGet(s, at);
    assert LittleBytes(0, 4) == [0, 0, 0, 0];
    forall k | at <= k < at + 4 ensures s[k] == 0 {
      assert s[at..at + 4][k - at] == s[k];
    }
  }

  /** A word with a byte that is not zero. */
  lemma NonzeroWord(s: seq<u8>, at: nat, k: nat)
    requires at <= k < at + 4 <= |s| && s[k] != 0
    ensures Get32(s, at) != 0
  {
    if Get32(s, at) == 0 { ZeroWord(s, at); }
  }

  function Zeros(n: nat): (r: seq<u8>)
    ensures |r| == n && forall i :: 0 <= i < n ==> r[i] == 0
  {
    seq(n, _ => 0)
  }

  // ---- bits of a number, least significant first ----

  function Power2(k: nat): nat {
    if k == 0 then 1 else 2 * Power2(k - 1)
  }

  function Bits(n: nat, width: nat): (r: seq<bool>)
    ensures |r| == width
  {
    if width == 0 then [] else [n % 2 == 1] + Bits(n / 2, width - 1)
  }

  function Value(w: seq<bool>): (v: nat)
    ensures v < Power2(|w|)
  {
    if w == [] then 0 else (if w[0] then 1 else 0) + 2 * Value(w[1..])
  }

  lemma {:induction false} ValueOfBits(n: nat, width: nat)
    requires n < Power2(width)
    ensures Value(Bits(n, width)) == n
  {
    if width != 0 {
      ValueOfBits(n / 2, width - 1);
      assert Bits(n, width)[1..] == Bits(n / 2, width - 1);
    }
  }

  lemma {:induction false} ValueInjective(x: seq<bool>, y: seq<bool>)
    requires |x| == |y| && Value(x) == Value(y)
    ensures x == y
  {
    if x != [] {
      ValueInjective(x[1..], y[1..]);
      assert x == [x[0]] + x[1..] && y == [y[0]] + y[1..];
    }
  }

  lemma {:induction false} TopBit(n: nat, width: nat)
    requires 0 < width && Power2(width - 1) <= n < Power2(width)
    ensures Bits(n, width)[width - 1]
  {
    if width != 1 {
      TopBit(n / 2, width - 1);
    }
  }

  lemma PowerOf32()
    ensures Power2(32) == 0x1_0000_0000
  {
    assert Power2(8) == 256;
    assert Power2(16) == 65536;
    assert Power2(24) == 16777216;
  }

  lemma HalfDigit(low: int, rest: int)
    requires 0 <= low < 2
    ensures (low + 2 * rest) % 2 == low && (low + 2 * rest) / 2 == rest
  {}

  lemma {:induction false} BitsOfValue(w: seq<bool>)
    ensures Bits(Value(w), |w|) == w
  {
    if w != [] {
      var low, rest := if w[0] then 1 else 0, Value(w[1..]);
      HalfDigit(low, rest);
      BitsOfValue(w[1..]);
      assert Bits(Value(w), |w|) == [w[0]] + w[1..];
    }
  }

  /** The eight bits of a byte. */
  function Octet(b: u8): (r: seq<bool>)
    ensures |r| == 8
  {
    Bits(b, 8)
  }

  /** The byte with the given bits, behind a descent that the verifier does not follow. */
  function FromOctet(s: seq<bool>): u8
    requires |s| == 8
  {
    FromOctetBehind(s, 2 + |s|)
  }

  function FromOctetBehind(s: seq<bool>, depth: nat): u8
    requires |s| == 8
  {
    PowerOf8();
    if depth == 0 then Value(s) else FromOctetBehind(s, depth - 1)
  }

  lemma {:induction false} FromOctetDescent(s: seq<bool>, depth: nat)
    requires |s| == 8
    ensures FromOctetBehind(s, depth) == Value(s)
  {
    if depth != 0 { FromOctetDescent(s, depth - 1); }
  }

  lemma PowerOf8()
    ensures Power2(8) == 256
  {
    assert Power2(4) == 16;
  }

  lemma OctetOfFrom(s: seq<bool>)
    requires |s| == 8
    ensures Octet(FromOctet(s)) == s
  {
    FromOctetDescent(s, 2 + |s|);
    BitsOfValue(s);
  }

  lemma FromOfOctet(b: u8)
    ensures FromOctet(Octet(b)) == b
  {
    FromOctetDescent(Octet(b), 2 + |Octet(b)|);
    PowerOf8();
    ValueOfBits(b, 8);
  }
}
