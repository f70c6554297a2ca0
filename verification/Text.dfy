/** Decimal and hexadecimal text, and lines, as both ends of the link read and write them. */
module Text {
  import opened Bytes

  function Chars(s: seq<u8>): (r: string)
    ensures |r| == |s|
  {
    seq(|s|, i requires 0 <= i < |s| => s[i] as char)
  }

  // ---- decimal ----

  predicate Numeric(s: string) { s != "" && forall i :: 0 <= i < |s| ==> '0' <= s[i] <= '9' }

  predicate AllDigits(s: string) { forall i :: 0 <= i < |s| ==> '0' <= s[i] <= '9' }

  function Digits(n: nat): (s: string)
    ensures Numeric(s)
    decreases n
  {
    if n < 10 then ['0' + n as char] else Digits(n / 10) + ['0' + (n % 10) as char]
  }

  function DecimalValue(s: string): nat
    requires AllDigits(s)
  {
    if s == "" then 0 else 10 * DecimalValue(s[..|s| - 1]) + (s[|s| - 1] - '0') as nat
  }

  lemma {:induction false} ValueOfDigits(n: nat)
    ensures DecimalValue(Digits(n)) == n
    decreases n
  {
    var s := Digits(n);
    if n >= 10 {
      ValueOfDigits(n / 10);
      assert s[..|s| - 1] == Digits(n / 10);
    } else {
      assert s[..|s| - 1] == "";
    }
  }

  lemma {:induction false} ValueGrows(s: string, n: nat)
    requires AllDigits(s) && n <= |s|
    ensures DecimalValue(s[..n]) <= DecimalValue(s)
  {
    if n < |s| {
      ValueGrows(s[..|s| - 1], n);
      assert s[..|s| - 1][..n] == s[..n];
    } else {
      assert s[..n] == s;
    }
  }

  /** The 32-bit number that a text denotes. */
  function ParseDecimal(s: string): Option<u32> {
    if Numeric(s) && DecimalValue(s) <= UINT32_MAX then Some(DecimalValue(s)) else None
  }

  /** The digit loop: it refuses a number exactly when it does not fit 32 bits. */
  method ReadDecimal(s: string) returns (r: Option<u32>)
    ensures r == ParseDecimal(s)
  {
    if s == "" { return None; }
    var n: u32 := 0;
    for i := 0 to |s|
      invariant AllDigits(s[..i]) && n as int == DecimalValue(s[..i])
    {
      if s[i] < '0' || s[i] > '9' { return None; }
      var d: u32 := (s[i] - '0') as int;
      assert s[..i + 1][..i] == s[..i];
      if n > (UINT32_MAX - d) / 10 {
        if AllDigits(s) { ValueGrows(s, i + 1); }
        return None;
      }
      n := n * 10 + d;
    }
    assert s[..|s|] == s;
    return Some(n);
  }

  /** The formatter: the digits come out last first. */
  method Decimal(value: u32) returns (text: string)
    ensures text == Digits(value)
  {
    var rest := value;
    text := ['0' + (rest % 10) as char];
    rest := rest / 10;
    while rest != 0
      invariant (if rest == 0 then [] else Digits(rest)) + text == Digits(value)
    {
      text := ['0' + (rest % 10) as char] + text;
      rest := rest / 10;
    }
  }

  function Power10(n: nat): nat { if n == 0 then 1 else 10 * Power10(n - 1) }

  lemma {:induction false} DigitsLength(n: nat, bound: nat, digits: nat)
    requires 0 < digits && n < bound && bound == Power10(digits)
    ensures |Digits(n)| <= digits
  {
    if n >= 10 { DigitsLength(n / 10, Power10(digits - 1), digits - 1); }
  }

  lemma FewDigits(n: nat, digits: nat)
    requires (digits == 3 && n < 1000) || (digits == 5 && n < 100_000) || (digits == 10 && n < 10_000_000_000)
    ensures |Digits(n)| <= digits
  {
    assert Power10(3) == 1000;
    assert Power10(5) == 100 * Power10(3);
    assert Power10(10) == 100_000 * Power10(5);
    DigitsLength(n, Power10(digits), digits);
  }

  // ---- hexadecimal ----

  function HexDigit(n: nat): (c: char)
    requires n < 16
    ensures '0' <= c <= '9' || 'a' <= c <= 'f'
  {
    if n < 10 then '0' + n as char else 'a' + (n - 10) as char
  }

  /** Lower case only. */
  function Nibble(c: char): Option<nat> {
    if '0' <= c <= '9' then Some((c - '0') as nat)
    else if 'a' <= c <= 'f' then Some((c - 'a') as nat + 10)
    else None
  }

  lemma NibbleOfHex(n: nat)
    requires n < 16
    ensures Nibble(HexDigit(n)) == Some(n)
  {}

  function HexText(h: seq<u8>): (s: string)
    ensures |s| == 2 * |h|
  {
    if h == [] then "" else [HexDigit(h[0] / 16), HexDigit(h[0] % 16)] + HexText(h[1..])
  }

  function ParseHex(s: string): Option<seq<u8>> {
    if s == "" then Some([])
    else if |s| < 2 || Nibble(s[0]).None? || Nibble(s[1]).None? || ParseHex(s[2..]).None? then None
    else Some([Nibble(s[0]).value * 16 + Nibble(s[1]).value] + ParseHex(s[2..]).value)
  }

  predicate HexString(s: string) { forall i :: 0 <= i < |s| ==> Nibble(s[i]).Some? }

  lemma {:induction false} HexRoundTrip(h: seq<u8>)
    ensures ParseHex(HexText(h)) == Some(h) && HexString(HexText(h))
  {
    if h != [] {
      NibbleOfHex(h[0] / 16);
      NibbleOfHex(h[0] % 16);
      HexRoundTrip(h[1..]);
      assert HexText(h)[2..] == HexText(h[1..]);
      assert [h[0]] + h[1..] == h;
    }
  }

  lemma HexOfNibbles(c: char, d: char)
    requires Nibble(c).Some? && Nibble(d).Some?
    ensures var b := Nibble(c).value * 16 + Nibble(d).value; b < 256 && HexDigit(b / 16) == c && HexDigit(b % 16) == d
  {}

  lemma {:induction false} HexCanonical(s: string)
    requires ParseHex(s).Some?
    ensures HexText(ParseHex(s).value) == s && |s| == 2 * |ParseHex(s).value|
  {
    if s != "" {
      HexCanonical(s[2..]);
      HexOfNibbles(s[0], s[1]);
      assert s == [s[0], s[1]] + s[2..];
      assert ParseHex(s).value[1..] == ParseHex(s[2..]).value;
    }
  }

  /** A number in a fixed number of hexadecimal digits. */
  function HexFixed(n: nat, digits: nat): (s: string)
    ensures |s| == digits
  {
    if digits == 0 then "" else HexFixed(n / 16, digits - 1) + [HexDigit(n % 16)]
  }

  function HexValue(s: string): nat
    requires HexString(s)
  {
    if s == "" then 0 else 16 * HexValue(s[..|s| - 1]) + Nibble(s[|s| - 1]).value
  }

  function Power16(n: nat): nat { if n == 0 then 1 else 16 * Power16(n - 1) }

  lemma {:induction false} HexFixedValue(n: nat, digits: nat)
    requires n < Power16(digits)
    ensures HexString(HexFixed(n, digits)) && HexValue(HexFixed(n, digits)) == n
  {
    if digits != 0 {
      HexFixedValue(n / 16, digits - 1);
      NibbleOfHex(n % 16);
      assert HexFixed(n, digits)[..digits - 1] == HexFixed(n / 16, digits - 1);
    }
  }

  // ---- lines ----

  predicate Without(s: string, c: char) { forall i :: 0 <= i < |s| ==> s[i] != c }

  /** The first place of a character, or the end. */
  function Find(s: string, c: char): (n: nat)
    ensures n <= |s| && Without(s[..n], c) && (n < |s| ==> s[n] == c)
  {
    if s == "" || s[0] == c then 0
    else
      assert s[..1 + Find(s[1..], c)] == [s[0]] + s[1..][..Find(s[1..], c)];
      1 + Find(s[1..], c)
  }

  lemma {:induction false} FindAfter(a: string, c: char, rest: string)
    requires Without(a, c)
    ensures Find(a + [c] + rest, c) == |a|
    ensures (a + [c] + rest)[..|a|] == a && (a + [c] + rest)[|a| + 1..] == rest
  {
    if a != "" {
      assert (a + [c] + rest)[1..] == a[1..] + [c] + rest;
      FindAfter(a[1..], c, rest);
    }
  }

  lemma {:induction false} FindNothing(a: string, c: char)
    requires Without(a, c)
    ensures Find(a, c) == |a|
  {
    if a != "" { FindNothing(a[1..], c); }
  }

  function Split(s: string, c: char): (parts: seq<string>)
    ensures parts != []
    decreases |s|
  {
    if Find(s, c) == |s| then [s] else [s[..Find(s, c)]] + Split(s[Find(s, c) + 1..], c)
  }

  lemma SplitFirst(a: string, c: char, rest: string)
    requires Without(a, c)
    ensures Split(a + [c] + rest, c) == [a] + Split(rest, c)
  {
    FindAfter(a, c, rest);
  }

  lemma SplitNothing(a: string, c: char)
    requires Without(a, c)
    ensures Split(a, c) == [a]
  {
    FindNothing(a, c);
  }

  /** Words with a separator between them. */
  function Join(words: seq<string>, c: char): string {
    if words == [] then "" else if |words| == 1 then words[0] else words[0] + [c] + Join(words[1..], c)
  }

  /** Splitting takes a joined text apart again. */
  lemma {:induction false} SplitJoin(words: seq<string>, c: char)
    requires words != [] && forall k :: 0 <= k < |words| ==> Without(words[k], c)
    ensures Split(Join(words, c), c) == words
  {
    if |words| == 1 {
      SplitNothing(words[0], c);
    } else {
      SplitJoin(words[1..], c);
      SplitFirst(words[0], c, Join(words[1..], c));
    }
  }

  /** And joining puts a split text together again. */
  lemma {:induction false} JoinSplit(s: string, c: char)
    ensures Join(Split(s, c), c) == s
    decreases |s|
  {
    var at := Find(s, c);
    if at < |s| {
      JoinSplit(s[at + 1..], c);
      assert Split(s, c)[1..] == Split(s[at + 1..], c);
      assert s == s[..at] + [c] + s[at + 1..];
    }
  }

  /** What no word contains, the joined text does not contain either. */
  lemma {:induction false} JoinWithout(words: seq<string>, c: char, d: char)
    requires c != d && forall k :: 0 <= k < |words| ==> Without(words[k], d)
    ensures Without(Join(words, c), d)
  {
    if |words| > 1 { JoinWithout(words[1..], c, d); }
  }

  lemma {:induction false} JoinLength(words: seq<string>, c: char, width: nat)
    requires words != [] && forall k :: 0 <= k < |words| ==> |words[k]| <= width
    ensures |Join(words, c)| < (width + 1) * |words|
  {
    if |words| > 1 { JoinLength(words[1..], c, width); }
  }
}
