/** The confirm request as text: the device's parser, the client's body, and their agreement. */
module Confirm {
  import opened Bytes
  import opened Format
  import opened Lifecycle
  import opened Text

  const CONFIRM_CAPACITY: nat := 128

  /** The lines seen so far. */
  datatype Draft = Draft(format: bool, slot: Option<u32>, hash: Option<Hash>, trialId: Option<u32>)

  const BLANK := Draft(false, None, None, None)

  /** One line, without its newline: a known key, a good value, and not seen before. */
  function ParseLine(d: Draft, line: string): Option<Draft> {
    var at := Find(line, '=');
    if at == |line| then None
    else ParseField(d, line[..at], line[at + 1..])
  }

  function ParseField(d: Draft, key: string, value: string): Option<Draft> {
    if key == "format" then if ParseDecimal(value) == Some(1) && !d.format then Some(d.(format := true)) else None
    else if key == "slot" then
      if value == "A" && d.slot.None? then Some(d.(slot := Some(SLOT_A)))
      else if value == "B" && d.slot.None? then Some(d.(slot := Some(SLOT_B)))
      else None
    else if key == "hash" then
      if |value| == 64 && ParseHex(value).Some? && d.hash.None? then (HexCanonical(value); Some(d.(hash := Some(ParseHex(value).value))))
      else None
    else if key == "trial_id" then
      if ParseDecimal(value).Some? && d.trialId.None? then Some(d.(trialId := ParseDecimal(value))) else None
    else None
  }

  function ParseLines(d: Draft, text: string): Option<Draft>
    decreases |text|
  {
    if text == "" then Some(d)
    else if Find(text, '\n') == |text| then None
    else
      match ParseLine(d, text[..Find(text, '\n')])
      case None => None
      case Some(next) => ParseLines(next, text[Find(text, '\n') + 1..])
  }

  /** The request that a body asks for, if it is well formed: each of the four lines once, in any order. */
  function ParseConfirm(text: string): Option<ConfirmRequest> {
    if text == "" || text[|text| - 1] != '\n' then None
    else
      match ParseLines(BLANK, text)
      case Some(Draft(true, Some(slot), Some(hash), Some(trialId))) => Some(ConfirmRequest(slot, hash, trialId))
      case _ => None
  }

  predicate Plain(s: seq<u8>) { forall i :: 0 <= i < |s| ==> s[i] == 10 || 32 <= s[i] <= 126 }

  class Parser {
    const bytes: array<u8>
    var used: nat
    var failed: bool
    var finished: bool

    ghost predicate Valid()
      reads this
    {
      bytes.Length == CONFIRM_CAPACITY && used <= CONFIRM_CAPACITY
    }

    /** What has been fed. */
    ghost function Fed(): (s: seq<u8>)
      requires Valid()
      reads this, bytes
    {
      bytes[..used]
    }

    constructor ()
      ensures Valid() && Fed() == [] && !failed && !finished && fresh(bytes)
    {
      bytes := new u8[CONFIRM_CAPACITY](_ => 0);
      used, failed, finished := 0, false, false;
    }

    method Reset()
      requires Valid()
      modifies this
      ensures Valid() && Fed() == [] && !failed && !finished
    {
      used, failed, finished := 0, false, false;
    }

    /** A span is taken whole or not at all, so that it does not matter how the body is split. */
    method Feed(span: seq<u8>) returns (ok: bool)
      requires Valid()
      modifies this`used, this`failed, bytes
      ensures Valid()
      ensures ok <==> !old(failed) && !finished && |old(Fed())| + |span| <= CONFIRM_CAPACITY && Plain(span)
      ensures Fed() == if ok then old(Fed()) + span else old(Fed())
      ensures failed == (old(failed) || (!ok && !finished))
    {
      if failed || finished { return false; }
      if |span| > CONFIRM_CAPACITY - used {
        failed := true;
        return false;
      }
      for i := 0 to |span|
        invariant Plain(span[..i]) && !failed
      {
        if span[i] != 10 && (span[i] < 32 || span[i] > 126) {
          assert !Plain(span);
          failed := true;
          return false;
        }
        assert span[..i + 1] == span[..i] + [span[i]];
      }
      assert span[..|span|] == span;
      ghost var before := bytes[..used];
      forall i | 0 <= i < |span| {
        bytes[used + i] := span[i];
      }
      assert bytes[..used + |span|] == before + span;
      used := used + |span|;
      return true;
    }

    /** The line loop; a parser is finished once, whatever comes out. */
    method Finish() returns (request: Option<ConfirmRequest>)
      requires Valid()
      modifies this`finished
      ensures Valid() && Fed() == old(Fed())
      ensures finished == (old(finished) || !failed)
      ensures request == if failed || old(finished) then None else ParseConfirm(Chars(Fed()))
    {
      if failed || finished { return None; }
      finished := true;
      if used == 0 || bytes[used - 1] != 10 { return None; }
      var text := Chars(bytes[..used]);
      var rest := text;
      var draft := BLANK;
      while rest != ""
        invariant ParseLines(draft, rest) == ParseLines(BLANK, text)
        decreases |rest|
      {
        var end := Find(rest, '\n');
        if end == |rest| { return None; }
        var next := ParseLine(draft, rest[..end]);
        if next.None? { return None; }
        draft, rest := next.value, rest[end + 1..];
      }
      match draft {
        case Draft(true, Some(slot), Some(hash), Some(trialId)) => return Some(ConfirmRequest(slot, hash, trialId));
        case _ => return None;
      }
    }
  }

  // ---- the client's body ----

  function SlotName(slot: u32): string { if slot == SLOT_A then "A" else "B" }

  /** The body that the client sends. */
  function Body(r: ConfirmRequest): string {
    "format=1\n" + ("slot=" + SlotName(r.slot) + "\n") + ("hash=" + HexText(r.hash) + "\n")
    + ("trial_id=" + Digits(r.trialId) + "\n")
  }

  lemma OneLine(d: Draft, key: string, value: string, rest: string)
    requires Without(key, '=') && Without(key, '\n') && Without(value, '\n')
    ensures ParseLines(d, key + "=" + value + "\n" + rest) ==
      match ParseField(d, key, value) { case None => None case Some(next) => ParseLines(next, rest) }
  {
    var line := key + "=" + value;
    assert Without(line, '\n');
    FindAfter(line, '\n', rest);
    assert key + "=" + value + "\n" + rest == line + ['\n'] + rest;
    FindAfter(key, '=', value);
    assert line == key + ['='] + value;
  }

  lemma NoNewline(h: seq<u8>, n: nat)
    ensures Without(HexText(h), '\n') && Without(Digits(n), '\n')
  {
    HexRoundTrip(h);
  }

  lemma FormatLine(rest: string)
    ensures ParseLines(BLANK, "format=1\n" + rest) == ParseLines(BLANK.(format := true), rest)
  {
    assert "format" + "=" + "1" + "\n" == "format=1\n";
    assert "1"[..0] == "";
    assert DecimalValue("1") == 1;
    OneLine(BLANK, "format", "1", rest);
  }

  lemma SlotLine(slot: u32, rest: string)
    requires SlotValid(slot)
    ensures ParseLines(BLANK.(format := true), "slot=" + SlotName(slot) + "\n" + rest)
         == ParseLines(Draft(true, Some(slot), None, None), rest)
  {
    assert "slot" + "=" == "slot=";
    OneLine(BLANK.(format := true), "slot", SlotName(slot), rest);
  }

  lemma HashLine(slot: u32, hash: Hash, rest: string)
    ensures ParseLines(Draft(true, Some(slot), None, None), "hash=" + HexText(hash) + "\n" + rest)
         == ParseLines(Draft(true, Some(slot), Some(hash), None), rest)
  {
    assert "hash" + "=" == "hash=";
    NoNewline(hash, 0);
    HexRoundTrip(hash);
    OneLine(Draft(true, Some(slot), None, None), "hash", HexText(hash), rest);
  }

  lemma TrialLine(d: Draft, trialId: u32)
    requires d.trialId.None?
    ensures ParseLines(d, "trial_id=" + Digits(trialId) + "\n") == Some(d.(trialId := Some(trialId)))
  {
    assert "trial_id" + "=" == "trial_id=";
    NoNewline([], trialId);
    ValueOfDigits(trialId);
    OneLine(d, "trial_id", Digits(trialId), "");
    assert "trial_id=" + Digits(trialId) + "\n" + "" == "trial_id=" + Digits(trialId) + "\n";
  }

  /** The text, line by line. */
  lemma BodyParses(r: ConfirmRequest)
    requires SlotValid(r.slot)
    ensures ParseLines(BLANK, Body(r)) == Some(Draft(true, Some(r.slot), Some(r.hash), Some(r.trialId)))
  {
    var last := "trial_id=" + Digits(r.trialId) + "\n";
    var third := "hash=" + HexText(r.hash) + "\n" + last;
    var second := "slot=" + SlotName(r.slot) + "\n" + third;
    assert Body(r) == "format=1\n" + second;
    FormatLine(second);
    SlotLine(r.slot, third);
    HashLine(r.slot, r.hash, last);
    TrialLine(Draft(true, Some(r.slot), Some(r.hash), None), r.trialId);
  }

  /** Every request that the client can send fits the device's buffer and is read back as sent. */
  lemma ConfirmRoundTrip(r: ConfirmRequest, body: seq<u8>)
    requires SlotValid(r.slot) && Chars(body) == Body(r)
    ensures |body| <= CONFIRM_CAPACITY && Plain(body)
    ensures ParseConfirm(Chars(body)) == Some(r)
  {
    BodyParses(r);
    FewDigits(r.trialId, 10);
    BodyPlain(r);
    forall i | 0 <= i < |body| ensures body[i] == 10 || 32 <= body[i] <= 126 {
      assert Chars(body)[i] == Body(r)[i];
    }
  }

  predicate PlainText(s: string) { forall i :: 0 <= i < |s| ==> s[i] == '\n' || ' ' <= s[i] <= '~' }

  lemma PlainJoin(s: string, t: string)
    requires PlainText(s) && PlainText(t)
    ensures PlainText(s + t)
  {}

  lemma BodyPlain(r: ConfirmRequest)
    ensures PlainText(Body(r))
  {
    HexRoundTrip(r.hash);
    forall i | 0 <= i < |HexText(r.hash)| ensures ' ' <= HexText(r.hash)[i] <= '~' {
      assert Nibble(HexText(r.hash)[i]).Some?;
    }
    PlainJoin("slot=", SlotName(r.slot));
    PlainJoin("hash=", HexText(r.hash));
    PlainJoin("trial_id=", Digits(r.trialId));
  }

  // ---- what is refused ----

  datatype Field = FORMAT_LINE | SLOT_LINE | HASH_LINE | TRIAL_LINE

  function FieldOf(key: string): Option<Field> {
    if key == "format" then Some(FORMAT_LINE) else if key == "slot" then Some(SLOT_LINE)
    else if key == "hash" then Some(HASH_LINE) else if key == "trial_id" then Some(TRIAL_LINE) else None
  }

  predicate Has(d: Draft, f: Field) {
    match f
    case FORMAT_LINE => d.format
    case SLOT_LINE => d.slot.Some?
    case HASH_LINE => d.hash.Some?
    case TRIAL_LINE => d.trialId.Some?
  }

  /** The value is the text of the field. */
  predicate Fits(d: Draft, f: Field, value: string) {
    Has(d, f) &&
    match f
    case FORMAT_LINE => ParseDecimal(value) == Some(1)
    case SLOT_LINE => SlotValid(d.slot.value) && value == SlotName(d.slot.value)
    case HASH_LINE => value == HexText(d.hash.value)
    case TRIAL_LINE => ParseDecimal(value) == d.trialId
  }

  /** What one draft has, the other has too. */
  predicate Carries(d: Draft, e: Draft) {
    && (d.format ==> e.format) && (d.slot.Some? ==> e.slot == d.slot)
    && (d.hash.Some? ==> e.hash == d.hash) && (d.trialId.Some? ==> e.trialId == d.trialId)
  }

  function Filled(d: Draft): nat {
    (if Has(d, FORMAT_LINE) then 1 else 0) + (if Has(d, SLOT_LINE) then 1 else 0)
    + (if Has(d, HASH_LINE) then 1 else 0) + (if Has(d, TRIAL_LINE) then 1 else 0)
  }

  lemma FieldFilled(d: Draft, key: string, value: string)
    requires ParseField(d, key, value).Some?
    ensures var next := ParseField(d, key, value).value;
      && FieldOf(key).Some? && !Has(d, FieldOf(key).value) && Fits(next, FieldOf(key).value, value)
      && Carries(d, next) && Filled(next) == Filled(d) + 1
  {
    if key == "hash" { HexCanonical(value); }
  }

  /** A line as key and value. */
  datatype Pair = Pair(key: string, value: string)

  function LinesOf(entries: seq<Pair>): string {
    if entries == [] then "" else entries[0].key + "=" + entries[0].value + "\n" + LinesOf(entries[1..])
  }

  /** Each line is of a field that the first draft lacks, no two of the same, and says what the second draft has. */
  predicate Explains(entries: seq<Pair>, d: Draft, e: Draft) {
    && (forall i {:trigger entries[i]} :: 0 <= i < |entries| ==>
          var f := FieldOf(entries[i].key);
          f.Some? && !Has(d, f.value) && Fits(e, f.value, entries[i].value))
    && (forall i, j {:trigger entries[i], entries[j]} :: 0 <= i < j < |entries| ==>
          FieldOf(entries[i].key) != FieldOf(entries[j].key))
  }

  lemma FitsCarried(d: Draft, e: Draft, f: Field, value: string)
    requires Fits(d, f, value) && Carries(d, e)
    ensures Fits(e, f, value)
  {}

  lemma HadCarried(d: Draft, e: Draft, f: Field)
    requires Has(d, f) && Carries(d, e)
    ensures Has(e, f)
  {}

  lemma LineSplit(text: string) returns (entry: Pair, rest: string)
    requires text != "" && Find(text, '\n') < |text| && Find(text[..Find(text, '\n')], '=') < Find(text, '\n')
    ensures var line := text[..Find(text, '\n')];
      && entry == Pair(line[..Find(line, '=')], line[Find(line, '=') + 1..]) && rest == text[Find(text, '\n') + 1..]
      && text == entry.key + "=" + entry.value + "\n" + rest
  {
    var end := Find(text, '\n');
    var line := text[..end];
    var at := Find(line, '=');
    entry, rest := Pair(line[..at], line[at + 1..]), text[end + 1..];
    assert line == entry.key + "=" + entry.value;
    assert text == line + "\n" + rest;
  }

  lemma {:induction false} LinesExplained(d: Draft, text: string) returns (entries: seq<Pair>)
    requires ParseLines(d, text).Some?
    ensures var e := ParseLines(d, text).value;
      && text == LinesOf(entries) && Explains(entries, d, e) && Carries(d, e) && Filled(e) == Filled(d) + |entries|
    decreases |text|
  {
    if text == "" { return []; }
    var line := text[..Find(text, '\n')];
    var first, rest := LineSplit(text);
    var next := ParseLine(d, line).value;
    FieldFilled(d, first.key, first.value);
    var later := LinesExplained(next, rest);
    entries := [first] + later;
    Prepended(first, later, d, next, ParseLines(d, text).value);
  }

  lemma Prepended(first: Pair, later: seq<Pair>, d: Draft, next: Draft, e: Draft)
    requires FieldOf(first.key).Some? && !Has(d, FieldOf(first.key).value)
    requires Fits(next, FieldOf(first.key).value, first.value)
    requires Carries(d, next) && Carries(next, e) && Explains(later, next, e)
    ensures Explains([first] + later, d, e) && Carries(d, e) && LinesOf([first] + later) ==
            first.key + "=" + first.value + "\n" + LinesOf(later)
  {
    var entries := [first] + later;
    assert entries[1..] == later;
    FitsCarried(next, e, FieldOf(first.key).value, first.value);
    forall i {:trigger entries[i]} | 0 <= i < |entries|
      ensures var f := FieldOf(entries[i].key); f.Some? && !Has(d, f.value) && Fits(e, f.value, entries[i].value)
    {
      if i != 0 {
        assert entries[i] == later[i - 1];
        var f := FieldOf(later[i - 1].key).value;
        if Has(d, f) { HadCarried(d, next, f); }
      }
    }
    forall i, j {:trigger entries[i], entries[j]} | 0 <= i < j < |entries|
      ensures FieldOf(entries[i].key) != FieldOf(entries[j].key)
    {
      assert entries[j] == later[j - 1];
      if i != 0 { assert entries[i] == later[i - 1]; }
    }
  }

  /** Nothing else is taken for a request: the text is four lines, one for each field, in some order, and each says what
      the request says. */
  lemma RequestIsExplained(text: string) returns (entries: seq<Pair>)
    requires ParseConfirm(text).Some?
    ensures var r := ParseConfirm(text).value;
      && |entries| == 4 && text == LinesOf(entries) && SlotValid(r.slot)
      && Explains(entries, BLANK, Draft(true, Some(r.slot), Some(r.hash), Some(r.trialId)))
  {
    entries := LinesExplained(BLANK, text);
    var r := ParseConfirm(text).value;
    var e := Draft(true, Some(r.slot), Some(r.hash), Some(r.trialId));
    assert ParseLines(BLANK, text) == Some(e) && Filled(e) == 4 && Filled(BLANK) == 0;
    SlotSeen(BLANK, text);
  }

  /** Only the two slots have names. */
  lemma {:induction false} SlotSeen(d: Draft, text: string)
    requires ParseLines(d, text).Some? && (d.slot.Some? ==> SlotValid(d.slot.value))
    ensures var e := ParseLines(d, text).value; e.slot.Some? ==> SlotValid(e.slot.value)
    decreases |text|
  {
    if text != "" { SlotSeen(ParseLine(d, text[..Find(text, '\n')]).value, text[Find(text, '\n') + 1..]); }
  }
}
