/** The status text: what the device renders, what the client accepts, and that they mean the same. */
module Status {
  import opened Bytes
  import opened Format
  import opened Store
  import opened Lifecycle
  import opened Text
  import opened Diag

  const STATUS_CAPACITY: nat := 1024
  const KEYS: nat := 21

  /** One capture: the diagnostic record with its context, the durable record, and the image that is running. */
  datatype Captured = Captured(diagnostic: Record, context: Context, metadata: Snapshot, running: VerifiedImage)

  // ---- keys ----

  // The names stay behind a descent that the verifier does not follow (see KeyOpen).
  function Key(i: nat): string { KeyBehind(i, 2 + i) }

  function KeyBehind(i: nat, depth: nat): string {
    if depth != 0 then KeyBehind(i, depth - 1)
    else if i < 10 then EarlyKey(i)
    else if i < 16 then SlotKey(i)
    else LateKey(i)
  }

  lemma {:induction false} KeyOpen(i: nat, depth: nat)
    ensures KeyBehind(i, depth) == if i < 10 then EarlyKey(i) else if i < 16 then SlotKey(i) else LateKey(i)
  {
    if depth != 0 { KeyOpen(i, depth - 1); }
  }

  function EarlyKey(i: nat): string {
    match i
    case 0 => "format"
    case 1 => "sequence"
    case 2 => "running_slot"
    case 3 => "hash"
    case 4 => "release"
    case 5 => "confirmed_slot"
    case 6 => "candidate_slot"
    case 7 => "permitted_slot"
    case 8 => "trial_id"
    case _ => "trial_state"
  }

  function SlotKey(i: nat): string {
    match i
    case 10 => "slot_a_failures"
    case 11 => "slot_a_reasons"
    case 12 => "slot_a_rollback"
    case 13 => "slot_b_failures"
    case 14 => "slot_b_reasons"
    case _ => "slot_b_rollback"
  }

  function LateKey(i: nat): string {
    match i
    case 16 => "health"
    case 17 => "stage"
    case 18 => "fault"
    case 19 => "detail"
    case _ => "reset_flags"
  }

  predicate Bare(s: string) { Without(s, '=') && Without(s, '\n') }

  lemma KeyIsBare(i: nat)
    ensures Bare(Key(i)) && |Key(i)| <= 15
  {
    KeyOpen(i, 2 + i);
    EarlyKeyIsBare(i);
    SlotKeyIsBare(i);
    LateKeyIsBare(i);
  }

  lemma EarlyKeyIsBare(i: nat)
    ensures Bare(EarlyKey(i)) && |EarlyKey(i)| <= 15
  {}

  lemma SlotKeyIsBare(i: nat)
    ensures Bare(SlotKey(i)) && |SlotKey(i)| <= 15
  {}

  lemma LateKeyIsBare(i: nat)
    ensures Bare(LateKey(i)) && |LateKey(i)| <= 15
  {}

  // ---- the text ----

  function Row(key: string, value: string): string { key + "=" + value }

  function Rows(values: seq<string>): (rows: seq<string>)
    requires |values| == KEYS
    ensures |rows| == KEYS
  {
    seq(KEYS, i requires 0 <= i < KEYS => Row(Key(i), values[i]))
  }

  /** One row for each key, in order, each ended by a newline. */
  function StatusText(values: seq<string>): string
    requires |values| == KEYS
  {
    Join(Rows(values), '\n') + "\n"
  }

  lemma RowReads(key: string, value: string)
    requires Bare(key) && Bare(value)
    ensures Without(Row(key, value), '\n') && Split(Row(key, value), '=') == [key, value]
  {
    assert Row(key, value) == key + ['='] + value;
    SplitFirst(key, '=', value);
    SplitNothing(value, '=');
  }

  // ---- the client's parser ----

  predicate Reason(s: string) { s in ["watchdog", "external", "brownout", "network_deadline", "combined"] }

  function Limit(i: nat): nat {
    if i == 10 || i == 13 then 3
    else if i == 12 || i == 15 then 1
    else if i == 17 || i == 18 then 5
    else if i == 19 then 20
    else UINT32_MAX
  }

  predicate ReasonsValid(v: string) { |Split(v, ',')| <= 3 && AllReasons(Split(v, ',')) }

  predicate AllReasons(words: seq<string>) { forall k :: 0 <= k < |words| ==> Reason(words[k]) }

  predicate ValueMeaning(i: nat, v: string) {
    if i == 0 then v == "1"
    else if v == "none" then true
    else if i == 2 || 5 <= i <= 7 then v == "A" || v == "B"
    else if i == 3 then |v| == 64 && HexString(v)
    else if i == 16 then |v| == 8 && HexString(v) && HexValue(v) <= 7
    else if i == 20 then |v| == 8 && HexString(v)
    else if i == 9 then v == "ready" || v == "trial" || v == "rejected"
    else if i == 11 || i == 14 then ReasonsValid(v)
    else Numeric(v) && DecimalValue(v) <= Limit(i)
  }

  /** The same, behind a descent that the verifier does not follow (see ValueOpen). */
  predicate ValueValid(i: nat, v: string) { ValueBehind(i, v, 2 + |v|) == Yes }

  function ValueBehind(i: nat, v: string, depth: nat): Verdict {
    if depth != 0 then ValueBehind(i, v, depth - 1) else if ValueMeaning(i, v) then Yes else No
  }

  lemma ValueOpen(i: nat, v: string)
    ensures ValueValid(i, v) == ValueMeaning(i, v)
  {
    ValueDescent(i, v, 2 + |v|);
  }

  lemma {:induction false} ValueDescent(i: nat, v: string, depth: nat)
    ensures ValueBehind(i, v, depth) == Yes <==> ValueMeaning(i, v)
  {
    if depth != 0 { ValueDescent(i, v, depth - 1); }
  }

  predicate RowGood(line: string, i: nat) { |Split(line, '=')| == 2 && Split(line, '=')[0] == Key(i) }

  function RowValue(line: string): string { if |Split(line, '=')| == 2 then Split(line, '=')[1] else "" }

  /** status(): the values in the order of the keys, or a refusal. */
  function ParseStatus(body: string): Option<seq<string>> {
    if |body| > STATUS_CAPACITY || body == "" || body[|body| - 1] != '\n' then None
    else ParseRows(Split(body[..|body| - 1], '\n'))
  }

  function ParseRows(lines: seq<string>): Option<seq<string>> {
    if |lines| == KEYS && (forall i :: 0 <= i < KEYS ==> RowGood(lines[i], i) && ValueValid(i, RowValue(lines[i])))
    then Some(seq(KEYS, i requires 0 <= i < |lines| => RowValue(lines[i])))
    else None
  }

  /** Whatever values are rendered come back, if they are bare, valid and short. */
  lemma StatusReads(values: seq<string>)
    requires |values| == KEYS && |StatusText(values)| <= STATUS_CAPACITY
    requires forall i :: 0 <= i < KEYS ==> Bare(values[i]) && ValueValid(i, values[i])
    ensures ParseStatus(StatusText(values)) == Some(values)
  {
    var rows, text := Rows(values), StatusText(values);
    forall i | 0 <= i < KEYS
      ensures Without(rows[i], '\n') && RowGood(rows[i], i) && RowValue(rows[i]) == values[i]
    {
      KeyIsBare(i);
      RowReads(Key(i), values[i]);
    }
    SplitJoin(rows, '\n');
    assert text[..|text| - 1] == Join(rows, '\n');
    RowsParse(rows, values);
  }

  /** The client takes no other text for these values: what it accepts is what the device would render of them. */
  lemma StatusIsText(body: string)
    requires ParseStatus(body).Some?
    ensures |ParseStatus(body).value| == KEYS && body == StatusText(ParseStatus(body).value)
  {
    var lines, values := Split(body[..|body| - 1], '\n'), ParseStatus(body).value;
    JoinSplit(body[..|body| - 1], '\n');
    RowsAreLines(lines, values);
    assert body == body[..|body| - 1] + "\n";
  }

  lemma RowsAreLines(lines: seq<string>, values: seq<string>)
    requires ParseRows(lines) == Some(values)
    ensures |values| == KEYS && lines == Rows(values)
  {
    forall i | 0 <= i < KEYS ensures lines[i] == Rows(values)[i] {
      assert RowGood(lines[i], i) && values[i] == RowValue(lines[i]);
      RowIsPair(lines[i]);
    }
  }

  lemma RowIsPair(line: string)
    requires |Split(line, '=')| == 2
    ensures line == Row(Split(line, '=')[0], Split(line, '=')[1])
  {
    JoinSplit(line, '=');
    var parts := Split(line, '=');
    assert parts == [parts[0], parts[1]] && parts[1..] == [parts[1]];
  }

  lemma RowsParse(rows: seq<string>, values: seq<string>)
    requires |rows| == KEYS == |values|
    requires forall i :: 0 <= i < KEYS ==> RowGood(rows[i], i) && RowValue(rows[i]) == values[i] && ValueValid(i, values[i])
    ensures ParseRows(rows) == Some(values)
  {
    assert seq(KEYS, i requires 0 <= i < |rows| => RowValue(rows[i])) == values;
  }

  // ---- what the device renders ----

  function SlotText(slot: u32): string { if slot == SLOT_A then "A" else if slot == SLOT_B then "B" else "none" }

  function ReasonText(r: Bits3): string {
    if r == 1 then "watchdog" else if r == 2 then "external" else if r == 3 then "brownout"
    else if r == 4 then "network_deadline" else if r == 5 then "combined" else "none"
  }

  function ReasonList(a: Accounting): seq<Bits3> {
    if a.count == 0 then [] else if a.count == 1 then [a.reason1] else if a.count == 2 then [a.reason1, a.reason2]
    else [a.reason1, a.reason2, a.reason3]
  }

  function ReasonWords(rs: seq<Bits3>): (words: seq<string>)
    ensures |words| == |rs|
  {
    seq(|rs|, i requires 0 <= i < |rs| => ReasonText(rs[i]))
  }

  function ReasonsText(a: Accounting): string {
    if a.count == 0 then "none" else Join(ReasonWords(ReasonList(a)), ',')
  }

  function StateText(state: Bits2): string {
    if state == STATE_READY then "ready" else if state == STATE_TRIAL then "trial"
    else if state == STATE_REJECTED then "rejected" else "none"
  }

  /** The slot whose trial is reported: the candidate's, or that of the running image. */
  function SourceSlot(s: Captured): u32 {
    if s.metadata.record.candidate != SLOT_NONE then s.metadata.record.candidate else s.running.manifest.slot
  }

  /** Where an upload would be admitted. */
  function PermittedSlot(s: Captured): u32 {
    var m := s.metadata.record;
    if m.candidate == SLOT_NONE && m.current == s.running.manifest.slot && m.Confirmed(m.current) then Other(m.current)
    else SLOT_NONE
  }

  predicate Renderable(s: Captured) {
    && Valid(s.metadata.record) && Check(s.diagnostic) == DIAG_OK
    && ManifestValidate(s.running.manifest) == OK && ImageMatches(s.metadata.record, s.running.manifest) == OK
  }

  function Values(s: Captured): (values: seq<string>)
    ensures |values| == KEYS
  {
    HeadTexts(s) + EntryTexts(s.metadata.record.imageA) + EntryTexts(s.metadata.record.imageB) + TailTexts(s)
  }

  function HeadTexts(s: Captured): (t: seq<string>)
    ensures |t| == 10
  {
    var m, running := s.metadata.record, s.running.manifest;
    var source := m.Image(SourceSlot(s));
    ["1", Digits(m.sequence), SlotText(running.slot), HexText(running.hash), Digits(running.release), SlotText(m.current),
     SlotText(m.candidate), SlotText(PermittedSlot(s)), Digits(source.trialId), StateText(source.accounting.state)]
  }

  function TailTexts(s: Captured): (t: seq<string>)
    ensures |t| == 5
  {
    var d := s.diagnostic;
    [if s.context.healthKnown then HexFixed(d.health, 8) else "none",
     if s.context.stageKnown then Digits(d.stage) else "none", Digits(d.fault), Digits(d.detail),
     if s.context.resetFlagsKnown then HexFixed(d.resetFlags, 8) else "none"]
  }

  function EntryTexts(e: Entry): (t: seq<string>)
    ensures |t| == 3
  {
    if e.length == 0 then ["none", "none", "none"]
    else [Digits(e.accounting.count), ReasonsText(e.accounting), Digits(if e.accounting.rollback then 1 else 0)]
  }

  /** The text of a capture, behind a descent that the verifier does not follow (see RenderingOpen). */
  function Rendering(s: Captured): string { RenderingBehind(s, 2 + s.metadata.record.sequence) }

  function RenderingBehind(s: Captured, depth: nat): string {
    if depth != 0 then RenderingBehind(s, depth - 1) else StatusText(Values(s))
  }

  lemma {:induction false} RenderingOpen(s: Captured, depth: nat)
    ensures RenderingBehind(s, depth) == StatusText(Values(s))
  {
    if depth != 0 { RenderingOpen(s, depth - 1); }
  }

  /** boot_status_render. */
  function Render(s: Captured, capacity: nat): Option<string> {
    if !Renderable(s) || |Rendering(s)| >= STATUS_CAPACITY || |Rendering(s)| > capacity then None else Some(Rendering(s))
  }

  // ---- every value is acceptable ----

  /** How long a value may be. */
  function Width(i: nat): nat { if i == 3 then 64 else if i == 11 || i == 14 then 50 else 10 }

  predicate Acceptable(i: nat, v: string) { Bare(v) && ValueValid(i, v) && |v| <= Width(i) }

  lemma NumberAcceptable(i: nat, n: nat)
    requires i in {1, 4, 8, 10, 12, 13, 15, 17, 18, 19} && n <= Limit(i)
    ensures Acceptable(i, Digits(n))
  {
    ValueOpen(i, Digits(n));
    ValueOfDigits(n);
    FewDigits(n, 10);
  }

  lemma HexAcceptable(hash: Hash)
    ensures Acceptable(3, HexText(hash))
  {
    ValueOpen(3, HexText(hash));
    HexRoundTrip(hash);
  }

  lemma Hex8Acceptable(n: u32)
    ensures Acceptable(20, HexFixed(n, 8)) && (n <= 7 ==> Acceptable(16, HexFixed(n, 8)))
    ensures HexString(HexFixed(n, 8)) && HexValue(HexFixed(n, 8)) == n
  {
    assert Power16(4) == 0x1_0000;
    assert Power16(8) == 0x1_0000 * Power16(4);
    HexFixedValue(n, 8);
    ValueOpen(16, HexFixed(n, 8));
    ValueOpen(20, HexFixed(n, 8));
  }

  /** Words with a fixed spelling. */
  lemma WordAcceptable(i: nat, v: string)
    requires v == "none" || (i == 0 && v == "1") || (v in ["A", "B"] && (i == 2 || 5 <= i <= 7))
          || (v in ["ready", "trial", "rejected"] && i == 9)
    requires i == 0 ==> v == "1"
    ensures Acceptable(i, v)
  {
    ValueOpen(i, v);
  }

  lemma ReasonAcceptable(r: Bits3)
    requires 1 <= r <= 5
    ensures Reason(ReasonText(r)) && Without(ReasonText(r), ',') && Bare(ReasonText(r)) && |ReasonText(r)| <= 16
    ensures ReasonText(r) != "none"
  {}

  lemma ReasonsAcceptable(i: nat, a: Accounting)
    requires (i == 11 || i == 14) && HistoryWellFormed(a)
    ensures Acceptable(i, ReasonsText(a))
  {
    Reasons(a);
    if a.count == 0 {
      WordAcceptable(i, "none");
    } else {
      WordsAcceptable(i, ReasonList(a));
    }
  }

  lemma WordsAcceptable(i: nat, rs: seq<Bits3>)
    requires (i == 11 || i == 14) && 0 < |rs| <= 3 && forall k :: 0 <= k < |rs| ==> 1 <= rs[k] <= 5
    ensures Acceptable(i, Join(ReasonWords(rs), ','))
  {
    var words := ReasonWords(rs);
    forall k | 0 <= k < |rs| ensures Reason(words[k]) && ReasonShape(words[k]) { ReasonAcceptable(rs[k]); }
    JoinedReasons(words);
    ReasonsValue(i, Join(words, ','));
  }

  predicate ReasonShape(w: string) { Without(w, ',') && Without(w, '=') && Without(w, '\n') && |w| <= 16 }

  lemma JoinedReasons(words: seq<string>)
    requires 0 < |words| <= 3 && AllReasons(words) && forall k :: 0 <= k < |words| ==> ReasonShape(words[k])
    ensures ReasonsValid(Join(words, ',')) && Bare(Join(words, ',')) && |Join(words, ',')| <= 50
  {
    SplitJoin(words, ',');
    JoinWithout(words, ',', '=');
    JoinWithout(words, ',', '\n');
    JoinLength(words, ',', 16);
  }

  lemma ReasonsValue(i: nat, v: string)
    requires (i == 11 || i == 14) && ReasonsValid(v)
    ensures ValueValid(i, v)
  {
    ValueOpen(i, v);
  }

  lemma EntryAcceptable(i: nat, e: Entry)
    requires (i == 10 || i == 13) && EntryValidate(e) == OK
    ensures Acceptable(i, EntryTexts(e)[0]) && Acceptable(i + 1, EntryTexts(e)[1]) && Acceptable(i + 2, EntryTexts(e)[2])
  {
    EntryValidMeaning(e);
    if e.length == 0 {
      WordAcceptable(i, "none");
      WordAcceptable(i + 1, "none");
      WordAcceptable(i + 2, "none");
    } else {
      LifeAcceptable(i, e.accounting);
    }
  }

  lemma LifeAcceptable(i: nat, a: Accounting)
    requires (i == 10 || i == 13) && HistoryWellFormed(a)
    ensures Acceptable(i, Digits(a.count)) && Acceptable(i + 1, ReasonsText(a))
    ensures Acceptable(i + 2, Digits(if a.rollback then 1 else 0))
  {
    NumberAcceptable(i, a.count);
    ReasonsAcceptable(i + 1, a);
    NumberAcceptable(i + 2, if a.rollback then 1 else 0);
  }

  lemma HeadAcceptable(s: Captured)
    requires Renderable(s)
    ensures forall i :: 0 <= i < 10 ==> Acceptable(i, HeadTexts(s)[i])
  {
    var m, running := s.metadata.record, s.running.manifest;
    WordAcceptable(0, "1");
    NumberAcceptable(1, m.sequence);
    WordAcceptable(2, SlotText(running.slot));
    HexAcceptable(running.hash);
    NumberAcceptable(4, running.release);
    WordAcceptable(5, SlotText(m.current));
    WordAcceptable(6, SlotText(m.candidate));
    WordAcceptable(7, SlotText(PermittedSlot(s)));
    NumberAcceptable(8, m.Image(SourceSlot(s)).trialId);
    WordAcceptable(9, StateText(m.Image(SourceSlot(s)).accounting.state));
  }

  lemma TailAcceptable(s: Captured)
    requires Renderable(s)
    ensures forall i :: 0 <= i < 5 ==> Acceptable(16 + i, TailTexts(s)[i])
  {
    var d := s.diagnostic;
    Hex8Acceptable(d.health);
    Hex8Acceptable(d.resetFlags);
    NumberAcceptable(17, d.stage);
    NumberAcceptable(18, d.fault);
    NumberAcceptable(19, d.detail);
    WordAcceptable(16, "none");
    WordAcceptable(17, "none");
    WordAcceptable(20, "none");
  }

  lemma ValuesAcceptable(s: Captured)
    requires Renderable(s)
    ensures forall i :: 0 <= i < KEYS ==> Acceptable(i, Values(s)[i])
  {
    HeadAcceptable(s);
    TailAcceptable(s);
    EntryAcceptable(10, s.metadata.record.imageA);
    EntryAcceptable(13, s.metadata.record.imageB);
    ValuesByPart(s);
    forall i | 0 <= i < KEYS ensures Acceptable(i, Values(s)[i]) {
      if i == 10 || i == 11 || i == 12 { assert Acceptable(i, EntryTexts(s.metadata.record.imageA)[i - 10]); }
      else if i == 13 || i == 14 || i == 15 { assert Acceptable(i, EntryTexts(s.metadata.record.imageB)[i - 13]); }
      else if 16 <= i { assert Acceptable(16 + (i - 16), TailTexts(s)[i - 16]); }
    }
  }

  function Part(s: Captured, i: nat): string
    requires i < KEYS
  {
    if i < 10 then HeadTexts(s)[i]
    else if i < 13 then EntryTexts(s.metadata.record.imageA)[i - 10]
    else if i < 16 then EntryTexts(s.metadata.record.imageB)[i - 13]
    else TailTexts(s)[i - 16]
  }

  lemma ValuesByPart(s: Captured)
    ensures forall i :: 0 <= i < KEYS ==> Values(s)[i] == Part(s, i)
  {}

  /** Three values may be wider than the rest. */
  function Wide(i: nat): nat { (if i <= 3 then 54 else 0) + (if i <= 11 then 40 else 0) + (if i <= 14 then 40 else 0) }

  lemma {:induction false} RowsAreShort(rows: seq<string>, i: nat)
    requires |rows| + i == KEYS && forall k :: 0 <= k < |rows| ==> |rows[k]| <= 16 + Width(i + k)
    ensures |Join(rows, '\n')| <= 27 * |rows| + Wide(i)
  {
    if |rows| > 1 {
      forall k | 0 <= k < |rows[1..]| ensures |rows[1..][k]| <= 16 + Width(i + 1 + k) {
        assert |rows[k + 1]| <= 16 + Width(i + (k + 1));
      }
      RowsAreShort(rows[1..], i + 1);
    }
  }

  lemma TextIsShort(values: seq<string>)
    requires |values| == KEYS && forall k :: 0 <= k < KEYS ==> |values[k]| <= Width(k)
    ensures |StatusText(values)| <= 702
  {
    var rows := Rows(values);
    forall k | 0 <= k < KEYS ensures |rows[k]| <= 16 + Width(0 + k) { KeyIsBare(k); }
    RowsAreShort(rows, 0);
  }

  /** Every capture that is consistent is rendered, fits its buffer, and is accepted by the client as rendered. */
  lemma StatusRoundTrip(s: Captured, capacity: nat)
    requires Renderable(s) && capacity >= STATUS_CAPACITY
    ensures Render(s, capacity).Some? && ParseStatus(Render(s, capacity).value) == Some(Values(s))
  {
    RenderingOpen(s, 2 + s.metadata.record.sequence);
    ValuesAcceptable(s);
    TextIsShort(Values(s));
    StatusReads(Values(s));
  }

  // ---- what the client makes of it ----

  /** The fields that the client reasons about; None where the status says "none". */
  datatype Observed = Observed(
    sequence: Option<nat>, running: Option<u32>, hash: Option<seq<u8>>, release: Option<nat>, confirmed: Option<u32>,
    candidate: Option<u32>, permitted: Option<u32>, trialId: Option<nat>, trialState: Bits2, healthy: bool)

  function ToSlot(v: string): Option<u32> { if v == "A" then Some(SLOT_A) else if v == "B" then Some(SLOT_B) else None }

  function ToNumber(v: string): Option<nat> { if Numeric(v) then Some(DecimalValue(v)) else None }

  function ToState(v: string): Bits2 {
    if v == "ready" then STATE_READY else if v == "trial" then STATE_TRIAL
    else if v == "rejected" then STATE_REJECTED else STATE_NONE
  }

  function Typed(v: seq<string>): Observed
    requires |v| == KEYS
  {
    Observed(ToNumber(v[1]), ToSlot(v[2]), ToHash(v[3]), ToNumber(v[4]), ToSlot(v[5]),
             ToSlot(v[6]), ToSlot(v[7]), ToNumber(v[8]), ToState(v[9]), v[16] == "00000007")
  }

  function RealSlot(slot: u32): Option<u32> { if SlotValid(slot) then Some(slot) else None }

  /** What a capture says, without the detour through text. */
  function Reported(s: Captured): Observed {
    var m, running := s.metadata.record, s.running.manifest;
    var source := m.Image(SourceSlot(s));
    Observed(Some(m.sequence), RealSlot(running.slot), Some(running.hash), Some(running.release), RealSlot(m.current),
             RealSlot(m.candidate), RealSlot(PermittedSlot(s)), Some(source.trialId), source.accounting.state,
             s.context.healthKnown && s.diagnostic.health == HEALTH_REQUIRED)
  }

  lemma HealthText(n: u32)
    requires n <= 7
    ensures HexFixed(n, 8) == "00000007" <==> n == 7
  {
    Hex8Acceptable(n);
    SevenText();
  }

  lemma SevenText()
    ensures HexFixed(7, 8) == "00000007"
  {
    assert HexFixed(0, 1) == "0";
    assert HexFixed(0, 3) == "000";
    assert HexFixed(0, 5) == "00000";
    assert HexFixed(0, 7) == "0000000";
  }

  lemma SlotReads(slot: u32)
    ensures ToSlot(SlotText(slot)) == RealSlot(slot)
  {}

  lemma StateReads(state: Bits2)
    ensures ToState(StateText(state)) == state
  {}

  lemma NumberReads(n: nat)
    ensures ToNumber(Digits(n)) == Some(n)
  {
    ValueOfDigits(n);
  }

  lemma HealthReads(s: Captured)
    requires s.diagnostic.health <= 7
    ensures TailTexts(s)[0] == "00000007" <==> s.context.healthKnown && s.diagnostic.health == HEALTH_REQUIRED
  {
    HealthText(s.diagnostic.health);
  }

  function ToHash(v: string): Option<seq<u8>> { if |v| == 64 then ParseHex(v) else None }

  lemma HashReads(hash: Hash)
    ensures ToHash(HexText(hash)) == Some(hash)
  {
    HexRoundTrip(hash);
  }

  /** The text loses nothing: the client's reading of a status is the report itself. */
  lemma StatusMeans(s: Captured)
    requires Renderable(s)
    ensures Typed(Values(s)) == Reported(s)
  {
    var m, running := s.metadata.record, s.running.manifest;
    NumberReads(m.sequence);
    SlotReads(running.slot);
    HashReads(running.hash);
    NumberReads(running.release);
    SlotReads(m.current);
    SlotReads(m.candidate);
    SlotReads(PermittedSlot(s));
    NumberReads(m.Image(SourceSlot(s)).trialId);
    StateReads(m.Image(SourceSlot(s)).accounting.state);
    HealthReads(s);
    ValuesByPart(s);
  }

  /** From the device to the client, text and all: what is read is what was reported. */
  lemma ReportArrives(s: Captured)
    requires Renderable(s)
    ensures ParseStatus(Rendering(s)).Some? && Typed(ParseStatus(Rendering(s)).value) == Reported(s)
  {
    StatusRoundTrip(s, STATUS_CAPACITY);
    StatusMeans(s);
  }
}
