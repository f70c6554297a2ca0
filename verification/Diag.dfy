/** The diagnostic record: its codec, and its publication word by word in memory that survives a reset. */
module Diag {
  import opened Bytes
  import opened Format
  import opened Codec

  const DIAG_MAGIC: u32 := 0x31444241
  const DIAG_BYTES: nat := 64
  const DIAG_WORDS: nat := 16
  const STAGING: u32 := 0
  const PUBLISHED: u32 := 1

  datatype DiagStatus =
    | DIAG_OK | DIAG_SIZE | DIAG_MAGIC_BAD | DIAG_VERSION | DIAG_LENGTH | DIAG_VALIDITY | DIAG_RESERVED | DIAG_STAGE
    | DIAG_FAULT | DIAG_DETAIL | DIAG_SLOT | DIAG_COUNT | DIAG_HEALTH

  datatype Record = Record(
    stage: u32, fault: u32, detail: u32, resetFlags: u32, runningSlot: u32, selectedSlot: u32, sequence: u32,
    trialId: u32, failures: u32, health: u32, failedSlot: u32)

  /** Which numbers are backed by evidence; never part of the record itself. */
  datatype Context = Context(
    sequenceKnown: bool, trialIdKnown: bool, failuresKnown: bool, stageKnown: bool, resetFlagsKnown: bool,
    healthKnown: bool)

  datatype DiagDecoded = Good(record: Record) | Bad(status: DiagStatus)

  function Check(r: Record): DiagStatus {
    if r.stage > 5 then DIAG_STAGE
    else if r.fault > 5 then DIAG_FAULT
    else if r.detail > 20 then DIAG_DETAIL
    else if !RoleValid(r.runningSlot) || !RoleValid(r.selectedSlot) || !RoleValid(r.failedSlot) then DIAG_SLOT
    else if r.failures > 3 then DIAG_COUNT
    else if r.health > 7 then DIAG_HEALTH
    else DIAG_OK
  }

  function Layout(r: Record, validity: u32): (ws: seq<u32>)
    ensures |ws| == DIAG_WORDS
  {
    [DIAG_MAGIC, 1, DIAG_BYTES, validity, r.stage, r.fault, r.detail, r.resetFlags, r.runningSlot, r.selectedSlot,
     r.sequence, r.trialId, r.failures, r.health, r.failedSlot, 0]
  }

  /** The decoder on words. */
  function DecodeWords(ws: seq<u32>, required: u32): DiagDecoded
    requires |ws| == DIAG_WORDS
  {
    if ws[0] != DIAG_MAGIC then Bad(DIAG_MAGIC_BAD)
    else if ws[1] != 1 then Bad(DIAG_VERSION)
    else if ws[2] as int != DIAG_BYTES then Bad(DIAG_LENGTH)
    else if ws[3] != required then Bad(DIAG_VALIDITY)
    else if ws[15] != 0 then Bad(DIAG_RESERVED)
    else
      var r := Record(ws[4], ws[5], ws[6], ws[7], ws[8], ws[9], ws[10], ws[11], ws[12], ws[13], ws[14]);
      if Check(r) != DIAG_OK then Bad(Check(r)) else Good(r)
  }

  /** boot_diag_decode: the first 64 bytes, whatever follows them. */
  function Decode(wire: seq<u8>, required: u32): DiagDecoded {
    if |wire| < DIAG_BYTES then Bad(DIAG_SIZE)
    else if required > PUBLISHED then Bad(DIAG_VALIDITY)
    else DecodeWords(WordsIn(wire), required)
  }

  function WordsIn(wire: seq<u8>): (ws: seq<u32>)
    requires |wire| >= DIAG_BYTES
    ensures |ws| == DIAG_WORDS
  {
    seq(DIAG_WORDS, i requires 0 <= i < DIAG_WORDS => Get32(wire, 4 * i))
  }

  /** Decoding is exactly being the layout of a good record. */
  lemma DecodesLayout(ws: seq<u32>, required: u32, r: Record)
    requires |ws| == DIAG_WORDS
    ensures DecodeWords(ws, required) == Good(r) <==> ws == Layout(r, required) && Check(r) == DIAG_OK
  {}

  lemma WordsOfLayout(wire: seq<u8>, ws: seq<u32>)
    requires |wire| >= DIAG_BYTES && |ws| == DIAG_WORDS
    ensures WordsIn(wire) == ws <==> wire[..DIAG_BYTES] == Words(ws)
  {
    if wire[..DIAG_BYTES] == Words(ws) {
      forall i | 0 <= i < DIAG_WORDS ensures WordsIn(wire)[i] == ws[i] {
        WordAt(ws, i);
        GetInSlice(wire, 0, DIAG_BYTES, 4 * i);
      }
    }
    if WordsIn(wire) == ws {
      forall i | 0 <= i < DIAG_WORDS ensures ws[i] == Get32(wire[..DIAG_BYTES], 4 * i) {
        assert ws[i] == WordsIn(wire)[i];
        GetInSlice(wire, 0, DIAG_BYTES, 4 * i);
      }
      WordsOf(wire[..DIAG_BYTES], ws);
    }
  }

  /** The codec is canonical: what decodes is the encoding of what it decodes to, and nothing else is. */
  lemma CodecRoundTrip(wire: seq<u8>, required: u32, r: Record)
    requires |wire| >= DIAG_BYTES && required <= PUBLISHED
    ensures Decode(wire, required) == Good(r) <==>
      Check(r) == DIAG_OK && wire[..DIAG_BYTES] == Words(Layout(r, required))
  {
    DecodesLayout(WordsIn(wire), required, r);
    WordsOfLayout(wire, Layout(r, required));
  }

  /** boot_diag_encode, in place; every error leaves the buffer as it was. */
  method Encode(r: Record, validity: u32, wire: array<u8>) returns (status: DiagStatus)
    modifies wire
    ensures status == (if wire.Length < DIAG_BYTES then DIAG_SIZE else if validity > PUBLISHED then DIAG_VALIDITY else Check(r))
    ensures status != DIAG_OK ==> wire[..] == old(wire[..])
    ensures status == DIAG_OK ==> Decode(wire[..], validity) == Good(r) && wire[DIAG_BYTES..] == old(wire[DIAG_BYTES..])
  {
    if wire.Length < DIAG_BYTES { return DIAG_SIZE; }
    if validity > PUBLISHED { return DIAG_VALIDITY; }
    if Check(r) != DIAG_OK { return Check(r); }
    StoreWords(wire, 0, Layout(r, validity));
    assert wire[..][..DIAG_BYTES] == wire[..DIAG_BYTES] == Words(Layout(r, validity));
    CodecRoundTrip(wire[..], validity, r);
    return DIAG_OK;
  }

  // ---- publication ----

  datatype PublicationStatus =
    | PUBLICATION_OK | PUBLICATION_BUSY | PUBLICATION_INVALID | PUBLICATION_UNASSOCIATED | PUBLICATION_READ | UNCERTAIN

  /** A block that a publication may leave behind, wherever it stops: as it was, marked as staging, or complete. */
  predicate Whole(before: seq<u32>, now: seq<u32>, after: seq<u32>) {
    |now| == DIAG_WORDS && (now == before || now[3] == STAGING || now == after)
  }

  /** A reader of the block sees nothing, what was there before, or the new record: never a mixture. */
  predicate Unmixed(before: seq<u32>, now: seq<u32>, r: Record) {
    && |before| == DIAG_WORDS == |now|
    && (DecodeWords(now, PUBLISHED).Good? ==>
          DecodeWords(now, PUBLISHED) == DecodeWords(before, PUBLISHED) || DecodeWords(now, PUBLISHED) == Good(r))
  }

  lemma NeverMixed(before: seq<u32>, now: seq<u32>, r: Record)
    requires |before| == DIAG_WORDS && Check(r) == DIAG_OK && Whole(before, now, Layout(r, PUBLISHED))
    ensures Unmixed(before, now, r)
  {
    DecodesLayout(Layout(r, PUBLISHED), PUBLISHED, r);
  }

  /** What a boot publishes first. */
  function BootRecord(flags: u32): (r: Record)
    ensures Check(r) == DIAG_OK
  {
    Record(0, 0, 0, flags, SLOT_NONE, SLOT_NONE, 0, 0, 0, 0, SLOT_NONE)
  }

  datatype Published = Published(record: Record, context: Context)

  class Publication {
    const words: array<u32>
    var associated: bool
    var busy: bool
    var context: Context
    /** Whether a word access may be reported as failed. */
    const faulty: bool
    /** The last record completed or adopted, with its own context. */
    ghost var last: Published

    ghost predicate Valid()
      reads this, words
    {
      && words.Length == DIAG_WORDS
      && (associated ==> Check(last.record) == DIAG_OK && words[..] == Layout(last.record, PUBLISHED) && context == last.context)
    }

    constructor (words: array<u32>, faulty: bool)
      requires words.Length == DIAG_WORDS
      ensures Valid() && !associated && !busy && this.words == words && this.faulty == faulty
    {
      this.words, this.faulty := words, faulty;
      associated, busy, context := false, false, Context(false, false, false, false, false, false);
      last := Published(Record(0, 0, 0, 0, 0, 0, 0, 0, 0, 0, 0), Context(false, false, false, false, false, false));
    }

    /** One word store: it may be reported as failed, whether or not it took effect. */
    method Store(i: nat, v: u32) returns (ok: bool)
      requires i < words.Length
      modifies words
      ensures words[..] == old(words[..]) || words[..] == old(words[..])[i := v]
      ensures ok ==> words[..] == old(words[..])[i := v]
      ensures !faulty ==> ok
    {
      ok := *;
      if !faulty { ok := true; }
      var done: bool := *;
      if ok || done { words[i] := v; }
    }

    method Fetch(i: nat) returns (ok: bool, v: u32)
      requires i < words.Length
      ensures ok ==> v == words[i]
      ensures !faulty ==> ok
    {
      ok := *;
      if !faulty { ok := true; }
      v := words[i];
    }

    method ReadRecord() returns (status: PublicationStatus, r: Record)
      requires words.Length == DIAG_WORDS
      ensures status in {PUBLICATION_OK, PUBLICATION_READ, PUBLICATION_INVALID}
      ensures status == PUBLICATION_OK ==> DecodeWords(words[..], PUBLISHED) == Good(r)
      ensures status == PUBLICATION_INVALID ==> DecodeWords(words[..], PUBLISHED).Bad?
      ensures !faulty ==> status != PUBLICATION_READ
    {
      var ws: seq<u32> := [];
      r := Record(0, 0, 0, 0, 0, 0, 0, 0, 0, 0, 0);
      for i := 0 to DIAG_WORDS
        invariant ws == words[..i]
      {
        var ok, v := Fetch(i);
        if !ok { return PUBLICATION_READ, r; }
        ws := ws + [v];
      }
      assert ws == words[..];
      match DecodeWords(ws, PUBLISHED) {
        case Good(record) => return PUBLICATION_OK, record;
        case Bad(_) => return PUBLICATION_INVALID, r;
      }
    }

    /** Validity is withdrawn first and given last; a fault anywhere leaves no mixture behind. */
    method Publish(r: Record, c: Context) returns (status: PublicationStatus)
      requires Valid()
      modifies this`associated, this`context, this`last, words
      ensures Valid()
      ensures status in {PUBLICATION_OK, PUBLICATION_INVALID, UNCERTAIN}
      ensures status == PUBLICATION_INVALID <==> Check(r) != DIAG_OK
      ensures status == PUBLICATION_INVALID ==>
        words[..] == old(words[..]) && associated == old(associated) && last == old(last) && context == old(context)
      ensures Check(r) == DIAG_OK ==> Whole(old(words[..]), words[..], Layout(r, PUBLISHED))
      ensures Unmixed(old(words[..]), words[..], r)
      ensures status == PUBLICATION_OK ==> associated && last == Published(r, c)
      ensures status == UNCERTAIN ==> !associated && faulty
    {
      if Check(r) != DIAG_OK { return PUBLICATION_INVALID; }
      status := Rewrite(r, c);
      NeverMixed(old(words[..]), words[..], r);
    }

    method Rewrite(r: Record, c: Context) returns (status: PublicationStatus)
      requires Valid() && Check(r) == DIAG_OK
      modifies this`associated, this`context, this`last, words
      ensures Valid() && status in {PUBLICATION_OK, UNCERTAIN}
      ensures Whole(old(words[..]), words[..], Layout(r, PUBLISHED))
      ensures status == PUBLICATION_OK ==> associated && last == Published(r, c)
      ensures status == UNCERTAIN ==> !associated && faulty
    {
      var candidate := Layout(r, PUBLISHED);
      var ok := Store(3, STAGING);
      associated := false;
      if !ok { return UNCERTAIN; }
      ok := Fill(candidate);
      if !ok { return UNCERTAIN; }
      context := c;
      ok := Store(3, PUBLISHED);
      if !ok { return UNCERTAIN; }
      associated, last := true, Published(r, c);
      return PUBLICATION_OK;
    }

    /** Every word but the validity word. */
    method Fill(candidate: seq<u32>) returns (ok: bool)
      requires words.Length == DIAG_WORDS == |candidate| && words[3] == STAGING
      modifies words
      ensures words[3] == STAGING
      ensures ok ==> words[..] == candidate[3 := STAGING]
      ensures !faulty ==> ok
    {
      ok := true;
      for i := 0 to DIAG_WORDS
        invariant words[3] == STAGING
        invariant forall k :: 0 <= k < i && k != 3 ==> words[k] == candidate[k]
      {
        if i != 3 {
          ghost var before := words[..];
          ok := Store(i, candidate[i]);
          assert words[..] == before || words[..] == before[i := candidate[i]];
          assert words[3] == words[..][3];
          if !ok { return; }
          assert forall k :: 0 <= k < DIAG_WORDS ==> words[k] == words[..][k];
        }
      }
    }

    method Boot(flags: u32) returns (status: PublicationStatus)
      requires Valid()
      modifies this, words
      ensures Valid() && busy == old(busy)
      ensures old(busy) <==> status == PUBLICATION_BUSY
      ensures old(busy) ==> words[..] == old(words[..]) && associated == old(associated)
      ensures status == PUBLICATION_OK ==>
        associated && last.record == BootRecord(flags) && !last.context.sequenceKnown && !last.context.trialIdKnown
      ensures Unmixed(old(words[..]), words[..], BootRecord(flags))
      ensures !faulty && !old(busy) ==> status == PUBLICATION_OK
    {
      if busy { return PUBLICATION_BUSY; }
      busy := true;
      status := Publish(BootRecord(flags), Context(false, false, false, true, true, true));
      busy := false;
    }

    /** What another stage published is taken over only on trust, and only if it is whole. */
    method Adopt(c: Context, trusted: bool) returns (status: PublicationStatus)
      requires Valid()
      modifies this
      ensures Valid() && busy == old(busy)
      ensures status == PUBLICATION_UNASSOCIATED <==> !trusted
      ensures trusted ==> (status == PUBLICATION_BUSY <==> old(busy))
      ensures status == PUBLICATION_OK ==>
        associated && last.context == c && DecodeWords(words[..], PUBLISHED) == Good(last.record)
      ensures status != PUBLICATION_OK ==> associated == old(associated) && last == old(last)
      ensures !faulty && trusted && !old(busy) ==>
        status == if DecodeWords(words[..], PUBLISHED).Good? then PUBLICATION_OK else PUBLICATION_INVALID
    {
      if !trusted { return PUBLICATION_UNASSOCIATED; }
      if busy { return PUBLICATION_BUSY; }
      busy := true;
      var r;
      status, r := ReadRecord();
      if status == PUBLICATION_OK {
        DecodesLayout(words[..], PUBLISHED, r);
        context, associated, last := c, true, Published(r, c);
      }
      busy := false;
    }

    /** Only stage and health change. */
    method Progress(stage: u32, health: u32) returns (status: PublicationStatus)
      requires Valid()
      modifies this, words
      ensures Valid() && busy == old(busy)
      ensures stage > 5 || health > 7 <==> status == PUBLICATION_INVALID
      ensures status == PUBLICATION_BUSY <==> stage <= 5 && health <= 7 && old(busy)
      ensures status == PUBLICATION_UNASSOCIATED <==> stage <= 5 && health <= 7 && !old(busy) && !old(associated)
      ensures status == PUBLICATION_OK ==>
        old(associated) && associated
        && last == Published(old(last).record.(stage := stage, health := health), old(last).context)
      ensures Unmixed(old(words[..]), words[..], old(last).record.(stage := stage, health := health))
      ensures status !in {PUBLICATION_OK, UNCERTAIN} ==>
        words[..] == old(words[..]) && associated == old(associated) && last == old(last)
      ensures !faulty && stage <= 5 && health <= 7 && !old(busy) && old(associated) ==> status == PUBLICATION_OK
    {
      if stage > 5 || health > 7 { return PUBLICATION_INVALID; }
      if busy { return PUBLICATION_BUSY; }
      if !associated { return PUBLICATION_UNASSOCIATED; }
      busy := true;
      var r;
      DecodesLayout(words[..], PUBLISHED, last.record);
      status, r := ReadRecord();
      if status == PUBLICATION_OK { status := Publish(r.(stage := stage, health := health), context); }
      busy := false;
    }

    /** A record is handed out only with its own context, and only if it is the last one completed. */
    method Snapshot() returns (status: PublicationStatus, published: Option<Published>)
      requires Valid()
      ensures status == PUBLICATION_OK <==> published.Some?
      ensures published.Some? ==> !busy && associated && published.value == last
      ensures busy ==> status == PUBLICATION_BUSY
      ensures !busy && !associated ==> status == PUBLICATION_UNASSOCIATED
      ensures status != PUBLICATION_INVALID
      ensures !faulty && !busy && associated ==> status == PUBLICATION_OK
    {
      if busy { return PUBLICATION_BUSY, None; }
      if !associated { return PUBLICATION_UNASSOCIATED, None; }
      DecodesLayout(words[..], PUBLISHED, last.record);
      var r;
      status, r := ReadRecord();
      if status != PUBLICATION_OK { return status, None; }
      return status, Some(Published(r, context));
    }
  }
}
