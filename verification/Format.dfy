/** The manifest and metadata formats: validation, codecs and page selection. */
module Format {
  import opened Bytes
  import Crc

  const PAGE_BYTES: nat := 1024
  const MANIFEST_BYTES: nat := 160
  const METADATA_BYTES: nat := 168
  const METADATA_CRC_BYTES: nat := 160
  const METADATA_MAGIC: u32 := 0x314d4241
  const FORMAT_VERSION: u32 := 1
  const PRODUCT_ID: u32 := 1
  const COMMIT_ERASED: u32 := 0xffff_ffff
  const COMMIT_VALID: u32 := 0
  const SLOT_A: u32 := 0
  const SLOT_B: u32 := 1
  const SLOT_NONE: u32 := 0xffff_ffff
  const SLOT_A_BASE: u32 := 0x08800
  const SLOT_A_MANIFEST: u32 := 0x23c00
  const SLOT_B_BASE: u32 := 0x24000
  const SLOT_B_MANIFEST: u32 := 0x3f400
  const PAYLOAD_MIN: u32 := 236
  const PAYLOAD_MAX: u32 := 111616
  const INITIAL_MSP: u32 := 0x2001_0000
  const INTENT_NONE: u32 := 0
  const INTENT_DEADLINE: u32 := 1
  const STATE_NONE: Bits2 := 0
  const STATE_READY: Bits2 := 1
  const STATE_TRIAL: Bits2 := 2
  const STATE_REJECTED: Bits2 := 3
  const REASON_WATCHDOG: Bits3 := 1
  const REASON_EXTERNAL: Bits3 := 2
  const REASON_BROWNOUT: Bits3 := 3
  const REASON_DEADLINE: Bits3 := 4
  const REASON_COMBINED: Bits3 := 5
  /** "LM3S6965-FW-V1" and two zero bytes. */
  const MANIFEST_DOMAIN: seq<u8> := [76, 77, 51, 83, 54, 57, 54, 53, 45, 70, 87, 45, 86, 49, 0, 0]

  type Bits2 = x: int | 0 <= x < 4
  type Bits3 = x: int | 0 <= x < 8
  type Bits18 = x: int | 0 <= x < 0x4_0000
  type Hash = h: seq<u8> | |h| == 32 witness Zeros(32)
  type Signature = s: seq<u8> | |s| == 64 witness Zeros(64)

  datatype Status =
    | OK | SIZE | DOMAIN | VERSION | LENGTH | PRODUCT | SLOT | BASE | BOUNDS | RESERVED | MAGIC | COMMIT
    | CRC | ACCOUNTING | EMPTY | ROLE | INTENT | IDENTITY | MSP | THUMB | VECTOR_RANGE | EXHAUSTED

  datatype Decoded<+T> = Ok(value: T) | Err(status: Status)

  /** The fields of the 32-bit accounting word. */
  datatype Accounting = Accounting(
    state: Bits2, count: Bits2, rollback: bool, reason1: Bits3, reason2: Bits3, reason3: Bits3, reserved: Bits18)
  {
    function Reason(i: nat): Bits3 {
      if i == 0 then reason1 else if i == 1 then reason2 else reason3
    }
  }

  const NO_ACCOUNT := Accounting(0, 0, false, 0, 0, 0, 0)
  const READY_ACCOUNT := Accounting(STATE_READY, 0, false, 0, 0, 0, 0)

  datatype Entry = Entry(hash: Hash, release: u32, length: u32, accounting: Accounting, trialId: u32)

  const EMPTY_ENTRY := Entry(Zeros(32), 0, 0, NO_ACCOUNT, 0)

  datatype Metadata = Metadata(
    sequence: u32, current: u32, candidate: u32, previous: u32, confirmed: u32,
    imageA: Entry, imageB: Entry, intentKind: u32, intentSlot: u32, intentTrialId: u32)
  {
    function Image(slot: u32): Entry { if slot == SLOT_A then imageA else imageB }

    function WithImage(slot: u32, e: Entry): Metadata {
      if slot == SLOT_A then this.(imageA := e) else this.(imageB := e)
    }

    predicate Confirmed(slot: u32) {
      if slot == SLOT_A then confirmed % 2 == 1 else slot == SLOT_B && (confirmed / 2) % 2 == 1
    }

    /** confirmed_mask |= 1 << slot, and its opposite. */
    function SetConfirmed(slot: u32, on: bool): Metadata {
      var bit: int := if slot == SLOT_A then 1 else 2;
      var mask: int := confirmed;
      if Confirmed(slot) == on || !SlotValid(slot) then this
      else if on then (assert mask + bit < 0x1_0000_0000; this.(confirmed := mask + bit))
      else this.(confirmed := mask - bit)
    }

    function ClearIntent(): Metadata {
      this.(intentKind := INTENT_NONE, intentSlot := SLOT_NONE, intentTrialId := 0)
    }
  }

  datatype Manifest = Manifest(
    slot: u32, base: u32, length: u32, release: u32, hash: Hash, signature: Signature)

  predicate SlotValid(slot: u32) { slot == SLOT_A || slot == SLOT_B }

  predicate RoleValid(slot: u32) { SlotValid(slot) || slot == SLOT_NONE }

  function Other(slot: u32): u32 { if slot == SLOT_A then SLOT_B else SLOT_A }

  // ---- accounting word ----

  /** State in bits 0-1, count in 2-3, rollback in 4, three reasons from bit 5, the rest reserved. */
  function Pack(a: Accounting): u32 {
    (a.state as int) + 4 * ((a.count as int) + 4 * ((if a.rollback then 1 else 0)
    + 2 * ((a.reason1 as int) + 8 * ((a.reason2 as int) + 8 * ((a.reason3 as int) + 8 * (a.reserved as int))))))
  }

  function Unpack(w: u32): Accounting {
    var count: int := w / 4;
    var rollback := count / 4;
    var reason1 := rollback / 2;
    var reason2 := reason1 / 8;
    var reason3 := reason2 / 8;
    Accounting(w % 4, count % 4, rollback % 2 == 1, reason1 % 8, reason2 % 8, reason3 % 8, reason3 / 8)
  }

  lemma Field(low: int, width: int, rest: int)
    requires 0 <= low < width && width in {2, 4, 8}
    ensures (low + width * rest) % width == low && (low + width * rest) / width == rest
  {}

  lemma UnpackOfPack(a: Accounting)
    ensures Unpack(Pack(a)) == a
  {
    var q6: int := a.reserved;
    var q5 := (a.reason3 as int) + 8 * q6;
    var q4 := (a.reason2 as int) + 8 * q5;
    var q3 := (a.reason1 as int) + 8 * q4;
    var q2 := (if a.rollback then 1 else 0) + 2 * q3;
    var q1 := (a.count as int) + 4 * q2;
    Field(a.state, 4, q1);
    Field(a.count, 4, q2);
    Field(if a.rollback then 1 else 0, 2, q3);
    Field(a.reason1, 8, q4);
    Field(a.reason2, 8, q5);
    Field(a.reason3, 8, q6);
  }

  lemma PackOfUnpack(w: u32)
    ensures Pack(Unpack(w)) == w
  {}

  // ---- geometry and validation ----

  function SlotBase(slot: u32): u32 { if slot == SLOT_A then SLOT_A_BASE else SLOT_B_BASE }

  function SlotManifest(slot: u32): u32 { if slot == SLOT_A then SLOT_A_MANIFEST else SLOT_B_MANIFEST }

  function ImageSpan(slot: u32, base: u32, length: u32): (r: Decoded<u32>)
  {
    if !SlotValid(slot) then Err(SLOT)
    else if base != SlotBase(slot) then Err(BASE)
    else if length < PAYLOAD_MIN || length as int > SlotManifest(slot) as int - base as int || length % 4 != 0 then Err(BOUNDS)
    else Ok(base as int + length as int)
  }

  function ManifestValidate(m: Manifest): Status {
    match ImageSpan(m.slot, m.base, m.length)
    case Ok(_) => OK
    case Err(e) => e
  }

  function VectorsValidate(m: Manifest, payload: seq<u8>): Status {
    match ImageSpan(m.slot, m.base, m.length)
    case Err(e) => e
    case Ok(end) =>
      if |payload| < m.length as int then SIZE
      else if Get32(payload, 0) != INITIAL_MSP then MSP
      else VectorStatus(Get32(payload, 4), m.base, end)
  }

  function VectorStatus(reset: u32, base: u32, end: u32): Status {
    if reset % 2 == 0 then THUMB
    else if (reset - 1) < base || reset - 1 >= end then VECTOR_RANGE
    else OK
  }

  function EntryValidate(e: Entry): Status {
    var a := e.accounting;
    if e.length == 0 then
      if e.hash != Zeros(32) || e.release != 0 || a != NO_ACCOUNT || e.trialId != 0 then EMPTY else OK
    else if e.length < PAYLOAD_MIN || e.length > PAYLOAD_MAX || e.length % 4 != 0 then BOUNDS
    else if a.reserved != 0 then RESERVED
    else if ReasonBad(a, 0) || ReasonBad(a, 1) || ReasonBad(a, 2) then ACCOUNTING
    else if (a.state == STATE_READY && a != READY_ACCOUNT)
         || (a.state != STATE_REJECTED && (a.count == 3 || a.rollback))
         || (a.state == STATE_REJECTED && (a.count != 3 || !a.rollback)) then ACCOUNTING
    else OK
  }

  predicate ReasonBad(a: Accounting, i: nat) {
    var reason := a.Reason(i);
    if i < a.count then reason == 0 || reason > REASON_COMBINED else reason != 0
  }

  /** One turn of the loop over the two entries. */
  function SlotValidate(m: Metadata, i: u32): Status {
    var e := m.Image(i);
    var state := e.accounting.state;
    if EntryValidate(e) != OK then EntryValidate(e)
    else if e.trialId > m.sequence then ACCOUNTING
    else if e.length == 0 && (m.Confirmed(i) || m.current == i || m.previous == i || m.candidate == i) then ROLE
    else if m.Confirmed(i) && state != STATE_NONE then ROLE
    else if (state == STATE_READY || state == STATE_TRIAL) && m.candidate != i then ROLE
    else OK
  }

  function IntentValidate(m: Metadata): Status {
    if m.intentKind == INTENT_NONE then
      if m.intentSlot != SLOT_NONE || m.intentTrialId != 0 then INTENT else OK
    else if m.intentKind == INTENT_DEADLINE then
      if !SlotValid(m.intentSlot) || m.intentSlot != m.candidate
         || m.Image(m.intentSlot).accounting.state != STATE_TRIAL
         || m.Image(m.intentSlot).trialId != m.intentTrialId then INTENT else OK
    else INTENT
  }

  function MetadataValidate(m: Metadata): Status {
    if !RoleValid(m.current) || !RoleValid(m.candidate) || !RoleValid(m.previous) then SLOT
    else if m.confirmed >= 4 then RESERVED
    else if SlotValidate(m, SLOT_A) != OK then SlotValidate(m, SLOT_A)
    else if SlotValidate(m, SLOT_B) != OK then SlotValidate(m, SLOT_B)
    else if m.current != SLOT_NONE && !m.Confirmed(m.current) then ROLE
    else if m.previous != SLOT_NONE && (!m.Confirmed(m.previous) || m.previous == m.current) then ROLE
    else if m.candidate != SLOT_NONE
         && (m.Confirmed(m.candidate) || m.candidate == m.current || m.candidate == m.previous
             || (m.Image(m.candidate).accounting.state != STATE_READY
                 && m.Image(m.candidate).accounting.state != STATE_TRIAL)) then ROLE
    else IntentValidate(m)
  }

  predicate Valid(m: Metadata) { MetadataValidate(m) == OK }

  // ---- what validity means ----

  /** Life of one slot: nothing, a counted history, and no reason past the count. */
  predicate HistoryWellFormed(a: Accounting) {
    && a.reserved == 0
    && (forall i :: 0 <= i < 3 ==> (a.Reason(i) != 0 <==> i < a.count))
    && (forall i :: 0 <= i < 3 ==> a.Reason(i) <= REASON_COMBINED)
    && (a.rollback <==> a.state == STATE_REJECTED)
    && (a.count == 3 <==> a.state == STATE_REJECTED)
    && (a.state == STATE_READY ==> a.count == 0)
  }

  predicate SlotWellFormed(m: Metadata, i: u32) {
    var e := m.Image(i);
    if e.length == 0 then
      e == EMPTY_ENTRY && !m.Confirmed(i) && m.current != i && m.previous != i && m.candidate != i
    else
      && PAYLOAD_MIN <= e.length <= PAYLOAD_MAX && e.length % 4 == 0
      && HistoryWellFormed(e.accounting)
      && e.trialId <= m.sequence
      && (m.candidate == i <==> e.accounting.state in {STATE_READY, STATE_TRIAL})
      && (m.Confirmed(i) ==> e.accounting.state == STATE_NONE)
      && (m.current == i || m.previous == i ==> m.Confirmed(i))
  }

  /** Two slots, at most one candidate, current and previous confirmed and distinct,
      a deadline intent only for the running trial. */
  predicate WellFormed(m: Metadata) {
    && RoleValid(m.current) && RoleValid(m.candidate) && RoleValid(m.previous) && m.confirmed < 4
    && SlotWellFormed(m, SLOT_A) && SlotWellFormed(m, SLOT_B)
    && (m.previous != SLOT_NONE ==> m.previous != m.current)
    && (if m.intentKind == INTENT_DEADLINE then
          && SlotValid(m.candidate) && m.intentSlot == m.candidate
          && m.Image(m.candidate).accounting.state == STATE_TRIAL
          && m.intentTrialId == m.Image(m.candidate).trialId
        else m.intentKind == INTENT_NONE && m.intentSlot == SLOT_NONE && m.intentTrialId == 0)
  }

  lemma EntryValidMeaning(e: Entry)
    ensures EntryValidate(e) == OK <==>
            if e.length == 0 then e == EMPTY_ENTRY
            else PAYLOAD_MIN <= e.length <= PAYLOAD_MAX && e.length % 4 == 0 && HistoryWellFormed(e.accounting)
  {
    var a := e.accounting;
    assert a.Reason(0) == a.reason1 && a.Reason(1) == a.reason2 && a.Reason(2) == a.reason3;
    if EntryValidate(e) == OK && e.length != 0 {
      assert !ReasonBad(a, 0) && !ReasonBad(a, 1) && !ReasonBad(a, 2);
    }
    if HistoryWellFormed(a) && a.state == STATE_READY {
      assert a == READY_ACCOUNT;
    }
  }

  lemma ValidMeaning(m: Metadata)
    ensures Valid(m) <==> WellFormed(m)
  {
    EntryValidMeaning(m.imageA);
    EntryValidMeaning(m.imageB);
  }

  function NextSequence(m: Metadata): Decoded<u32> {
    if !Valid(m) then Err(MetadataValidate(m))
    else if m.sequence == UINT32_MAX then Err(EXHAUSTED)
    else Ok(m.sequence + 1)
  }

  function ImageMatches(m: Metadata, manifest: Manifest): Status {
    if !Valid(m) then MetadataValidate(m)
    else if ManifestValidate(manifest) != OK then ManifestValidate(manifest)
    else
      var e := m.Image(manifest.slot);
      if e.length != manifest.length || e.release != manifest.release || e.hash != manifest.hash
      then IDENTITY else OK
  }
}
