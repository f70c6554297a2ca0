/** The phased upload transaction: authenticate, invalidate durably, erase, program, verify, commit READY. */
module Receive {
  import opened Bytes
  import opened Format
  import opened Codec
  import opened Flash
  import opened Store
  import opened Lifecycle
  import opened History
  import opened Verify
  import opened Truth
  import opened ErasePlan

  datatype Phase =
    | NEW | HEADER | AUTHENTICATE | INVALIDATE | ERASE | PAYLOAD | WRITE_MANIFEST | VERIFY_IMAGE | READY | TERMINAL
  {
    /** The order of the phases. */
    function Rank(): nat {
      match this
      case NEW => 0
      case HEADER => 1
      case AUTHENTICATE => 2
      case INVALIDATE => 3
      case ERASE => 4
      case PAYLOAD => 5
      case WRITE_MANIFEST => 6
      case VERIFY_IMAGE => 7
      case READY => 8
      case TERMINAL => 9
    }

    predicate Between(first: Phase, last: Phase) { first.Rank() <= Rank() <= last.Rank() }
  }

  datatype ReceiveResult =
    | RX_OK | RX_WAIT | RX_ACCEPTED | RX_ARGUMENT | RX_BUSY | RX_CONSUMED | RX_AUTHORITY | RX_RUNNING | RX_EXHAUSTED
    | RX_ADMISSION | RX_MANIFEST | RX_STORE | RX_RECONCILE | RX_FLASH | RX_LENGTH | RX_STORED | RX_ABORTED

  datatype Acceptance = Acceptance(metadata: Snapshot, image: VerifiedImage)

  const NO_MANIFEST := Manifest(0, 0, 0, 0, Zeros(32), Zeros(64))
  const NO_IMAGE := VerifiedImage(NO_MANIFEST, 0, 0)
  const NO_METADATA := Metadata(0, 0, 0, 0, 0, EMPTY_ENTRY, EMPTY_ENTRY, 0, 0, 0)

  // ---- what the slot holds ----

  /** The first n bytes from offset skip of the input are stored at an offset, and the room behind them is erased. */
  predicate Filled(mem: seq<u8>, at: nat, n: nat, room: nat, input: seq<u8>, skip: nat) {
    && n <= room && at + room <= |mem| && skip + n <= |input|
    && (forall i :: at <= i < at + n ==> mem[i] == input[skip + i - at])
    && (forall i :: at + n <= i < at + room ==> mem[i] == 255)
  }

  /** The bytes are stored at an offset and nothing else has changed. */
  predicate Written(before: seq<u8>, after: seq<u8>, at: nat, bytes: seq<u8>) {
    && |after| == |before|
    && forall i :: 0 <= i < |before| ==> after[i] == if at <= i < at + |bytes| then bytes[i - at] else before[i]
  }

  /** An erased word can be programmed with anything. */
  lemma ErasedWord(mem: seq<u8>, at: nat, bytes: seq<u8>)
    requires |bytes| == 4 && Erased(mem, at, at + 4)
    ensures Programmable(mem, at, bytes)
    ensures Written(mem, TornProgram(mem, at, bytes, WORD_BITS), at, bytes)
  {
    forall i | at <= i < at + 4 ensures Clearable(mem[i], bytes[i - at]) { ErasedIsClearable(bytes[i - at]); }
    ProgramAll(mem, at, bytes);
    var after := TornProgram(mem, at, bytes, WORD_BITS);
    forall i | 0 <= i < |mem| ensures after[i] == if at <= i < at + 4 then bytes[i - at] else mem[i] {
      assert after[i] == TornProgram(mem, at, bytes, WORD_BITS)[i];
    }
  }

  lemma FilledFurther(mem: seq<u8>, after: seq<u8>, at: nat, n: nat, room: nat, input: seq<u8>, skip: nat, bytes: seq<u8>)
    requires Filled(mem, at, n, room, input, skip) && n + 4 <= room && skip + n + 4 <= |input|
    requires bytes == input[skip + n..skip + n + 4] && Written(mem, after, at + n, bytes)
    ensures Filled(after, at, n + 4, room, input, skip)
  {
    forall i | at <= i < at + n + 4 ensures after[i] == input[skip + i - at] {
      if at + n <= i { assert bytes[i - (at + n)] == input[skip + n + (i - (at + n))]; }
    }
  }

  /** The first n payload bytes of the input are stored and the rest of the slot is erased. */
  predicate PayloadTo(mem: seq<u8>, slot: u32, input: seq<u8>, n: nat) {
    && |mem| == FLASH_BYTES && SlotValid(slot) && n <= PAYLOAD_MAX
    && Filled(mem, SlotFirst(slot), n, SLOT_BYTES, input, MANIFEST_BYTES)
  }

  /** The payload is stored, and so are the first n bytes of the manifest; the rest of its page is erased. */
  predicate ManifestTo(mem: seq<u8>, slot: u32, input: seq<u8>, length: nat, n: nat) {
    && |mem| == FLASH_BYTES && SlotValid(slot) && length <= PAYLOAD_MAX && n <= MANIFEST_BYTES
    && Filled(mem, SlotFirst(slot), length, length, input, MANIFEST_BYTES)
    && Filled(mem, ManifestFirst(slot), n, PAGE_BYTES, input, 0)
  }

  lemma PayloadFurther(mem: seq<u8>, after: seq<u8>, slot: u32, input: seq<u8>, n: nat, bytes: seq<u8>)
    requires PayloadTo(mem, slot, input, n) && n + 4 <= PAYLOAD_MAX && MANIFEST_BYTES + n + 4 <= |input|
    requires bytes == input[MANIFEST_BYTES + n..MANIFEST_BYTES + n + 4] && Written(mem, after, SlotFirst(slot) + n, bytes)
    ensures PayloadTo(after, slot, input, n + 4)
  {
    FilledFurther(mem, after, SlotFirst(slot), n, SLOT_BYTES, input, MANIFEST_BYTES, bytes);
  }

  lemma PayloadDone(mem: seq<u8>, slot: u32, input: seq<u8>, length: nat)
    requires PayloadTo(mem, slot, input, length)
    ensures ManifestTo(mem, slot, input, length, 0)
  {}

  /** Programming the manifest leaves the payload alone. */
  lemma ManifestFurther(mem: seq<u8>, after: seq<u8>, slot: u32, input: seq<u8>, length: nat, n: nat, bytes: seq<u8>)
    requires ManifestTo(mem, slot, input, length, n) && n + 4 <= MANIFEST_BYTES && bytes == input[n..n + 4]
    requires Written(mem, after, ManifestFirst(slot) + n, bytes)
    ensures ManifestTo(after, slot, input, length, n + 4)
  {
    FilledFurther(mem, after, ManifestFirst(slot), n, PAGE_BYTES, input, 0, bytes);
  }

  /** The slot holds the manifest and the payload that were sent, byte for byte. */
  predicate Exact(mem: seq<u8>, slot: u32, input: seq<u8>) {
    && |mem| == FLASH_BYTES && SlotValid(slot) && MANIFEST_BYTES <= |input| <= MANIFEST_BYTES + PAYLOAD_MAX
    && WireAt(mem, slot) == input[..MANIFEST_BYTES]
    && Payload(mem, slot, |input| - MANIFEST_BYTES) == input[MANIFEST_BYTES..]
  }

  lemma ManifestToIsExact(mem: seq<u8>, slot: u32, input: seq<u8>, length: nat)
    requires ManifestTo(mem, slot, input, length, MANIFEST_BYTES) && |input| == MANIFEST_BYTES + length
    ensures Exact(mem, slot, input)
  {
    forall k | 0 <= k < MANIFEST_BYTES ensures WireAt(mem, slot)[k] == input[..MANIFEST_BYTES][k] {
      assert mem[ManifestFirst(slot) + k] == input[k];
    }
    forall k | 0 <= k < length ensures Payload(mem, slot, length)[k] == input[MANIFEST_BYTES..][k] {
      assert mem[SlotFirst(slot) + k] == input[MANIFEST_BYTES + k];
    }
  }

  predicate OnlySlot(before: seq<u8>, after: seq<u8>, slot: u32) {
    |before| == |after| && forall i :: 0 <= i < |before| && !InSlot(slot, i) ==> after[i] == before[i]
  }

  /** Nothing but the metadata and one slot has changed: the running slot is as it was. */
  predicate Confined(before: seq<u8>, after: seq<u8>, slot: u32) {
    && |before| == |after|
    && forall i :: 0 <= i < |before| && !InMetadata(i) && !InSlot(slot, i) ==> after[i] == before[i]
  }

  // ---- the two admissions of one upload ----

  /** Once the destination is durably invalidated the erase is admitted, and so will be the acceptance. */
  lemma InvalidationAdmits(r: Metadata, e: UploadEvidence, after: Metadata)
    requires Invalidate(r, e) == Change(after)
    ensures after.sequence == r.sequence + 1 && after.Image(e.permitted) == EMPTY_ENTRY
    ensures Destructible(after, e.running.manifest.slot, e.permitted)
    ensures Admission(after, e).None?
  {
    InvalidateCloses(r, e);
    ValidMeaning(r);
    ValidMeaning(after);
  }

  lemma AcceptanceFollows(r: Metadata, e: UploadEvidence, trust: Trust, wire: seq<u8>, payload: seq<u8>)
    requires Admission(r, e).None? && r.Image(e.permitted) == EMPTY_ENTRY && r.sequence < UINT32_MAX
    requires ImageGood(trust, wire, e.permitted, payload) && ManifestOf(wire) == Ok(e.incoming)
    ensures AcceptReady(r, e, Verified(wire, payload)) == Change(Accepted(r, e.incoming))
  {
    AcceptReadyCloses(r, e, Verified(wire, payload));
  }

  // ---- what each phase means ----

  /** A transaction as a value: its fields, the input accepted so far, and how things stood when it began. */
  datatype Job = Job(
    phase: Phase, slot: u32, authority: Snapshot, evidence: UploadEvidence, proposal: Metadata, stored: VerifiedImage,
    manifest: seq<u8>, manifestUsed: nat, word: seq<u8>, wordUsed: nat, received: u32, programmed: u32,
    manifestProgrammed: u32, eof: bool, destination: u32, page: nat, failed: bool,
    input: seq<u8>, start: seq<u8>, sound: bool)
  {
    /** The manifest as received. */
    function Wire(): seq<u8> { if |input| < MANIFEST_BYTES then [] else input[..MANIFEST_BYTES] }
  }

  /** No byte is lost or invented between the caller and the flash: received is programmed plus buffered. */
  predicate Counted(job: Job) { Tally(job) == Yes }

  function Tally(job: Job): Verdict {
    if && |job.manifest| == MANIFEST_BYTES && |job.word| == 4
       && job.manifestUsed <= MANIFEST_BYTES && job.wordUsed <= 4 && job.programmed % 4 == 0
       && job.received as int == job.programmed as int + job.wordUsed && |job.input| == job.manifestUsed + job.received
       && job.manifest[..job.manifestUsed] == job.input[..job.manifestUsed]
       && job.word[..job.wordUsed] == job.input[job.manifestUsed + job.programmed..]
       && (job.phase == NEW ==> job.manifestUsed == 0)
       && (job.phase == HEADER ==> job.manifestUsed < MANIFEST_BYTES)
       && (job.phase.Between(AUTHENTICATE, READY) ==> job.manifestUsed == MANIFEST_BYTES)
       && (job.phase.Rank() <= ERASE.Rank() ==> job.received == 0 && !job.eof)
       && (job.phase.Rank() <= PAYLOAD.Rank() ==> job.manifestProgrammed == 0) then Yes else No
  }

  /** The manifest received is authentic and is the one admitted; the record in force leaves the destination empty and
      still admits this upload. */
  ghost predicate AdmittedMeaning(trust: Trust, wire: seq<u8>, slot: u32, r: Metadata, e: UploadEvidence) {
    && Authentic(trust, wire, slot, e)
    && Admission(r, e).None? && r.Image(slot) == EMPTY_ENTRY && r.sequence < UINT32_MAX
  }

  ghost predicate Authentic(trust: Trust, wire: seq<u8>, slot: u32, e: UploadEvidence) {
    var m := e.incoming;
    && SlotValid(slot) && ManifestGood(trust, wire, slot) && ManifestOf(wire) == Ok(m)
    && Located(m) && m.length % 4 == 0 && m.slot == slot && e.permitted == slot
  }

  /** The manifest is authentic and the proposal is the invalidation that it asks for. */
  ghost predicate InvalidatingMeaning(trust: Trust, wire: seq<u8>, slot: u32, r: Metadata, e: UploadEvidence, p: Metadata) {
    Authentic(trust, wire, slot, e) && Invalidate(r, e) == Change(p)
  }

  /** The slot holds the verified image that the proposal accepts. */
  ghost predicate ProvenMeaning(trust: Trust, mem: seq<u8>, job: Job) {
    var wire, length := job.Wire(), job.evidence.incoming.length;
    && |mem| == FLASH_BYTES && SlotValid(job.slot) && length <= PAYLOAD_MAX && WireAt(mem, job.slot) == wire
    && ImageGood(trust, wire, job.slot, Payload(mem, job.slot, length))
    && job.stored == Verified(wire, Payload(mem, job.slot, length))
    && AcceptReady(job.authority.record, job.evidence, job.stored) == Change(job.proposal)
  }

  /** The other slot is untouched and the metadata tells the truth if it did at the start. */
  ghost predicate FaithfulMeaning(trust: Trust, start: seq<u8>, mem: seq<u8>, slot: u32) {
    Confined(start, mem, slot) && (Truthful(trust, start) ==> Truthful(trust, mem))
  }

  // Each of these behind a descent that the verifier does not follow; the lemma that opens it comes after it.

  ghost predicate Admitted(trust: Trust, job: Job, depth: nat) { AdmittedBehind(trust, job, depth) == Yes }

  ghost function AdmittedBehind(trust: Trust, job: Job, depth: nat): Verdict {
    if depth != 0 then AdmittedBehind(trust, job, depth - 1)
    else if AdmittedMeaning(trust, job.Wire(), job.slot, job.authority.record, job.evidence) then Yes else No
  }

  lemma {:induction false} AdmittedOpen(trust: Trust, job: Job, depth: nat)
    ensures Admitted(trust, job, depth) ==
            AdmittedMeaning(trust, job.Wire(), job.slot, job.authority.record, job.evidence)
  {
    if depth != 0 { AdmittedOpen(trust, job, depth - 1); }
  }

  ghost predicate Invalidating(trust: Trust, job: Job, depth: nat) { InvalidatingBehind(trust, job, depth) == Yes }

  ghost function InvalidatingBehind(trust: Trust, job: Job, depth: nat): Verdict {
    if depth != 0 then InvalidatingBehind(trust, job, depth - 1)
    else if InvalidatingMeaning(trust, job.Wire(), job.slot, job.authority.record, job.evidence, job.proposal) then Yes else No
  }

  lemma {:induction false} InvalidatingOpen(trust: Trust, job: Job, depth: nat)
    ensures Invalidating(trust, job, depth) ==
            InvalidatingMeaning(trust, job.Wire(), job.slot, job.authority.record, job.evidence, job.proposal)
  {
    if depth != 0 { InvalidatingOpen(trust, job, depth - 1); }
  }

  ghost predicate Proven(trust: Trust, mem: seq<u8>, job: Job, depth: nat) { ProvenBehind(trust, mem, job, depth) == Yes }

  ghost function ProvenBehind(trust: Trust, mem: seq<u8>, job: Job, depth: nat): Verdict {
    if depth != 0 then ProvenBehind(trust, mem, job, depth - 1)
    else if ProvenMeaning(trust, mem, job) then Yes else No
  }

  lemma {:induction false} ProvenOpen(trust: Trust, mem: seq<u8>, job: Job, depth: nat)
    ensures Proven(trust, mem, job, depth) == ProvenMeaning(trust, mem, job)
  {
    if depth != 0 { ProvenOpen(trust, mem, job, depth - 1); }
  }

  ghost predicate Faithful(trust: Trust, start: seq<u8>, mem: seq<u8>, slot: u32, depth: nat) { FaithfulBehind(trust, start, mem, slot, depth) == Yes }

  ghost function FaithfulBehind(trust: Trust, start: seq<u8>, mem: seq<u8>, slot: u32, depth: nat): Verdict {
    if depth != 0 then FaithfulBehind(trust, start, mem, slot, depth - 1)
    else if FaithfulMeaning(trust, start, mem, slot) then Yes else No
  }

  lemma {:induction false} FaithfulOpen(trust: Trust, start: seq<u8>, mem: seq<u8>, slot: u32, depth: nat)
    ensures Faithful(trust, start, mem, slot, depth) == FaithfulMeaning(trust, start, mem, slot)
  {
    if depth != 0 { FaithfulOpen(trust, start, mem, slot, depth - 1); }
  }

  /** An upload that may still load its manifest or has just done so: two sequence numbers are set aside for it. */
  predicate Reserved(job: Job) {
    job.evidence.permitted == job.slot && job.authority.record.sequence as int + 2 <= UINT32_MAX as int
  }

  /** The meaning of the phases. Contents of the slot are claimed for flash that drops no command unnoticed. */
  ghost predicate InPhase(trust: Trust, silent: bool, mem: seq<u8>, job: Job) {
    var length, depth := job.evidence.incoming.length as int, 2 + |job.input|;
    && |mem| == FLASH_BYTES
    && (job.phase != NEW ==> SlotValid(job.slot))
    && match job.phase
       case NEW => true
       case HEADER => Reserved(job)
       case AUTHENTICATE => Reserved(job)
       case INVALIDATE => Reserved(job) && Invalidating(trust, job, depth)
       case ERASE =>
         && Admitted(trust, job, depth)
         && job.destination == job.slot && !job.failed && job.page <= SLOT_PAGES
         && (!silent ==> ErasedTo(mem, job.slot, job.page))
       case PAYLOAD =>
         && Admitted(trust, job, depth)
         && job.received as int <= length && (job.eof ==> job.received as int == length)
         && (!silent ==> PayloadTo(mem, job.slot, job.input, job.programmed))
       case WRITE_MANIFEST =>
         && Admitted(trust, job, depth) && Complete(job)
         && job.manifestProgrammed < MANIFEST_BYTES as u32 && job.manifestProgrammed % 4 == 0
         && (!silent ==> ManifestTo(mem, job.slot, job.input, length, job.manifestProgrammed))
       case VERIFY_IMAGE =>
         Admitted(trust, job, depth) && Complete(job) && (!silent ==> Exact(mem, job.slot, job.input))
       case READY =>
         && Admitted(trust, job, depth) && Complete(job) && (!silent ==> Exact(mem, job.slot, job.input))
         && Proven(trust, mem, job, depth)
       case TERMINAL => true
  }

  /** Every byte of the payload has arrived and been programmed, and the end was announced. */
  predicate Complete(job: Job) {
    job.eof && job.programmed == job.received == job.evidence.incoming.length
  }

  /** The snapshot held is the durable one. */
  ghost predicate Kept(trust: Trust, mem: seq<u8>, job: Job) { Keeping(trust, mem, job) == Yes }

  ghost function Keeping(trust: Trust, mem: seq<u8>, job: Job): Verdict {
    if && job.sound == Durable(job.start).Some?
       && (job.sound && job.phase != TERMINAL ==> Durable(mem) == Some(job.authority))
       && Faithful(trust, job.start, mem, job.slot, 2 + |job.start|) then Yes else No
  }

  ghost predicate Meaning(trust: Trust, silent: bool, mem: seq<u8>, job: Job) {
    Counted(job) && InPhase(trust, silent, mem, job) && (job.phase != NEW ==> Kept(trust, mem, job))
  }

  /** The invariant of a transaction, behind a descent that the verifier does not follow (see Open). */
  ghost predicate Holds(trust: Trust, silent: bool, mem: seq<u8>, job: Job) {
    HoldsBehind(trust, silent, mem, job, 2 + |job.input|) == Yes
  }

  ghost function HoldsBehind(trust: Trust, silent: bool, mem: seq<u8>, job: Job, depth: nat): Verdict {
    if depth != 0 then HoldsBehind(trust, silent, mem, job, depth - 1)
    else if Meaning(trust, silent, mem, job) then Yes else No
  }

  lemma Open(trust: Trust, silent: bool, mem: seq<u8>, job: Job)
    ensures Holds(trust, silent, mem, job) == Meaning(trust, silent, mem, job)
  {
    Descent(trust, silent, mem, job, 2 + |job.input|);
  }

  lemma {:induction false} Descent(trust: Trust, silent: bool, mem: seq<u8>, job: Job, depth: nat)
    ensures HoldsBehind(trust, silent, mem, job, depth) == Yes <==> Meaning(trust, silent, mem, job)
  {
    if depth != 0 { Descent(trust, silent, mem, job, depth - 1); }
  }

  // ---- the calls that do not touch the flash ----

  /** Where the machine stops, nothing more is claimed of the phase. */
  lemma Stopping(trust: Trust, silent: bool, mem: seq<u8>, job: Job)
    requires Holds(trust, silent, mem, job) && job.phase != NEW
    ensures Holds(trust, silent, mem, job.(phase := TERMINAL))
  {
    Open(trust, silent, mem, job);
    Open(trust, silent, mem, job.(phase := TERMINAL));
  }

  /** What admission says of the manifest. */
  lemma AdmittedFacts(trust: Trust, job: Job, depth: nat)
    requires Admitted(trust, job, depth)
    ensures SlotValid(job.slot) && job.evidence.incoming.base == SlotBase(job.slot)
    ensures PAYLOAD_MIN <= job.evidence.incoming.length <= PAYLOAD_MAX && job.evidence.incoming.length % 4 == 0
    ensures job.authority.record.Image(job.slot).length == 0
    ensures ManifestOf(job.Wire()) == Ok(job.evidence.incoming)
  {
    AdmittedOpen(trust, job, depth);
  }

  lemma AdmittedStays(trust: Trust, job: Job, depth: nat, after: Job, depthAfter: nat)
    requires Admitted(trust, job, depth) && after.Wire() == job.Wire() && after.slot == job.slot
    requires after.authority == job.authority && after.evidence == job.evidence
    ensures Admitted(trust, after, depthAfter)
  {
    AdmittedOpen(trust, job, depth);
    AdmittedOpen(trust, after, depthAfter);
  }

  lemma Counts(trust: Trust, silent: bool, mem: seq<u8>, job: Job)
    requires Holds(trust, silent, mem, job)
    ensures Counted(job) && (job.phase != NEW ==> SlotValid(job.slot)) && |mem| == FLASH_BYTES
    ensures job.phase.Between(PAYLOAD, READY) ==>
      && job.received <= job.evidence.incoming.length && (job.eof ==> job.received == job.evidence.incoming.length)
      && job.evidence.incoming.length <= PAYLOAD_MAX && job.evidence.incoming.length % 4 == 0
    ensures job.phase.Between(WRITE_MANIFEST, READY) ==> job.eof
    ensures job.phase.Between(ERASE, READY) ==> Admitted(trust, job, 2 + |job.input|)
  {
    Open(trust, silent, mem, job);
    if job.phase.Between(PAYLOAD, READY) { AdmittedFacts(trust, job, 2 + |job.input|); }
  }

  lemma HeaderFed(trust: Trust, silent: bool, mem: seq<u8>, job: Job, bytes: seq<u8>, manifest: seq<u8>)
    requires Holds(trust, silent, mem, job) && job.phase == HEADER
    requires job.manifestUsed <= |job.manifest| && job.manifestUsed + |bytes| <= MANIFEST_BYTES == |manifest|
    requires manifest[..job.manifestUsed + |bytes|] == job.manifest[..job.manifestUsed] + bytes
    ensures var used := job.manifestUsed + |bytes|;
      Holds(trust, silent, mem, job.(manifest := manifest, manifestUsed := used, input := job.input + bytes,
                                     phase := if used == MANIFEST_BYTES then AUTHENTICATE else HEADER))
  {
    var used := job.manifestUsed + |bytes|;
    Open(trust, silent, mem, job);
    Open(trust, silent, mem, job.(manifest := manifest, manifestUsed := used, input := job.input + bytes,
                                  phase := if used == MANIFEST_BYTES then AUTHENTICATE else HEADER));
  }

  lemma FedCounted(job: Job, bytes: seq<u8>, word: seq<u8>)
    requires Counted(job) && job.phase == PAYLOAD && !job.eof && job.wordUsed <= |job.word|
    requires job.wordUsed + |bytes| <= 4 == |word| && word[..job.wordUsed + |bytes|] == job.word[..job.wordUsed] + bytes
    requires job.received as int + |bytes| <= job.evidence.incoming.length as int
    ensures Counted(job.(word := word, wordUsed := job.wordUsed + |bytes|, input := job.input + bytes,
                         received := job.received + |bytes|))
    ensures job.(input := job.input + bytes).Wire() == job.Wire()
  {
    var after := job.(word := word, wordUsed := job.wordUsed + |bytes|, input := job.input + bytes,
                      received := job.received + |bytes|);
    assert after.word[..after.wordUsed] == after.input[after.manifestUsed + after.programmed..];
  }

  lemma WordFed(trust: Trust, silent: bool, mem: seq<u8>, job: Job, bytes: seq<u8>, word: seq<u8>)
    requires Holds(trust, silent, mem, job) && job.phase == PAYLOAD && !job.eof
    requires job.wordUsed <= |job.word| && job.wordUsed + |bytes| <= 4 == |word|
    requires word[..job.wordUsed + |bytes|] == job.word[..job.wordUsed] + bytes
    requires job.received as int + |bytes| <= job.evidence.incoming.length as int
    ensures Holds(trust, silent, mem, job.(word := word, wordUsed := job.wordUsed + |bytes|, input := job.input + bytes,
                                           received := job.received + |bytes|))
  {
    var after := job.(word := word, wordUsed := job.wordUsed + |bytes|, input := job.input + bytes,
                      received := job.received + |bytes|);
    Open(trust, silent, mem, job);
    FedCounted(job, bytes, word);
    AdmittedStays(trust, job, 2 + |job.input|, after, 2 + |after.input|);
    Open(trust, silent, mem, after);
  }

  lemma Ended(trust: Trust, silent: bool, mem: seq<u8>, job: Job)
    requires Holds(trust, silent, mem, job) && job.phase.Between(PAYLOAD, READY)
    requires job.received == job.evidence.incoming.length
    ensures Holds(trust, silent, mem, job.(eof := true))
  {
    var after := job.(eof := true);
    Open(trust, silent, mem, job);
    AdmittedStays(trust, job, 2 + |job.input|, after, 2 + |job.input|);
    if job.phase == READY {
      ProvenOpen(trust, mem, job, 2 + |job.input|);
      ProvenOpen(trust, mem, after, 2 + |job.input|);
    }
    Open(trust, silent, mem, after);
  }

  lemma FaithfulToItself(trust: Trust, mem: seq<u8>, slot: u32)
    ensures Faithful(trust, mem, mem, slot, 2 + |mem|)
  {
    FaithfulOpen(trust, mem, mem, slot, 2 + |mem|);
  }

  /** A transaction that has just loaded its authority, or failed to. */
  lemma Begun(trust: Trust, silent: bool, mem: seq<u8>, job: Job, phase: Phase, slot: u32, authority: Snapshot,
              evidence: UploadEvidence)
    requires Holds(trust, silent, mem, job) && job.phase == NEW && phase in {HEADER, TERMINAL} && SlotValid(slot)
    requires phase == HEADER ==>
      && evidence.permitted == slot && authority.record.sequence as int + 2 <= UINT32_MAX as int
      && (Durable(mem).Some? ==> Durable(mem) == Some(authority))
    ensures Holds(trust, silent, mem, job.(phase := phase, slot := slot, authority := authority, evidence := evidence,
                                           start := mem, sound := Durable(mem).Some?))
  {
    var after := job.(phase := phase, slot := slot, authority := authority, evidence := evidence, start := mem,
                      sound := Durable(mem).Some?);
    Open(trust, silent, mem, job);
    FaithfulToItself(trust, mem, slot);
    Open(trust, silent, mem, after);
  }

  // ---- the calls that change the flash ----

  lemma ConfinedBySlot(start: seq<u8>, before: seq<u8>, after: seq<u8>, slot: u32)
    requires Confined(start, before, slot) && OnlySlot(before, after, slot)
    ensures Confined(start, after, slot)
  {}

  lemma ConfinedByStore(start: seq<u8>, before: seq<u8>, after: seq<u8>, slot: u32)
    requires Confined(start, before, slot) && SameOutside(before, after) && |before| >= METADATA_REGION
    ensures Confined(start, after, slot)
  {}

  lemma WordStaysInSlot(mem: seq<u8>, slot: u32, at: nat, bytes: seq<u8>, n: nat)
    requires SlotFirst(slot) <= at && at + 4 <= SlotFirst(slot) + SLOT_BYTES && |bytes| == 4
    ensures OnlySlot(mem, TornProgram(mem, at, bytes, n), slot)
  {}

  /** A change of the destination slot keeps the record in force and its truth, because that slot is empty in it. */
  lemma SlotTouched(trust: Trust, silent: bool, before: seq<u8>, after: seq<u8>, job: Job)
    requires Holds(trust, silent, before, job) && job.phase.Between(ERASE, VERIFY_IMAGE) && OnlySlot(before, after, job.slot)
    ensures Kept(trust, after, job) && Counted(job) && |after| == FLASH_BYTES && SlotValid(job.slot)
  {
    Open(trust, silent, before, job);
    AdmittedFacts(trust, job, 2 + |job.input|);
    FaithfulOpen(trust, job.start, before, job.slot, 2 + |job.start|);
    FaithfulOpen(trust, job.start, after, job.slot, 2 + |job.start|);
    ConfinedBySlot(job.start, before, after, job.slot);
    SlotIsNotMetadata(before, after, job.slot);
    if Truthful(trust, job.start) { TruthUnderSlotWrite(trust, before, after, job.slot); }
  }

  lemma SlotIsNotMetadata(before: seq<u8>, after: seq<u8>, slot: u32)
    requires OnlySlot(before, after, slot) && |before| == FLASH_BYTES && SlotValid(slot)
    ensures Durable(after) == Durable(before)
  {
    forall i | InMetadata(i) ensures after[i] == before[i] { assert !InSlot(slot, i); }
    DurableReadsMetadata(before, after);
  }

  lemma Halted(trust: Trust, silent: bool, mem: seq<u8>, job: Job)
    requires job.phase == TERMINAL && Counted(job) && Kept(trust, mem, job) && |mem| == FLASH_BYTES && SlotValid(job.slot)
    ensures Holds(trust, silent, mem, job)
  {
    Open(trust, silent, mem, job);
  }

  /** A command on the slot that failed, wherever it stopped. */
  lemma SlotFailed(trust: Trust, silent: bool, before: seq<u8>, after: seq<u8>, job: Job, failed: bool)
    requires Holds(trust, silent, before, job) && job.phase.Between(ERASE, VERIFY_IMAGE) && OnlySlot(before, after, job.slot)
    ensures Holds(trust, silent, after, job.(phase := TERMINAL, failed := failed))
  {
    SlotTouched(trust, silent, before, after, job);
    Halted(trust, silent, after, job.(phase := TERMINAL, failed := failed));
  }

  /** The manifest has been authenticated; the upload is admitted if its invalidation is. */
  lemma Authenticated(trust: Trust, silent: bool, mem: seq<u8>, job: Job)
    requires Holds(trust, silent, mem, job) && job.phase == AUTHENTICATE
    requires ManifestGood(trust, job.manifest, job.slot)
    ensures var e := job.evidence.(incoming := ManifestOf(job.manifest).value);
      && Holds(trust, silent, mem, job.(evidence := e))
      && (Invalidate(job.authority.record, e).Change? ==>
            Holds(trust, silent, mem, job.(evidence := e, proposal := Invalidate(job.authority.record, e).record,
                                           phase := INVALIDATE)))
  {
    var e := job.evidence.(incoming := ManifestOf(job.manifest).value);
    Open(trust, silent, mem, job);
    Open(trust, silent, mem, job.(evidence := e));
    assert job.manifest == job.Wire();
    ManifestFacts(job.manifest);
    if Invalidate(job.authority.record, e).Change? {
      var after := job.(evidence := e, proposal := Invalidate(job.authority.record, e).record, phase := INVALIDATE);
      InvalidatingOpen(trust, after, 2 + |job.input|);
      Open(trust, silent, mem, after);
    }
  }

  /** A replacement has been attempted: old or new, the truth is kept. */
  lemma StoreTouched(trust: Trust, before: seq<u8>, after: seq<u8>, job: Job, a: Action, r: StoreResult)
    requires Kept(trust, before, job) && job.phase != TERMINAL && |before| == FLASH_BYTES && SameOutside(before, after)
    requires job.sound ==> Outcome(before, after, job.authority, job.proposal, r)
    requires Apply(job.authority.record, a) == Change(job.proposal)
    requires !a.DoAccept? || (&& SlotValid(job.slot) && a == DoAccept(job.evidence, job.stored)
                              && job.evidence.incoming.slot == job.slot
                              && ManifestOf(WireAt(before, job.slot)) == Ok(job.evidence.incoming)
                              && job.evidence.incoming.length <= PAYLOAD_MAX
                              && ImageGood(trust, WireAt(before, job.slot), job.slot,
                                           Payload(before, job.slot, job.evidence.incoming.length)))
    ensures Kept(trust, after, job.(phase := TERMINAL))
    ensures r.Stored? && job.sound ==> Durable(after) == Some(r.snapshot)
  {
    FaithfulOpen(trust, job.start, before, job.slot, 2 + |job.start|);
    FaithfulOpen(trust, job.start, after, job.slot, 2 + |job.start|);
    ConfinedByStore(job.start, before, after, job.slot);
    if Truthful(trust, job.start) {
      if a.DoAccept? { TruthUnderAccept(trust, before, after, job.evidence, job.stored); }
      else { TruthUnderAction(trust, before, after, a); }
    }
  }

  /** What the proposed invalidation is, and what it admits. */
  lemma InvalidationFacts(trust: Trust, silent: bool, mem: seq<u8>, job: Job)
    requires Holds(trust, silent, mem, job) && job.phase == INVALIDATE
    ensures Counted(job) && Kept(trust, mem, job) && |mem| == FLASH_BYTES && SlotValid(job.slot)
    ensures job.evidence.permitted == job.slot && Invalidate(job.authority.record, job.evidence) == Change(job.proposal)
    ensures Destructible(job.proposal, job.evidence.running.manifest.slot, job.slot)
    ensures AdmittedMeaning(trust, job.Wire(), job.slot, job.proposal, job.evidence)
  {
    Open(trust, silent, mem, job);
    InvalidatingOpen(trust, job, 2 + |job.input|);
    InvalidationAdmits(job.authority.record, job.evidence, job.proposal);
  }

  /** The invalidation has been attempted. */
  lemma InvalidationTried(trust: Trust, silent: bool, before: seq<u8>, after: seq<u8>, job: Job, r: StoreResult)
    requires Holds(trust, silent, before, job) && job.phase == INVALIDATE && SameOutside(before, after)
    requires job.sound ==> Outcome(before, after, job.authority, job.proposal, r)
    ensures Holds(trust, silent, after, job.(phase := TERMINAL))
    ensures r.Stored? && r.snapshot.record == job.proposal ==>
      && Destructible(job.proposal, job.evidence.running.manifest.slot, job.slot)
      && Holds(trust, silent, after, job.(phase := ERASE, authority := r.snapshot, destination := job.slot, page := 0,
                                          failed := false))
  {
    InvalidationFacts(trust, silent, before, job);
    StoreTouched(trust, before, after, job, DoInvalidate(job.evidence), r);
    Halted(trust, silent, after, job.(phase := TERMINAL));
    if r.Stored? && r.snapshot.record == job.proposal { InvalidationDone(trust, silent, after, job, r.snapshot); }
  }

  lemma InvalidationDone(trust: Trust, silent: bool, mem: seq<u8>, job: Job, s: Snapshot)
    requires Counted(job) && job.phase == INVALIDATE && |mem| == FLASH_BYTES && SlotValid(job.slot)
    requires AdmittedMeaning(trust, job.Wire(), job.slot, s.record, job.evidence)
    requires job.sound ==> Durable(mem) == Some(s)
    requires Kept(trust, mem, job.(phase := TERMINAL))
    ensures Holds(trust, silent, mem, job.(phase := ERASE, authority := s, destination := job.slot, page := 0, failed := false))
  {
    var next := job.(phase := ERASE, authority := s, destination := job.slot, page := 0, failed := false);
    AdmittedOpen(trust, next, 2 + |job.input|);
    Open(trust, silent, mem, next);
  }

  lemma PageErased(trust: Trust, silent: bool, before: seq<u8>, after: seq<u8>, job: Job)
    requires Holds(trust, silent, before, job) && job.phase == ERASE && job.page < SLOT_PAGES
    requires !silent ==> after == TornErase(before, PageOf(job.slot, job.page), PAGE_BITS)
    requires OnlySlot(before, after, job.slot)
    ensures Holds(trust, silent, after, job.(page := job.page + 1))
  {
    SlotTouched(trust, silent, before, after, job);
    Open(trust, silent, before, job);
    if !silent { OnePage(before, after, job.slot, job.page); }
    AdmittedStays(trust, job, 2 + |job.input|, job.(page := job.page + 1), 2 + |job.input|);
    Open(trust, silent, after, job.(page := job.page + 1));
  }

  lemma Planned(trust: Trust, silent: bool, mem: seq<u8>, job: Job)
    requires Holds(trust, silent, mem, job) && job.phase == ERASE
    ensures job.destination == job.slot && !job.failed && job.page <= SLOT_PAGES && SlotValid(job.slot)
    ensures job.page == SLOT_PAGES ==> Holds(trust, silent, mem, job.(phase := PAYLOAD))
  {
    Open(trust, silent, mem, job);
    if job.page == SLOT_PAGES {
      if !silent { WholeSlot(mem, job.slot); }
      AdmittedStays(trust, job, 2 + |job.input|, job.(phase := PAYLOAD), 2 + |job.input|);
      Open(trust, silent, mem, job.(phase := PAYLOAD));
    }
  }

  /** A full word is at hand, and there is erased room for it. */
  lemma WordAtHand(trust: Trust, silent: bool, mem: seq<u8>, job: Job)
    requires Holds(trust, silent, mem, job) && job.phase == PAYLOAD && job.wordUsed == 4
    ensures SlotValid(job.slot) && job.evidence.incoming.base == SlotBase(job.slot) && |job.word| == 4
    ensures job.programmed as int + 4 <= PAYLOAD_MAX as int && job.programmed % 4 == 0
    ensures !silent ==> Erased(mem, SlotFirst(job.slot) + job.programmed, SlotFirst(job.slot) + job.programmed + 4)
  {
    Counts(trust, silent, mem, job);
    AdmittedFacts(trust, job, 2 + |job.input|);
    Open(trust, silent, mem, job);
  }

  lemma WordCounted(job: Job)
    requires Counted(job) && job.phase == PAYLOAD && job.wordUsed == 4 && job.programmed as int + 4 <= PAYLOAD_MAX as int
    ensures Counted(job.(programmed := job.programmed + 4, wordUsed := 0))
    ensures |job.input| >= job.manifestUsed + job.programmed + 4 && job.manifestUsed == MANIFEST_BYTES
    ensures job.word == job.input[job.manifestUsed + job.programmed..job.manifestUsed + job.programmed + 4]
  {
    var next := job.(programmed := job.programmed + 4, wordUsed := 0);
    assert job.word == job.word[..4];
    assert next.word[..0] == next.input[next.manifestUsed + next.programmed..];
  }

  lemma WordProgrammed(trust: Trust, silent: bool, before: seq<u8>, after: seq<u8>, job: Job)
    requires Holds(trust, silent, before, job) && job.phase == PAYLOAD && job.wordUsed == 4
    requires OnlySlot(before, after, job.slot) && job.programmed as int + 4 <= PAYLOAD_MAX as int
    requires !silent ==> Written(before, after, SlotFirst(job.slot) + job.programmed, job.word)
    ensures Holds(trust, silent, after, job.(programmed := job.programmed + 4, wordUsed := 0))
  {
    var next := job.(programmed := job.programmed + 4, wordUsed := 0);
    SlotTouched(trust, silent, before, after, job);
    WordCounted(job);
    Open(trust, silent, before, job);
    if !silent { PayloadFurther(before, after, job.slot, job.input, job.programmed, job.word); }
    AdmittedStays(trust, job, 2 + |job.input|, next, 2 + |job.input|);
    Open(trust, silent, after, next);
  }

  lemma PayloadComplete(trust: Trust, silent: bool, mem: seq<u8>, job: Job)
    requires Holds(trust, silent, mem, job) && job.phase == PAYLOAD && job.eof
    requires job.programmed == job.evidence.incoming.length
    ensures Holds(trust, silent, mem, job.(phase := WRITE_MANIFEST)) && job.programmed <= PAYLOAD_MAX
  {
    Open(trust, silent, mem, job);
    AdmittedFacts(trust, job, 2 + |job.input|);
    if !silent { PayloadDone(mem, job.slot, job.input, job.programmed); }
    AdmittedStays(trust, job, 2 + |job.input|, job.(phase := WRITE_MANIFEST), 2 + |job.input|);
    Open(trust, silent, mem, job.(phase := WRITE_MANIFEST));
  }

  /** Where the next word of the manifest goes. */
  lemma ManifestAtHand(trust: Trust, silent: bool, mem: seq<u8>, job: Job)
    requires Holds(trust, silent, mem, job) && job.phase == WRITE_MANIFEST
    ensures SlotValid(job.slot) && job.manifestProgrammed as int + 4 <= MANIFEST_BYTES && job.manifestProgrammed % 4 == 0
    ensures |job.manifest| == MANIFEST_BYTES
    ensures !silent ==>
      Erased(mem, ManifestFirst(job.slot) + job.manifestProgrammed, ManifestFirst(job.slot) + job.manifestProgrammed + 4)
  {
    Open(trust, silent, mem, job);
  }

  lemma ManifestPhase(trust: Trust, silent: bool, mem: seq<u8>, job: Job)
    requires Holds(trust, silent, mem, job) && job.phase == WRITE_MANIFEST
    ensures Admitted(trust, job, 2 + |job.input|) && Complete(job) && job.manifestProgrammed % 4 == 0
    ensures !silent ==> ManifestTo(mem, job.slot, job.input, job.evidence.incoming.length, job.manifestProgrammed)
  {
    Open(trust, silent, mem, job);
  }

  lemma ManifestCounted(job: Job)
    requires Counted(job) && job.phase == WRITE_MANIFEST && job.manifestProgrammed as int + 4 <= MANIFEST_BYTES
    ensures Counted(job.(manifestProgrammed := job.manifestProgrammed + 4, phase := VERIFY_IMAGE))
    ensures Counted(job.(manifestProgrammed := job.manifestProgrammed + 4))
  {}

  lemma ManifestGrows(before: seq<u8>, after: seq<u8>, job: Job)
    requires Counted(job) && job.phase == WRITE_MANIFEST && Complete(job) && |job.manifest| == MANIFEST_BYTES
    requires ManifestTo(before, job.slot, job.input, job.evidence.incoming.length, job.manifestProgrammed)
    requires job.manifestProgrammed as int + 4 <= MANIFEST_BYTES
    requires var n: nat := job.manifestProgrammed; Written(before, after, ManifestFirst(job.slot) + n, job.manifest[n..n + 4])
    ensures var n: nat := job.manifestProgrammed + 4;
      && ManifestTo(after, job.slot, job.input, job.evidence.incoming.length, n)
      && (n == MANIFEST_BYTES ==> Exact(after, job.slot, job.input))
  {
    var n: nat := job.manifestProgrammed;
    assert job.manifest == job.manifest[..MANIFEST_BYTES] == job.input[..MANIFEST_BYTES];
    SameSlice(job.input, n);
    ManifestFurther(before, after, job.slot, job.input, job.evidence.incoming.length, n, job.manifest[n..n + 4]);
    if n + 4 == MANIFEST_BYTES { ManifestToIsExact(after, job.slot, job.input, job.evidence.incoming.length); }
  }

  lemma ManifestProgrammed(trust: Trust, silent: bool, before: seq<u8>, after: seq<u8>, job: Job)
    requires Holds(trust, silent, before, job) && job.phase == WRITE_MANIFEST && |job.manifest| == MANIFEST_BYTES
    requires OnlySlot(before, after, job.slot) && job.manifestProgrammed as int + 4 <= MANIFEST_BYTES
    requires var n: nat := job.manifestProgrammed;
      !silent ==> Written(before, after, ManifestFirst(job.slot) + n, job.manifest[n..n + 4])
    ensures var n := job.manifestProgrammed + 4;
      Holds(trust, silent, after, job.(manifestProgrammed := n,
                                       phase := if n as int == MANIFEST_BYTES then VERIFY_IMAGE else WRITE_MANIFEST))
  {
    var n := job.manifestProgrammed;
    var next := job.(manifestProgrammed := n + 4,
                     phase := if n + 4 == MANIFEST_BYTES as u32 then VERIFY_IMAGE else WRITE_MANIFEST);
    SlotTouched(trust, silent, before, after, job);
    ManifestCounted(job);
    ManifestPhase(trust, silent, before, job);
    if !silent { ManifestGrows(before, after, job); }
    AdmittedStays(trust, job, 2 + |job.input|, next, 2 + |job.input|);
    Open(trust, silent, after, next);
  }

  lemma SameSlice(input: seq<u8>, n: nat)
    requires n + 4 <= MANIFEST_BYTES <= |input|
    ensures input[..MANIFEST_BYTES][n..n + 4] == input[n..n + 4]
  {}

  /** What is read back and verified is what the manifest received says, and its acceptance cannot be refused. */
  lemma ImageVerified(trust: Trust, silent: bool, mem: seq<u8>, job: Job, payload: seq<u8>)
    requires Holds(trust, silent, mem, job) && job.phase == VERIFY_IMAGE && SlotValid(job.slot) && |mem| == FLASH_BYTES
    requires WireAt(mem, job.slot) == job.manifest && ImageGood(trust, job.manifest, job.slot, payload)
    requires payload == Payload(mem, job.slot, ManifestOf(job.manifest).value.length)
    ensures var image := Verified(job.manifest, payload);
      && AcceptReady(job.authority.record, job.evidence, image).Change?
      && Holds(trust, silent, mem,
               job.(stored := image, proposal := AcceptReady(job.authority.record, job.evidence, image).record,
                    phase := READY))
  {
    var image := Verified(job.manifest, payload);
    VerifyFacts(trust, silent, mem, job);
    AcceptanceFollows(job.authority.record, job.evidence, trust, job.manifest, payload);
    var next := job.(stored := image, proposal := AcceptReady(job.authority.record, job.evidence, image).record,
                     phase := READY);
    AdmittedStays(trust, job, 2 + |job.input|, next, 2 + |job.input|);
    ProvenOpen(trust, mem, next, 2 + |job.input|);
    Open(trust, silent, mem, next);
  }

  lemma VerifyFacts(trust: Trust, silent: bool, mem: seq<u8>, job: Job)
    requires Holds(trust, silent, mem, job) && job.phase == VERIFY_IMAGE
    ensures Counted(job) && Counted(job.(phase := READY)) && Complete(job) && (!silent ==> Exact(mem, job.slot, job.input))
    ensures Kept(trust, mem, job) && Admitted(trust, job, 2 + |job.input|)
    ensures AdmittedMeaning(trust, job.Wire(), job.slot, job.authority.record, job.evidence) && job.manifest == job.Wire()
  {
    Open(trust, silent, mem, job);
    assert job.manifest == job.manifest[..MANIFEST_BYTES] == job.Wire();
    AdmittedOpen(trust, job, 2 + |job.input|);
  }

  /** What the verification of an input has to say. */
  ghost function Worth(trust: Trust, input: seq<u8>, slot: u32): ReceiveResult {
    if |input| >= MANIFEST_BYTES && ImageGood(trust, input[..MANIFEST_BYTES], slot, input[MANIFEST_BYTES..]) then RX_OK
    else RX_STORED
  }

  /** What was sent is stored before it is verified, so that the verification judges what was sent. */
  lemma SentIsStored(trust: Trust, mem: seq<u8>, job: Job)
    requires Holds(trust, false, mem, job) && job.phase == VERIFY_IMAGE && |job.manifest| == MANIFEST_BYTES
    ensures |mem| == FLASH_BYTES && SlotValid(job.slot) && |job.input| >= MANIFEST_BYTES
    ensures WireAt(mem, job.slot) == job.manifest == job.input[..MANIFEST_BYTES]
    ensures GoodAt(trust, mem, job.manifest, job.slot) <==> Worth(trust, job.input, job.slot) == RX_OK
  {
    Open(trust, false, mem, job);
    assert job.manifest == job.manifest[..MANIFEST_BYTES] == job.Wire();
    AdmittedFacts(trust, job, 2 + |job.input|);
    GoodOpen(trust, mem, job.manifest, job.slot);
  }

  /** The slot holds a verified image of what was sent, and the record in force names it as a READY candidate. */
  ghost predicate DeliveredMeaning(trust: Trust, silent: bool, mem: seq<u8>, job: Job, a: Acceptance) {
    var m := job.evidence.incoming;
    && |mem| == FLASH_BYTES && SlotValid(job.slot) && m.length <= PAYLOAD_MAX && |job.input| == MANIFEST_BYTES + m.length
    && ManifestOf(job.Wire()) == Ok(m) && WireAt(mem, job.slot) == job.Wire()
    && ImageGood(trust, job.Wire(), job.slot, Payload(mem, job.slot, m.length))
    && a.image == Verified(job.Wire(), Payload(mem, job.slot, m.length))
    && a.metadata.record.candidate == job.slot
    && a.metadata.record.Image(job.slot) == Entry(m.hash, m.release, m.length, READY_ACCOUNT, a.metadata.record.sequence)
    && (job.sound ==> Durable(mem) == Some(a.metadata))
    && (!silent ==> Exact(mem, job.slot, job.input))
  }

  /** The same, behind a descent as above. */
  ghost predicate Delivered(trust: Trust, silent: bool, mem: seq<u8>, job: Job, a: Acceptance) {
    DeliveredBehind(trust, silent, mem, job, a, 2 + |job.input|) == Yes
  }

  ghost function DeliveredBehind(trust: Trust, silent: bool, mem: seq<u8>, job: Job, a: Acceptance, depth: nat): Verdict {
    if depth != 0 then DeliveredBehind(trust, silent, mem, job, a, depth - 1)
    else if DeliveredMeaning(trust, silent, mem, job, a) then Yes else No
  }

  lemma {:induction false} DeliveredOpen(trust: Trust, silent: bool, mem: seq<u8>, job: Job, a: Acceptance, depth: nat)
    ensures DeliveredBehind(trust, silent, mem, job, a, depth) == Yes <==> DeliveredMeaning(trust, silent, mem, job, a)
  {
    if depth != 0 { DeliveredOpen(trust, silent, mem, job, a, depth - 1); }
  }

  /** What the proposed acceptance is, and what it rests on. */
  lemma AcceptanceFacts(trust: Trust, silent: bool, mem: seq<u8>, job: Job)
    requires Holds(trust, silent, mem, job) && job.phase == READY
    ensures Counted(job) && Kept(trust, mem, job) && Complete(job) && (!silent ==> Exact(mem, job.slot, job.input))
    ensures ProvenMeaning(trust, mem, job) && ManifestOf(job.Wire()) == Ok(job.evidence.incoming)
    ensures job.evidence.incoming.slot == job.slot
  {
    Open(trust, silent, mem, job);
    AdmittedOpen(trust, job, 2 + |job.input|);
    ProvenOpen(trust, mem, job, 2 + |job.input|);
  }

  lemma ReadyTried(trust: Trust, silent: bool, before: seq<u8>, after: seq<u8>, job: Job, r: StoreResult)
    requires Holds(trust, silent, before, job) && job.phase == READY && SameOutside(before, after)
    requires job.sound ==> Outcome(before, after, job.authority, job.proposal, r)
    ensures Holds(trust, silent, after, job.(phase := TERMINAL))
    ensures r.Stored? && r.snapshot.record == job.proposal ==>
      && Holds(trust, silent, after, job.(phase := TERMINAL, authority := r.snapshot))
      && Delivered(trust, silent, after, job.(phase := TERMINAL, authority := r.snapshot), Acceptance(r.snapshot, job.stored))
  {
    AcceptanceFacts(trust, silent, before, job);
    StoreTouched(trust, before, after, job, DoAccept(job.evidence, job.stored), r);
    Halted(trust, silent, after, job.(phase := TERMINAL));
    if r.Stored? && r.snapshot.record == job.proposal {
      Halted(trust, silent, after, job.(phase := TERMINAL, authority := r.snapshot));
      ReadyDelivers(trust, silent, before, after, job, r.snapshot);
    }
  }

  lemma AcceptedEntry(job: Job)
    requires AcceptReady(job.authority.record, job.evidence, job.stored) == Change(job.proposal)
    requires SlotValid(job.slot) && job.evidence.incoming.slot == job.slot
    ensures var m := job.evidence.incoming;
      && job.proposal.candidate == job.slot
      && job.proposal.Image(job.slot) == Entry(m.hash, m.release, m.length, READY_ACCOUNT, job.proposal.sequence)
  {
    AcceptReadyCloses(job.authority.record, job.evidence, job.stored);
  }

  lemma ReadyDelivers(trust: Trust, silent: bool, before: seq<u8>, after: seq<u8>, job: Job, s: Snapshot)
    requires Counted(job) && Complete(job) && (!silent ==> Exact(before, job.slot, job.input)) && job.phase == READY
    requires ProvenMeaning(trust, before, job) && ManifestOf(job.Wire()) == Ok(job.evidence.incoming)
    requires job.evidence.incoming.slot == job.slot
    requires SameOutside(before, after) && s.record == job.proposal && (job.sound ==> Durable(after) == Some(s))
    ensures Delivered(trust, silent, after, job.(phase := TERMINAL, authority := s), Acceptance(s, job.stored))
  {
    AcceptedEntry(job);
    SlotSurvives(before, after, job.slot, job.evidence.incoming.length);
    DeliveredOpen(trust, silent, after, job.(phase := TERMINAL, authority := s), Acceptance(s, job.stored), 2 + |job.input|);
  }

  lemma SlotSurvives(before: seq<u8>, after: seq<u8>, slot: u32, length: u32)
    requires SameOutside(before, after) && |before| == FLASH_BYTES && SlotValid(slot) && length <= PAYLOAD_MAX
    ensures WireAt(before, slot) == WireAt(after, slot) && Payload(before, slot, length) == Payload(after, slot, length)
  {}

  /** Before and after a transaction the metadata may be changed by others who keep it true. */
  lemma OthersMayCommit(trust: Trust, silent: bool, before: seq<u8>, after: seq<u8>, job: Job)
    requires Holds(trust, silent, before, job) && job.phase in {NEW, TERMINAL} && SameOutside(before, after)
    requires Truthful(trust, before) ==> Truthful(trust, after)
    ensures Holds(trust, silent, after, job)
  {
    Open(trust, silent, before, job);
    Open(trust, silent, after, job);
    if job.phase == TERMINAL {
      FaithfulOpen(trust, job.start, before, job.slot, 2 + |job.start|);
      FaithfulOpen(trust, job.start, after, job.slot, 2 + |job.start|);
      ConfinedByStore(job.start, before, after, job.slot);
    }
  }

  /** The transaction's own fields, without its buffers and its erase plan. */
  datatype State = State(
    phase: Phase, failedPhase: Phase, failure: ReceiveResult, permitted: u32, authority: Snapshot, evidence: UploadEvidence,
    proposal: Metadata, stored: VerifiedImage, manifestUsed: nat, wordUsed: nat, received: u32, programmed: u32,
    manifestProgrammed: u32, eof: bool)
  {
    function Stopped(result: ReceiveResult): State {
      this.(failedPhase := phase, failure := result, phase := TERMINAL)
    }

    /** One more word of the manifest; the last one completes it. */
    function WordWritten(): State {
      var n := manifestProgrammed as int + 4;
      if n > UINT32_MAX as int then this
      else this.(manifestProgrammed := n, phase := if n == MANIFEST_BYTES then VERIFY_IMAGE else WRITE_MANIFEST)
    }
  }

  class Receiver {
    const trust: Trust
    const dev: Device
    const observer: Observer
    const plan: Plan
    const manifest: array<u8>
    const word: array<u8>
    var state: State
    /** Every byte accepted so far. */
    ghost var input: seq<u8>
    /** The memory when the transaction began, and whether its store was durable then. */
    ghost var start: seq<u8>
    ghost var sound: bool

    ghost function View(): Job
      reads this, plan, manifest, word
    {
      Job(state.phase, state.permitted, state.authority, state.evidence, state.proposal, state.stored, manifest[..],
          state.manifestUsed, word[..], state.wordUsed, state.received, state.programmed, state.manifestProgrammed, state.eof,
          plan.destination, plan.page, plan.failed, input, start, sound)
    }

    ghost predicate Shape()
      reads dev, observer.watchdog
    {
      Shaped() == Yes
    }

    ghost function Shaped(): Verdict
      reads dev, observer.watchdog
    {
      if && dev.Sized() && !dev.fabricatedReads && observer.watchdog.Valid()
         && manifest.Length == MANIFEST_BYTES && word.Length == 4
         && manifest != word && manifest != dev.mem && word != dev.mem then Yes else No
    }

    ghost predicate Valid()
      reads this, dev, dev.mem, observer.watchdog, plan, manifest, word
    {
      ValidBehind(2 + manifest.Length) == Yes
    }

    /** The invariant, behind a descent as above (see ValidOpen). */
    ghost function ValidBehind(depth: nat): (v: Verdict)
      reads this, dev, dev.mem, observer.watchdog, plan, manifest, word
      decreases depth
      ensures v == Yes ==> Shape()
    {
      if depth != 0 then ValidBehind(depth - 1)
      else if Shape() && Holds(trust, dev.Silent(), dev.Memory(), View()) then Yes else No
    }

    lemma {:induction false} ValidDescent(depth: nat)
      ensures ValidBehind(depth) == Yes <==> Shape() && Holds(trust, dev.Silent(), dev.Memory(), View())
    {
      if depth != 0 { ValidDescent(depth - 1); }
    }

    lemma ValidOpen()
      ensures Valid() <==> Shape() && Holds(trust, dev.Silent(), dev.Memory(), View())
    {
      ValidDescent(2 + manifest.Length);
    }

    /** Whatever has been done, it has come to this transaction. */
    lemma Close(job: Job)
      requires Shape() && Holds(trust, dev.Silent(), dev.Memory(), job) && View() == job
      ensures Valid()
    {
      ValidOpen();
    }

    /** What the counters say. */
    lemma Tally()
      requires Valid()
      ensures state.wordUsed <= 4 == word.Length && state.manifestUsed <= MANIFEST_BYTES == manifest.Length
      ensures |input| == state.manifestUsed + state.received
      ensures state.phase == HEADER ==> state.manifestUsed < MANIFEST_BYTES
      ensures state.phase.Between(AUTHENTICATE, READY) ==> state.manifestUsed == MANIFEST_BYTES
      ensures state.phase.Between(PAYLOAD, READY) ==> state.received <= state.evidence.incoming.length <= PAYLOAD_MAX
      ensures state.phase.Rank() <= ERASE.Rank() ==> state.received == 0 && !state.eof
      ensures state.phase == NEW ==> input == []
    {
      ValidOpen();
      Counts(trust, dev.Silent(), dev.Memory(), View());
    }

    lemma SlotKnown()
      requires Valid() && state.phase != NEW
      ensures SlotValid(state.permitted)
    {
      ValidOpen();
      Counts(trust, dev.Silent(), dev.Memory(), View());
    }

    /** The payload phase has nothing to program and more is to come. */
    predicate Starved()
      reads this
    {
      state.wordUsed != 4 && !(state.eof && state.programmed == state.evidence.incoming.length)
    }

    /** How many steps may still succeed before the transaction is over. */
    ghost function Remaining(): int
      reads this, plan
    {
      match state.phase
      case AUTHENTICATE => SLOT_PAGES + PAYLOAD_MAX as int / 4 + 50
      case INVALIDATE => SLOT_PAGES + PAYLOAD_MAX as int / 4 + 49
      case ERASE => SLOT_PAGES - plan.page + PAYLOAD_MAX as int / 4 + 48
      case PAYLOAD => (PAYLOAD_MAX - state.programmed) / 4 + 46
      case WRITE_MANIFEST => (MANIFEST_BYTES - state.manifestProgrammed as int) / 4 + 4
      case VERIFY_IMAGE => 3
      case READY => 2
      case _ => 0
    }

    /** What the invariant says, whatever calls were made and however they were interleaved. */
    lemma ValidMeans()
      requires Valid() && state.phase != NEW
      ensures state.received as int == state.programmed as int + state.wordUsed
      ensures |input| == state.manifestUsed + state.received && sound == Durable(start).Some?
      ensures state.manifestUsed <= manifest.Length && manifest[..state.manifestUsed] == input[..state.manifestUsed]
      ensures sound && state.phase != TERMINAL ==> Durable(dev.Memory()) == Some(state.authority)
      ensures FaithfulMeaning(trust, start, dev.Memory(), state.permitted)
    {
      ValidOpen();
      Open(trust, dev.Silent(), dev.Memory(), View());
      FaithfulOpen(trust, start, dev.Memory(), state.permitted, 2 + |start|);
    }

    constructor (trust: Trust, dev: Device, observer: Observer)
      requires dev.Sized() && !dev.fabricatedReads && observer.watchdog.Valid()
      ensures Valid() && state.phase == NEW && input == []
      ensures this.trust == trust && this.dev == dev && this.observer == observer
      ensures fresh(manifest) && fresh(word) && fresh(plan)
    {
      this.trust, this.dev, this.observer := trust, dev, observer;
      plan := new Plan();
      manifest := new u8[MANIFEST_BYTES](_ => 0);
      word := new u8[4](_ => 0);
      state := State(NEW, NEW, RX_OK, SLOT_A, Snapshot(NO_METADATA, 0), UploadEvidence(NO_MANIFEST, NO_IMAGE, 0),
                     NO_METADATA, NO_IMAGE, 0, 0, 0, 0, 0, false);
      input, start, sound := [], [], false;
      new;
      Open(trust, dev.Silent(), dev.Memory(), View());
      ValidOpen();
    }

    method Stop(result: ReceiveResult) returns (r: ReceiveResult)
      requires Valid() && state.phase != NEW
      modifies this`state
      ensures Valid() && r == result && state == old(state).Stopped(result)
    {
      ValidOpen();
      Stopping(trust, dev.Silent(), dev.Memory(), View());
      state := state.Stopped(result);
      ValidOpen();
      return result;
    }

    /** boot_receive_begin. */
    method Begin(slot: u32, running: Option<VerifiedImage>) returns (result: ReceiveResult)
      requires Valid()
      modifies this, dev
      ensures Valid() && input == old(input)
      ensures result == RX_CONSUMED <==> old(state.phase) == TERMINAL
      ensures result == RX_BUSY <==> old(state.phase) !in {NEW, TERMINAL}
      ensures result == RX_ARGUMENT <==> old(state.phase) == NEW && !SlotValid(slot)
      ensures result in {RX_CONSUMED, RX_BUSY, RX_ARGUMENT} ==> state.phase == old(state.phase) && start == old(start)
      ensures result !in {RX_CONSUMED, RX_BUSY, RX_ARGUMENT} ==> start == dev.Memory() && state.permitted == slot
      ensures result == RX_OK <==> old(state.phase) == NEW && state.phase == HEADER
      ensures result !in {RX_CONSUMED, RX_BUSY, RX_ARGUMENT, RX_OK} ==> state.phase == TERMINAL
      ensures result == RX_OK ==> running.Some? && state.evidence.running == running.value
      ensures (&& dev.faults == old(dev.faults) && !old(dev.blocked) && Durable(dev.Memory()).Some?) ==>
        result in {RX_CONSUMED, RX_BUSY, RX_ARGUMENT} || result == Opening(Durable(dev.Memory()).value.record, running)
    {
      if state.phase != NEW { return if state.phase == TERMINAL then RX_CONSUMED else RX_BUSY; }
      if slot > SLOT_B { return RX_ARGUMENT; }
      result := Start(slot, running);
    }

    method Start(slot: u32, running: Option<VerifiedImage>) returns (result: ReceiveResult)
      requires Valid() && state.phase == NEW && SlotValid(slot)
      modifies this, dev
      ensures Valid() && input == old(input)
      ensures result in {RX_OK, RX_AUTHORITY, RX_RECONCILE, RX_EXHAUSTED, RX_RUNNING}
      ensures start == dev.Memory() && state.permitted == slot
      ensures state.phase == if result == RX_OK then HEADER else TERMINAL
      ensures result == RX_OK ==> running.Some? && state.evidence.running == running.value
      ensures (&& dev.faults == old(dev.faults) && !old(dev.blocked) && Durable(dev.Memory()).Some?) ==>
        result == Opening(Durable(dev.Memory()).value.record, running)
    {
      ValidOpen();
      result := Admit(slot, running);
      if result != RX_OK { state := state.Stopped(result); }
      Opened(old(View()));
    }

    lemma Opened(job: Job)
      requires Shape() && Holds(trust, dev.Silent(), dev.Memory(), job) && job.phase == NEW && SlotValid(state.permitted)
      requires start == dev.Memory() && sound == Durable(start).Some? && state.phase in {HEADER, TERMINAL}
      requires state.phase == HEADER ==>
        && state.evidence.permitted == state.permitted && state.authority.record.sequence as int + 2 <= UINT32_MAX as int
        && (sound ==> Durable(start) == Some(state.authority))
      requires View() == job.(phase := state.phase, slot := state.permitted, authority := state.authority, evidence := state.evidence,
                              start := start, sound := sound)
      ensures Valid()
    {
      Begun(trust, dev.Silent(), dev.Memory(), job, state.phase, state.permitted, state.authority, state.evidence);
      ValidOpen();
    }

    /** What begin does once its arguments are admitted: the store is loaded, two sequence numbers are set aside, and
        the running evidence is collected by a callback that may read the flash. */
    method Admit(slot: u32, running: Option<VerifiedImage>) returns (result: ReceiveResult)
      requires Shape() && SlotValid(slot)
      modifies this`state, this`start, this`sound, dev
      ensures state == old(state).(phase := HEADER, permitted := slot, authority := state.authority, evidence := state.evidence)
      ensures state.phase == HEADER && state.permitted == slot && start == dev.Memory() && sound == Durable(start).Some?
      ensures result in {RX_OK, RX_AUTHORITY, RX_RECONCILE, RX_EXHAUSTED, RX_RUNNING}
      ensures result == RX_OK ==>
        && running.Some? && state.evidence.running == running.value && state.evidence.permitted == state.permitted
        && state.authority.record.sequence as int + 2 <= UINT32_MAX as int
        && (sound ==> Durable(start) == Some(state.authority))
      ensures dev.faults == old(dev.faults) && !old(dev.blocked) && sound ==>
        result == Opening(Durable(start).value.record, running)
    {
      state := state.(permitted := slot, phase := HEADER);
      start := dev.Memory();
      sound := Durable(start).Some?;
      if sound { DurableLoads(start); }
      var loaded := LoadStore(dev);
      if loaded.Failed? { return if dev.blocked then RX_RECONCILE else RX_AUTHORITY; }
      state := state.(authority := loaded.snapshot);
      if state.authority.record.sequence as int > UINT32_MAX as int - 2 { return RX_EXHAUSTED; }
      var looks: bool := *;
      if looks {
        var at: nat := *;
        var n: nat := *;
        var ok, bytes; ghost var lie;
        ok, bytes, lie := dev.Read(at, n);
      }
      if running.None? { return if dev.blocked then RX_RECONCILE else RX_RUNNING; }
      state := state.(evidence := UploadEvidence(state.evidence.incoming, running.value, state.permitted));
      return RX_OK;
    }

    /** boot_receive_feed. */
    method Feed(bytes: seq<u8>) returns (result: ReceiveResult, accepted: nat)
      requires Valid()
      modifies this, manifest, word
      ensures Valid() && start == old(start) && accepted <= |bytes|
      ensures input == old(input) + bytes[..accepted]
      ensures result in {RX_OK, RX_LENGTH, RX_CONSUMED, RX_ARGUMENT, RX_WAIT}
      ensures result == RX_CONSUMED <==> old(state.phase) == TERMINAL
      ensures result == RX_ARGUMENT <==> old(state.phase) == NEW
      ensures result == RX_LENGTH <==>
        && old(state.phase) !in {NEW, TERMINAL} && bytes != []
        && (old(state.eof) || (old(state.phase).Rank() >= PAYLOAD.Rank()
                         && |old(input)| + |bytes| > MANIFEST_BYTES + old(state.evidence.incoming.length) as int))
      ensures if result == RX_OK && bytes != []
              then accepted == Min(|bytes|, if old(state.phase) == HEADER then MANIFEST_BYTES - old(state.manifestUsed) else 4 - old(state.wordUsed))
                   && accepted > 0
              else accepted == 0
      ensures result == RX_WAIT ==>
        old(state.phase) !in {NEW, HEADER, TERMINAL} && bytes != [] && (old(state.phase) == PAYLOAD ==> old(state.wordUsed) == 4)
      ensures state.phase == (if result == RX_LENGTH then TERMINAL
                        else if old(state.phase) == HEADER && state.manifestUsed == MANIFEST_BYTES then AUTHENTICATE else old(state.phase))
    {
      accepted := 0;
      Tally();
      if state.phase == TERMINAL { return RX_CONSUMED, 0; }
      if state.phase == NEW { return RX_ARGUMENT, 0; }
      if bytes == [] { return RX_OK, 0; }
      if state.eof || (state.phase.Rank() >= PAYLOAD.Rank() && |bytes| > state.evidence.incoming.length - state.received) {
        result := Stop(RX_LENGTH);
        return;
      }
      if state.phase == HEADER {
        accepted := FeedHeader(bytes);
      } else if state.phase == PAYLOAD {
        if state.wordUsed == 4 { return RX_WAIT, 0; }
        accepted := FeedWord(bytes);
      } else {
        return RX_WAIT, 0;
      }
      return RX_OK, accepted;
    }

    method FeedHeader(bytes: seq<u8>) returns (accepted: nat)
      requires Valid() && state.phase == HEADER && bytes != []
      modifies this`state, this`input, manifest
      ensures Valid() && 0 < accepted <= |bytes| && input == old(input) + bytes[..accepted]
      ensures state.phase == if state.manifestUsed == MANIFEST_BYTES then AUTHENTICATE else HEADER
      ensures accepted == Min(|bytes|, MANIFEST_BYTES - old(state.manifestUsed))
      ensures state == old(state).(manifestUsed := old(state.manifestUsed) + accepted, phase := state.phase)
    {
      Tally();
      accepted := Min(MANIFEST_BYTES - state.manifestUsed, |bytes|);
      BufferHeader(bytes[..accepted]);
      var used := state.manifestUsed + accepted;
      state := state.(manifestUsed := used, phase := if used == MANIFEST_BYTES then AUTHENTICATE else HEADER);
      input := input + bytes[..accepted];
      ValidOpen();
    }

    method BufferHeader(bytes: seq<u8>)
      requires Valid() && state.phase == HEADER && state.manifestUsed + |bytes| <= MANIFEST_BYTES
      modifies manifest
      ensures Shape() && Holds(trust, dev.Silent(), dev.Memory(),
        old(View()).(manifest := manifest[..], manifestUsed := state.manifestUsed + |bytes|, input := input + bytes,
                     phase := if state.manifestUsed + |bytes| == MANIFEST_BYTES then AUTHENTICATE else HEADER))
    {
      Tally();
      ValidOpen();
      Copy(manifest, state.manifestUsed, bytes);
      HeaderFed(trust, dev.Silent(), dev.Memory(), old(View()), bytes, manifest[..]);
    }

    method FeedWord(bytes: seq<u8>) returns (accepted: nat)
      requires Valid() && state.phase == PAYLOAD && bytes != [] && state.wordUsed < 4 && !state.eof
      requires |bytes| <= state.evidence.incoming.length as int - state.received as int
      modifies this`state, this`input, word
      ensures Valid() && 0 < accepted <= |bytes| && input == old(input) + bytes[..accepted]
      ensures accepted == Min(|bytes|, 4 - old(state.wordUsed))
      ensures state == old(state).(wordUsed := old(state.wordUsed) + accepted, received := old(state.received) + accepted)
    {
      Tally();
      ValidOpen();
      accepted := Min(4 - state.wordUsed, |bytes|);
      Copy(word, state.wordUsed, bytes[..accepted]);
      WordFed(trust, dev.Silent(), dev.Memory(), old(View()), bytes[..accepted], word[..]);
      state := state.(wordUsed := state.wordUsed + accepted, received := state.received + accepted);
      input := input + bytes[..accepted];
      Close(old(View()).(word := word[..], wordUsed := state.wordUsed, input := input, received := state.received));
    }

    /** boot_receive_eof. */
    method Eof() returns (result: ReceiveResult)
      requires Valid()
      modifies this
      ensures Valid() && input == old(input) && start == old(start)
      ensures result in {RX_OK, RX_LENGTH, RX_CONSUMED, RX_ARGUMENT}
      ensures result == RX_CONSUMED <==> old(state.phase) == TERMINAL
      ensures result == RX_ARGUMENT <==> old(state.phase) == NEW
      ensures result == RX_OK <==>
        old(state.phase).Between(PAYLOAD, READY) && |input| == MANIFEST_BYTES + old(state.evidence.incoming.length) as int
      ensures result == RX_OK ==> state.eof
      ensures state.phase == if result == RX_LENGTH then TERMINAL else old(state.phase)
    {
      Tally();
      if state.phase == TERMINAL { return RX_CONSUMED; }
      if state.phase == NEW { return RX_ARGUMENT; }
      if state.manifestUsed != MANIFEST_BYTES || state.phase.Rank() < PAYLOAD.Rank() || state.received != state.evidence.incoming.length {
        result := Stop(RX_LENGTH);
        return;
      }
      ValidOpen();
      Ended(trust, dev.Silent(), dev.Memory(), View());
      state := state.(eof := true);
      ValidOpen();
      return RX_OK;
    }

    /** boot_receive_abort. */
    method Abort() returns (result: ReceiveResult)
      requires Valid()
      modifies this
      ensures Valid() && input == old(input) && start == old(start)
      ensures result == if old(state.phase) == TERMINAL then RX_CONSUMED else if old(state.phase) == NEW then RX_ARGUMENT else RX_ABORTED
      ensures state.phase == if old(state.phase) == NEW then NEW else TERMINAL
    {
      if state.phase == TERMINAL { return RX_CONSUMED; }
      if state.phase == NEW { return RX_ARGUMENT; }
      result := Stop(RX_ABORTED);
    }

    // ---- step, one action for each phase ----

    method CheckManifest() returns (status: VerifyStatus, incoming: Option<Manifest>)
      requires Valid()
      modifies dev, observer.watchdog, observer.watchdog.io
      ensures Valid() && dev.faults >= old(dev.faults) && dev.blocked == old(dev.blocked)
      ensures status == VERIFY_OK ==>
        ManifestGood(trust, manifest[..], state.permitted) && incoming == Some(ManifestOf(manifest[..]).value)
      ensures dev.faults == old(dev.faults) && SlotValid(state.permitted) && old(Attended(observer, manifest[..], 0)) ==>
        (status == VERIFY_OK <==> ManifestGood(trust, manifest[..], state.permitted))
    {
      ValidOpen();
      status, incoming := VerifyManifest(trust, observer, manifest[..], state.permitted, 0);
      if status == VERIFY_CRYPTO { dev.faults := dev.faults + 1; }
      ValidOpen();
    }

    /** Authentication, then the proposal of an invalidation. */
    method StepAuthenticate() returns (result: ReceiveResult)
      requires Valid() && state.phase == AUTHENTICATE
      modifies this`state
      modifies dev, observer.watchdog, observer.watchdog.io
      ensures state.permitted == old(state.permitted)
      ensures Valid() && dev.faults >= old(dev.faults)
      ensures result in {RX_OK, RX_MANIFEST, RX_ADMISSION}
      ensures state.phase == if result == RX_OK then INVALIDATE else TERMINAL
      ensures result != RX_MANIFEST ==>
        ManifestGood(trust, manifest[..], state.permitted) && (result == RX_OK <==> Invalidate(state.authority.record, state.evidence).Change?)
      ensures dev.faults == old(dev.faults) && old(Attended(observer, manifest[..], 0)) ==>
        (result == RX_MANIFEST <==> !ManifestGood(trust, manifest[..], state.permitted))
    {
      ValidOpen();
      Counts(trust, dev.Silent(), dev.Memory(), View());
      var status, incoming := CheckManifest();
      if status != VERIFY_OK {
        result := Stop(RX_MANIFEST);
        return;
      }
      Propose(incoming.value);
      if state.phase == INVALIDATE { return RX_OK; }
      result := Stop(RX_ADMISSION);
    }

    method Propose(incoming: Manifest)
      requires Valid() && state.phase == AUTHENTICATE
      requires ManifestGood(trust, manifest[..], state.permitted) && incoming == ManifestOf(manifest[..]).value
      modifies this`state
      ensures Valid()
      ensures state.phase == if Invalidate(state.authority.record, state.evidence).Change? then INVALIDATE else AUTHENTICATE
      ensures state.permitted == old(state.permitted)
    {
      ValidOpen();
      Authenticated(trust, dev.Silent(), dev.Memory(), View());
      state := state.(evidence := UploadEvidence(incoming, state.evidence.running, state.evidence.permitted));
      var invalidated := Invalidate(state.authority.record, state.evidence);
      if invalidated.Change? { state := state.(proposal := invalidated.record, phase := INVALIDATE); }
      ValidOpen();
    }

    /** The replacement that invalidates the slot or accepts its image. */
    method ReplaceRecord() returns (r: StoreResult)
      requires Valid() && state.phase in {INVALIDATE, READY}
      modifies dev, dev.mem
      ensures SameOutside(old(dev.Memory()), dev.Memory())
      ensures sound ==> Outcome(old(dev.Memory()), dev.Memory(), state.authority, state.proposal, r)
      ensures r.Stored? ==> state.authority.page <= 1 && r.snapshot == Snapshot(state.proposal, 1 - state.authority.page)
      ensures dev.faults >= old(dev.faults)
      ensures dev.faults == old(dev.faults) && !old(dev.blocked) && sound ==> r.Stored?
    {
      ValidOpen();
      ReplacementDue(trust, dev.Silent(), dev.Memory(), View());
      r := Replace(dev, state.authority, state.proposal);
    }

    method StoreFailed(status: StoreStatus) returns (result: ReceiveResult)
      modifies this`state
      ensures state == old(state).Stopped(result)
      ensures result == if status == UNCERTAIN || dev.blocked then RX_RECONCILE else RX_STORE
    {
      result := if status == UNCERTAIN || dev.blocked then RX_RECONCILE else RX_STORE;
      state := state.Stopped(result);
    }

    /** The durable invalidation, which always admits the erase plan. */
    method StepInvalidate() returns (result: ReceiveResult)
      requires Valid() && state.phase == INVALIDATE
      modifies this`state, plan, dev, dev.mem
      ensures state.permitted == old(state.permitted)
      ensures Valid()
      ensures result in {RX_OK, RX_STORE, RX_RECONCILE}
      ensures state.phase == if result == RX_OK then ERASE else TERMINAL
      ensures dev.faults == old(dev.faults) && !old(dev.blocked) && sound ==> result == RX_OK
    {
      ValidOpen();
      var r := ReplaceRecord();
      InvalidationTried(trust, dev.Silent(), old(dev.Memory()), dev.Memory(), old(View()), r);
      if r.Failed? {
        result := StoreFailed(r.status);
        ValidOpen();
        return;
      }
      state := state.(authority := r.snapshot);
      var admitted := plan.Begin(state.authority, state.evidence.running.manifest.slot, state.permitted);
      if !admitted { assert false; }
      state := state.(phase := ERASE);
      ValidOpen();
      return RX_OK;
    }

    /** A command on the slot has failed, wherever it stopped. */
    method FlashFailed(ghost before: seq<u8>, ghost job: Job) returns (result: ReceiveResult)
      requires Shape() && Holds(trust, dev.Silent(), before, job) && job.phase.Between(ERASE, VERIFY_IMAGE)
      requires OnlySlot(before, dev.Memory(), job.slot) && View() == job.(failed := plan.failed)
      modifies this`state
      ensures Valid() && state == old(state).Stopped(result)
      ensures result == if dev.blocked then RX_RECONCILE else RX_FLASH
    {
      SlotFailed(trust, dev.Silent(), before, dev.Memory(), job, plan.failed);
      result := if dev.blocked then RX_RECONCILE else RX_FLASH;
      state := state.Stopped(result);
      ValidOpen();
    }

    method StepErase() returns (result: ReceiveResult)
      requires Valid() && state.phase == ERASE
      modifies this`state, plan, dev, dev.mem
      ensures state.permitted == old(state.permitted)
      ensures Valid()
      ensures result in {RX_OK, RX_FLASH, RX_RECONCILE}
      ensures if result == RX_OK then state.phase in {ERASE, PAYLOAD} else state.phase == TERMINAL
      ensures result == RX_OK ==> state.programmed == old(state.programmed) && Remaining() < old(Remaining())
      ensures dev.faults == old(dev.faults) && !old(dev.blocked) ==> result == RX_OK
    {
      ValidOpen();
      Planned(trust, dev.Silent(), old(dev.Memory()), old(View()));
      var status := plan.Step(dev);
      if status == PLAN_DONE {
        state := state.(phase := PAYLOAD);
        ValidOpen();
        return RX_OK;
      }
      PageStaysInSlot(old(dev.Memory()), dev.Memory(), state.permitted, old(plan.page));
      if status == PLAN_OK {
        PageErased(trust, dev.Silent(), old(dev.Memory()), dev.Memory(), old(View()));
        ValidOpen();
        return RX_OK;
      }
      result := FlashFailed(old(dev.Memory()), old(View()));
    }

    /** boot_flash_program of one word of the slot. */
    method ProgramSlot(at: nat, bytes: seq<u8>) returns (ok: bool)
      requires dev.Sized() && SlotValid(state.permitted) && |bytes| == 4 && at % 4 == 0
      requires SlotFirst(state.permitted) <= at && at + 4 <= SlotFirst(state.permitted) + SLOT_BYTES
      modifies dev, dev.mem
      ensures OnlySlot(old(dev.Memory()), dev.Memory(), state.permitted)
      ensures ok && !dev.Silent() && Erased(old(dev.Memory()), at, at + 4) ==>
        Written(old(dev.Memory()), dev.Memory(), at, bytes)
      ensures dev.faults >= old(dev.faults)
      ensures dev.faults == old(dev.faults) && !old(dev.blocked) && Erased(old(dev.Memory()), at, at + 4) ==> ok
    {
      PutOfGet(bytes, 0);
      assert bytes[0..4] == bytes;
      if Erased(dev.Memory(), at, at + 4) { ErasedWord(dev.Memory(), at, bytes); }
      ghost var done;
      ok, done := dev.Program(FLASH_FIRST + at, Get32(bytes, 0));
      WordStaysInSlot(old(dev.Memory()), state.permitted, at, bytes, done);
    }

    method StepPayload() returns (result: ReceiveResult)
      requires Valid() && state.phase == PAYLOAD
      modifies this`state, dev, dev.mem
      ensures state.permitted == old(state.permitted)
      ensures Valid()
      ensures result in {RX_OK, RX_WAIT, RX_FLASH, RX_RECONCILE}
      ensures if result in {RX_OK, RX_WAIT} then state.phase in {PAYLOAD, WRITE_MANIFEST} else state.phase == TERMINAL
      ensures result == RX_WAIT <==> old(Starved())
      ensures result == RX_OK ==> Remaining() < old(Remaining())
      ensures result == RX_WAIT ==> dev.Memory() == old(dev.Memory())
      ensures dev.faults == old(dev.faults) && !old(dev.blocked) && !dev.Silent() ==> result in {RX_OK, RX_WAIT}
    {
      if state.wordUsed == 4 {
        result := ProgramPayload();
        if result != RX_OK { return; }
      } else {
        result := RX_WAIT;
      }
      if state.eof && state.programmed == state.evidence.incoming.length {
        ValidOpen();
        PayloadComplete(trust, dev.Silent(), dev.Memory(), View());
        state := state.(phase := WRITE_MANIFEST);
        ValidOpen();
        result := RX_OK;
      }
    }

    /** One payload word from the buffer to the flash. */
    method ProgramWord() returns (ok: bool)
      requires Valid() && state.phase == PAYLOAD && state.wordUsed == 4
      modifies dev, dev.mem
      ensures SlotValid(state.permitted) && state.programmed as int + 4 <= PAYLOAD_MAX as int
      ensures Shape() && OnlySlot(old(dev.Memory()), dev.Memory(), state.permitted)
      ensures ok && !dev.Silent() ==>
        Written(old(dev.Memory()), dev.Memory(), SlotFirst(state.permitted) + state.programmed, word[..])
      ensures dev.faults >= old(dev.faults)
      ensures dev.faults == old(dev.faults) && !old(dev.blocked) && !dev.Silent() ==> ok
    {
      ValidOpen();
      WordAtHand(trust, dev.Silent(), dev.Memory(), View());
      ok := ProgramSlot(state.evidence.incoming.base - FLASH_FIRST + state.programmed, word[..]);
    }

    method ProgramPayload() returns (result: ReceiveResult)
      requires Valid() && state.phase == PAYLOAD && state.wordUsed == 4
      modifies this`state, dev, dev.mem
      ensures Valid() && result in {RX_OK, RX_FLASH, RX_RECONCILE} && old(state.programmed) as int + 4 <= PAYLOAD_MAX as int
      ensures state == if result == RX_OK then old(state).(programmed := old(state.programmed) + 4, wordUsed := 0)
                       else old(state).Stopped(result)
      ensures dev.faults >= old(dev.faults)
      ensures dev.faults == old(dev.faults) && !old(dev.blocked) && !dev.Silent() ==> result == RX_OK
    {
      ValidOpen();
      var ok := ProgramWord();
      if ok {
        WordProgrammed(trust, dev.Silent(), old(dev.Memory()), dev.Memory(), old(View()));
        state := state.(programmed := state.programmed + 4, wordUsed := 0);
        Close(old(View()).(programmed := state.programmed, wordUsed := 0));
        result := RX_OK;
      } else {
        result := FlashFailed(old(dev.Memory()), old(View()));
      }
    }

    /** One word of the manifest to the flash. */
    method ProgramManifest() returns (ok: bool)
      requires Valid() && state.phase == WRITE_MANIFEST
      modifies dev, dev.mem
      ensures SlotValid(state.permitted) && state.manifestProgrammed as int + 4 <= MANIFEST_BYTES == manifest.Length
      ensures Shape() && OnlySlot(old(dev.Memory()), dev.Memory(), state.permitted)
      ensures ok && !dev.Silent() ==> var n: nat := state.manifestProgrammed;
        Written(old(dev.Memory()), dev.Memory(), ManifestFirst(state.permitted) + n, manifest[n..n + 4])
      ensures dev.faults == old(dev.faults) && !old(dev.blocked) && !dev.Silent() ==> ok
    {
      ValidOpen();
      ManifestAtHand(trust, dev.Silent(), dev.Memory(), View());
      var n: nat := state.manifestProgrammed;
      ok := ProgramSlot(ManifestFirst(state.permitted) + n, manifest[n..n + 4]);
    }

    /** The last word completes the manifest. */
    method StepManifest() returns (result: ReceiveResult)
      requires Valid() && state.phase == WRITE_MANIFEST
      modifies this`state, dev, dev.mem
      ensures Valid() && result in {RX_OK, RX_FLASH, RX_RECONCILE} && old(state.manifestProgrammed) as int + 4 <= MANIFEST_BYTES
      ensures state == if result == RX_OK then old(state).WordWritten() else old(state).Stopped(result)
      ensures dev.faults == old(dev.faults) && !old(dev.blocked) && !dev.Silent() ==> result == RX_OK
    {
      ValidOpen();
      var ok := ProgramManifest();
      if ok {
        ManifestProgrammed(trust, dev.Silent(), old(dev.Memory()), dev.Memory(), old(View()));
        state := state.WordWritten();
        Close(old(View()).(manifestProgrammed := state.manifestProgrammed, phase := state.phase));
        result := RX_OK;
      } else {
        result := FlashFailed(old(dev.Memory()), old(View()));
      }
    }

    /** Exact readback of the manifest, then the independent verification of the stored image. */
    method StepVerify() returns (result: ReceiveResult)
      requires Valid() && state.phase == VERIFY_IMAGE
      modifies this`state, dev
      modifies observer.watchdog, observer.watchdog.io
      ensures state.permitted == old(state.permitted)
      ensures Valid()
      ensures result in {RX_OK, RX_FLASH, RX_RECONCILE, RX_STORED}
      ensures state.phase == if result == RX_OK then READY else TERMINAL
      ensures dev.faults >= old(dev.faults)
      ensures (&& dev.faults == old(dev.faults) && !old(dev.blocked) && !dev.Silent()
               && old(Attended(observer, manifest[..], 0))) ==> result == Worth(trust, input, state.permitted)
    {
      ValidOpen();
      if !dev.Silent() { SentIsStored(trust, dev.Memory(), View()); }
      var ok, same := ReadBack();
      if !ok {
        result := Stop(if dev.blocked then RX_RECONCILE else RX_FLASH);
        return;
      }
      if !same {
        result := Stop(RX_STORED);
        return;
      }
      result := Judge();
    }

    /** The verification of what is stored, which decides. */
    method Judge() returns (result: ReceiveResult)
      requires Valid() && state.phase == VERIFY_IMAGE && WireAt(dev.Memory(), state.permitted) == manifest[..]
      modifies this`state, dev, observer.watchdog, observer.watchdog.io
      ensures Valid() && state.permitted == old(state.permitted)
      ensures result in {RX_OK, RX_RECONCILE, RX_STORED} && state.phase == if result == RX_OK then READY else TERMINAL
      ensures dev.faults >= old(dev.faults)
      ensures dev.faults == old(dev.faults) && !old(dev.blocked) && old(Attended(observer, manifest[..], 0)) ==>
        result == if GoodAt(trust, dev.Memory(), manifest[..], state.permitted) then RX_OK else RX_STORED
    {
      SlotKnown();
      var ok, image; ghost var payload;
      ok, image, payload := VerifyImage();
      if ok {
        ProposeReady(image, payload);
        return RX_OK;
      }
      result := Stop(if dev.blocked then RX_RECONCILE else RX_STORED);
    }

    method ReadBack() returns (ok: bool, same: bool)
      requires Valid() && state.phase == VERIFY_IMAGE
      modifies dev
      ensures Valid() && SlotValid(state.permitted)
      ensures ok && same ==> WireAt(dev.Memory(), state.permitted) == manifest[..]
      ensures dev.faults >= old(dev.faults)
      ensures dev.faults == old(dev.faults) && !old(dev.blocked) ==>
        ok && !dev.blocked && (same <==> WireAt(dev.Memory(), state.permitted) == manifest[..])
    {
      ValidOpen();
      Counts(trust, dev.Silent(), dev.Memory(), View());
      var wire; ghost var lie;
      ok, wire, lie := dev.Read(SlotManifest(state.permitted), MANIFEST_BYTES);
      same := ok && wire == manifest[..];
      ValidOpen();
    }

    /** An image stored as sent and verified is always accepted by the lifecycle. */
    method ProposeReady(image: VerifiedImage, ghost payload: seq<u8>)
      requires Valid() && state.phase == VERIFY_IMAGE && SlotValid(state.permitted)
      requires WireAt(dev.Memory(), state.permitted) == manifest[..] && ImageGood(trust, manifest[..], state.permitted, payload)
      requires payload == Payload(dev.Memory(), state.permitted, ManifestOf(manifest[..]).value.length)
      requires image == Verified(manifest[..], payload)
      modifies this`state
      ensures Valid() && state.phase == READY && state.permitted == old(state.permitted)
    {
      ValidOpen();
      ImageVerified(trust, dev.Silent(), dev.Memory(), View(), payload);
      var accepted := AcceptReady(state.authority.record, state.evidence, image);
      if !accepted.Change? { assert false; }
      state := state.(stored := image, proposal := accepted.record, phase := READY);
      ValidOpen();
    }

    method VerifyImage() returns (ok: bool, image: VerifiedImage, ghost payload: seq<u8>)
      requires Valid() && SlotValid(state.permitted)
      modifies dev, observer.watchdog, observer.watchdog.io
      ensures Valid()
      ensures ok ==> ImageGood(trust, manifest[..], state.permitted, payload) && image == Verified(manifest[..], payload)
      ensures ok ==> payload == Payload(dev.Memory(), state.permitted, ManifestOf(manifest[..]).value.length)
      ensures dev.faults >= old(dev.faults) && (dev.faults == old(dev.faults) ==> dev.blocked == old(dev.blocked))
      ensures dev.faults == old(dev.faults) && !old(dev.blocked) && old(Attended(observer, manifest[..], 0)) ==>
        ok == GoodAt(trust, dev.Memory(), manifest[..], state.permitted)
    {
      ValidOpen();
      var status, found;
      status, found, payload := VerifyStored(trust, dev, observer, manifest[..], state.permitted, 0);
      ok, image := status == VERIFY_OK, found.GetOr(NO_IMAGE);
      ValidOpen();
    }

    /** The commit of READY: only here is an image accepted. */
    method StepReady() returns (result: ReceiveResult, acceptance: Option<Acceptance>)
      requires Valid() && state.phase == READY
      modifies this`state, dev, dev.mem
      ensures state.permitted == old(state.permitted)
      ensures Valid() && state.phase == TERMINAL
      ensures result in {RX_ACCEPTED, RX_STORE, RX_RECONCILE}
      ensures acceptance.Some? <==> result == RX_ACCEPTED
      ensures acceptance.Some? ==> Delivered(trust, dev.Silent(), dev.Memory(), View(), acceptance.value)
      ensures dev.faults == old(dev.faults) && !old(dev.blocked) && sound ==> result == RX_ACCEPTED
    {
      ValidOpen();
      var r := ReplaceRecord();
      ReadyTried(trust, dev.Silent(), old(dev.Memory()), dev.Memory(), old(View()), r);
      if r.Failed? {
        result := StoreFailed(r.status);
        ValidOpen();
        return result, None;
      }
      state := state.(authority := r.snapshot, phase := TERMINAL);
      assert View() == old(View()).(phase := TERMINAL, authority := r.snapshot);
      ValidOpen();
      return RX_ACCEPTED, Some(Acceptance(r.snapshot, state.stored));
    }

    /** The phases that write the slot. */
    method StepSlot() returns (result: ReceiveResult)
      requires Valid() && state.phase in {ERASE, PAYLOAD, WRITE_MANIFEST}
      modifies this`state, plan, dev, dev.mem
      ensures Valid() && state.permitted == old(state.permitted)
      ensures result in {RX_OK, RX_WAIT, RX_FLASH, RX_RECONCILE}
      ensures if result in {RX_OK, RX_WAIT} then state.phase in {old(state.phase), Next(old(state.phase))}
              else state.phase == TERMINAL
      ensures result == RX_WAIT <==> old(state.phase == PAYLOAD && Starved())
      ensures result == RX_OK ==> Remaining() < old(Remaining())
      ensures result == RX_WAIT ==> dev.Memory() == old(dev.Memory())
      ensures dev.faults == old(dev.faults) && !old(dev.blocked) && !dev.Silent() ==> result in {RX_OK, RX_WAIT}
    {
      if state.phase == ERASE {
        result := StepErase();
      } else if state.phase == PAYLOAD {
        result := StepPayload();
      } else {
        result := StepManifest();
      }
    }

    /** boot_receive_step. */
    method Step() returns (result: ReceiveResult, acceptance: Option<Acceptance>)
      requires Valid()
      modifies this, plan, dev, dev.mem, observer.watchdog, observer.watchdog.io
      ensures Valid() && input == old(input) && start == old(start) && sound == old(sound) && state.permitted == old(state.permitted)
      ensures result == RX_CONSUMED <==> old(state.phase) == TERMINAL
      ensures result == RX_ARGUMENT <==> old(state.phase) == NEW
      ensures state.phase == NEW <==> old(state.phase) == NEW
      ensures result in {RX_CONSUMED, RX_ARGUMENT, RX_WAIT} ==> dev.Memory() == old(dev.Memory())
      ensures acceptance.Some? <==> result == RX_ACCEPTED
      ensures acceptance.Some? ==> old(state.phase) == READY && state.phase == TERMINAL
      ensures acceptance.Some? ==> Delivered(trust, dev.Silent(), dev.Memory(), View(), acceptance.value)
      ensures result in {RX_OK, RX_WAIT} ==> state.phase in {old(state.phase), Next(old(state.phase))}
      ensures result !in {RX_OK, RX_WAIT, RX_ARGUMENT} ==> state.phase == TERMINAL
      ensures result == RX_ADMISSION ==> old(state.phase) == AUTHENTICATE
      ensures result == RX_WAIT <==> old(state.phase) == HEADER || old(state.phase == PAYLOAD && Starved())
      ensures result == RX_OK ==> Remaining() < old(Remaining())
      ensures dev.faults == old(dev.faults) && old(state.phase) == AUTHENTICATE && old(Attended(observer, manifest[..], 0)) ==>
        (result == RX_MANIFEST <==> !ManifestGood(trust, manifest[..], state.permitted))
      ensures (&& dev.faults == old(dev.faults) && !old(dev.blocked) && !dev.Silent()
               && old(state.phase) == VERIFY_IMAGE && old(Attended(observer, manifest[..], 0))) ==>
        result == Worth(trust, input, state.permitted)
      ensures (&& dev.faults == old(dev.faults) && !old(dev.blocked) && !dev.Silent() && sound
               && old(state.phase) !in {NEW, TERMINAL, AUTHENTICATE, VERIFY_IMAGE}) ==> result in {RX_OK, RX_WAIT, RX_ACCEPTED}
    {
      acceptance := None;
      match state.phase {
        case NEW => result := RX_ARGUMENT;
        case HEADER => result := RX_WAIT;
        case AUTHENTICATE => result := StepAuthenticate();
        case INVALIDATE => result := StepInvalidate();
        case VERIFY_IMAGE => result := StepVerify();
        case READY => result, acceptance := StepReady();
        case TERMINAL => result := RX_CONSUMED;
        case _ => result := StepSlot();
      }
    }
  }

  /** How a transaction begins when nothing fails. */
  function Opening(r: Metadata, running: Option<VerifiedImage>): ReceiveResult {
    if r.sequence as int + 2 > UINT32_MAX as int then RX_EXHAUSTED else if running.None? then RX_RUNNING else RX_OK
  }

  function Next(phase: Phase): Phase {
    match phase
    case NEW => HEADER
    case HEADER => AUTHENTICATE
    case AUTHENTICATE => INVALIDATE
    case INVALIDATE => ERASE
    case ERASE => PAYLOAD
    case PAYLOAD => WRITE_MANIFEST
    case WRITE_MANIFEST => VERIFY_IMAGE
    case VERIFY_IMAGE => READY
    case READY => TERMINAL
    case TERMINAL => TERMINAL
  }

  /** A replacement that is due is one the store does not reject. */
  lemma ReplacementDue(trust: Trust, silent: bool, mem: seq<u8>, job: Job)
    requires Holds(trust, silent, mem, job) && job.phase in {INVALIDATE, READY}
    ensures job.sound ==> Durable(mem) == Some(job.authority) && Rejected(job.authority, job.proposal).None?
  {
    if job.phase == INVALIDATE {
      InvalidationFacts(trust, silent, mem, job);
      InvalidateCloses(job.authority.record, job.evidence);
    } else {
      AcceptanceFacts(trust, silent, mem, job);
      AcceptReadyCloses(job.authority.record, job.evidence, job.stored);
    }
    if job.sound { DurableLoads(mem); }
  }

  lemma PageStaysInSlot(before: seq<u8>, after: seq<u8>, slot: u32, page: nat)
    requires SlotValid(slot) && page < SLOT_PAGES && SameBut(before, after, PageOf(slot, page), PAGE_BYTES)
    ensures OnlySlot(before, after, slot)
  {
    PageInSlot(slot, page);
  }
}
