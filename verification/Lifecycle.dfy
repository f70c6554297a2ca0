/** The seven transitions of the metadata record, and what every run of them keeps. */
module Lifecycle {
  import opened Bytes
  import opened Format

  datatype VerifiedImage = VerifiedImage(manifest: Manifest, msp: u32, reset: u32)

  datatype UploadEvidence = UploadEvidence(incoming: Manifest, running: VerifiedImage, permitted: u32)

  datatype ConfirmRequest = ConfirmRequest(slot: u32, hash: Hash, trialId: u32)

  datatype DeadlineRequest = DeadlineRequest(slot: u32, trialId: u32, reason: u32)

  datatype Resident = Resident(slot: u32, hash: Hash, release: u32, length: u32, trialId: u32)

  datatype CountedFailure = CountedFailure(identity: Resident, reason: u32, consumeIntent: u32)

  datatype VerifyStatus =
    | VERIFY_OK | VERIFY_ARGUMENT | VERIFY_FORMAT | VERIFY_TARGET | VERIFY_SIGNATURE | VERIFY_CRYPTO | VERIFY_READ
    | VERIFY_ABORTED | VERIFY_HASH | VERIFY_MSP | VERIFY_THUMB | VERIFY_VECTOR_RANGE

  datatype InvalidCurrent = InvalidCurrent(identity: Resident, failure: VerifyStatus)

  datatype Refusal = ARGUMENT | RECORD | ADMISSION | IDENTITY_REFUSED | IMAGE | EXHAUSTED_REFUSED | HEALTH

  datatype Result = Change(record: Metadata) | NoChange(record: Metadata) | Refused(why: Refusal)

  const HEALTH_REQUIRED: u32 := 7

  // ---- shared checks ----

  predicate ImageAdmissible(image: VerifiedImage) {
    match ImageSpan(image.manifest.slot, image.manifest.base, image.manifest.length)
    case Err(_) => false
    case Ok(end) =>
      image.msp == INITIAL_MSP && image.reset % 2 == 1 && image.manifest.base <= image.reset - 1 < end
  }

  function Admission(r: Metadata, e: UploadEvidence): Option<Refusal> {
    if !Valid(r) then Some(RECORD)
    else if ManifestValidate(e.incoming) != OK || !ImageAdmissible(e.running) then Some(IMAGE)
    else if e.permitted > SLOT_B || e.incoming.slot != e.permitted || r.current != e.running.manifest.slot
         || e.permitted == r.current || r.candidate != SLOT_NONE || !r.Confirmed(e.running.manifest.slot)
    then Some(ADMISSION)
    else if ImageMatches(r, e.running.manifest) != OK then Some(IDENTITY_REFUSED)
    else None
  }

  /** An upload is admitted exactly if the evidence names the confirmed current image as running, nothing is pending, and
      the manifest is for the other slot: what runs is never the destination. */
  lemma AdmissionMeaning(r: Metadata, e: UploadEvidence)
    ensures Admission(r, e).None? <==>
      var m := e.running.manifest;
      && Valid(r) && r.candidate == SLOT_NONE && SlotValid(r.current) && m.slot == r.current
      && ManifestValidate(e.incoming) == OK && e.incoming.slot == e.permitted == Other(r.current)
      && ImageAdmissible(e.running)
      && r.Image(m.slot).length == m.length && r.Image(m.slot).release == m.release && r.Image(m.slot).hash == m.hash
  {
    ValidMeaning(r);
  }

  /** Execution is refused to nothing but images that are inadmissible or that the record does not name. */
  lemma ExecutionMeaning(r: Metadata, image: VerifiedImage)
    ensures Execution(r, image).None? <==>
      var m := image.manifest;
      && Valid(r) && ImageAdmissible(image)
      && r.Image(m.slot).length == m.length && r.Image(m.slot).release == m.release && r.Image(m.slot).hash == m.hash
  {}

  function Execution(r: Metadata, image: VerifiedImage): Option<Refusal> {
    if !Valid(r) then Some(RECORD)
    else if !ImageAdmissible(image) then Some(IMAGE)
    else if ImageMatches(r, image.manifest) != OK then Some(IDENTITY_REFUSED)
    else None
  }

  function Finish(r: Metadata, proposal: Metadata): Result {
    match NextSequence(r)
    case Err(EXHAUSTED) => Refused(EXHAUSTED_REFUSED)
    case Err(_) => Refused(RECORD)
    case Ok(next) =>
      var p := proposal.(sequence := next);
      if Valid(p) then Change(p) else Refused(RECORD)
  }

  predicate ResidentMatches(r: Metadata, id: Resident) {
    id.slot <= SLOT_B &&
    var e := r.Image(id.slot);
    e.length != 0 && e.length == id.length && e.release == id.release && e.trialId == id.trialId && e.hash == id.hash
  }

  predicate InvalidImage(v: VerifyStatus) {
    v in {VERIFY_FORMAT, VERIFY_TARGET, VERIFY_SIGNATURE, VERIFY_HASH, VERIFY_MSP, VERIFY_THUMB, VERIFY_VECTOR_RANGE}
  }

  // ---- the transitions ----

  function Invalidate(r: Metadata, e: UploadEvidence): Result {
    match Admission(r, e)
    case Some(why) => Refused(why)
    case None =>
      var slot := e.permitted;
      var p := r.WithImage(slot, EMPTY_ENTRY).SetConfirmed(slot, false);
      var p := if p.previous == slot then p.(previous := SLOT_NONE) else p;
      var p := if p.current == slot then p.(current := SLOT_NONE) else p;
      var p := if p.candidate == slot then p.(candidate := SLOT_NONE) else p;
      Finish(r, p)
  }

  function AcceptReady(r: Metadata, e: UploadEvidence, stored: VerifiedImage): Result {
    match Admission(r, e)
    case Some(why) => Refused(why)
    case None =>
      var slot := e.permitted;
      if r.Image(slot).length != 0 then Refused(ADMISSION)
      else if !ImageAdmissible(stored) then Refused(IMAGE)
      else if stored.manifest != e.incoming then Refused(IDENTITY_REFUSED)
      else
        match NextSequence(r)
        case Err(_) => Refused(EXHAUSTED_REFUSED)
        case Ok(next) =>
          var entry := Entry(stored.manifest.hash, stored.manifest.release, stored.manifest.length, READY_ACCOUNT, next);
          Finish(r, r.WithImage(slot, entry).(candidate := slot))
  }

  function BeginTrial(r: Metadata, image: VerifiedImage): Result {
    match Execution(r, image)
    case Some(why) => Refused(why)
    case None =>
      var slot := image.manifest.slot;
      var entry := r.Image(slot);
      if r.candidate != slot then Refused(ADMISSION)
      else if entry.accounting.state == STATE_TRIAL then NoChange(r)
      else Finish(r, r.WithImage(slot, entry.(accounting := entry.accounting.(state := STATE_TRIAL))))
  }

  function Confirm(r: Metadata, request: ConfirmRequest, running: VerifiedImage, health: u32): Result {
    match Execution(r, running)
    case Some(why) => Refused(why)
    case None =>
      var slot := running.manifest.slot;
      var entry := r.Image(slot);
      if request.slot != slot || request.trialId != entry.trialId || request.hash != running.manifest.hash
      then Refused(IDENTITY_REFUSED)
      else if r.Confirmed(slot) then NoChange(r)
      else if r.candidate != slot || entry.accounting.state != STATE_TRIAL then Refused(ADMISSION)
      else if health != HEALTH_REQUIRED then Refused(HEALTH)
      else Finish(r, Granted(r, slot))
  }

  /** The trial is over, and its image is the confirmed current one. */
  function Granted(r: Metadata, slot: u32): Metadata {
    var entry := r.Image(slot);
    var p := r.WithImage(slot, entry.(accounting := entry.accounting.(state := STATE_NONE)));
    p.(previous := r.current, current := slot, candidate := SLOT_NONE).SetConfirmed(slot, true).ClearIntent()
  }

  /** The next reason field: it is still zero in every valid trial, so or-ing sets it. */
  function AppendReason(a: Accounting, reason: Bits3): Accounting
    requires a.count < 3
  {
    var b := a.(count := a.count + 1);
    if a.count == 0 then b.(reason1 := reason)
    else if a.count == 1 then b.(reason2 := reason)
    else b.(reason3 := reason)
  }

  function ApplyCountedFailure(r: Metadata, f: CountedFailure): Result {
    if !Valid(r) then Refused(RECORD)
    else if f.reason < REASON_WATCHDOG as int || f.reason > REASON_COMBINED as int || f.consumeIntent > 1
    then Refused(ARGUMENT)
    else if !ResidentMatches(r, f.identity) then Refused(IDENTITY_REFUSED)
    else
      var slot := f.identity.slot;
      var entry := r.Image(slot);
      var a := entry.accounting;
      if r.candidate != slot || r.Confirmed(slot) || a.state != STATE_TRIAL then Refused(ADMISSION)
      else if r.sequence == UINT32_MAX then Refused(EXHAUSTED_REFUSED)
      else
        TrialCount(r, slot);
        Finish(r, WithFailure(r, slot, f.reason, f.consumeIntent != 0))
  }

  /** One more failure in the slot's history; the third rejects the image and gives the candidate role up. */
  function WithFailure(r: Metadata, slot: u32, reason: Bits3, consume: bool): Metadata
    requires r.Image(slot).accounting.count < 3
  {
    var entry := r.Image(slot);
    var b := AppendReason(entry.accounting, reason);
    if entry.accounting.count == 2 then
      var b := b.(state := STATE_REJECTED, rollback := true);
      r.WithImage(slot, entry.(accounting := b)).(candidate := SLOT_NONE).ClearIntent()
    else
      var p := r.WithImage(slot, entry.(accounting := b));
      if consume then p.ClearIntent() else p
  }

  lemma TrialCount(r: Metadata, slot: u32)
    requires Valid(r) && SlotValid(slot) && r.Image(slot).length != 0
    requires r.Image(slot).accounting.state == STATE_TRIAL
    ensures r.Image(slot).accounting.count < 3
  {
    ValidMeaning(r);
  }

  function PromotePrevious(r: Metadata, invalid: InvalidCurrent, previous: VerifiedImage): Result {
    match Execution(r, previous)
    case Some(why) => Refused(why)
    case None =>
      if !InvalidImage(invalid.failure) then Refused(IMAGE)
      else if !ResidentMatches(r, invalid.identity) || r.current != invalid.identity.slot then Refused(IDENTITY_REFUSED)
      else if r.previous != previous.manifest.slot || r.candidate != SLOT_NONE then Refused(ADMISSION)
      else if r.sequence == UINT32_MAX then Refused(EXHAUSTED_REFUSED)
      else
        Finish(r, r.(current := r.previous, previous := SLOT_NONE).SetConfirmed(invalid.identity.slot, false))
  }

  function DeadlineIntent(r: Metadata, request: DeadlineRequest, running: VerifiedImage): Result {
    match Execution(r, running)
    case Some(why) => Refused(why)
    case None =>
      var slot := running.manifest.slot;
      var entry := r.Image(slot);
      if request.slot != slot || request.trialId != entry.trialId || request.reason != REASON_DEADLINE as int
      then Refused(IDENTITY_REFUSED)
      else if r.candidate != slot || entry.accounting.state != STATE_TRIAL then Refused(ADMISSION)
      else if r.intentKind == INTENT_DEADLINE && r.intentSlot == slot && r.intentTrialId == request.trialId then NoChange(r)
      else Finish(r, r.(intentKind := INTENT_DEADLINE, intentSlot := slot, intentTrialId := request.trialId))
  }

  // ---- closure: admission is enough, finish never refuses the proposal ----

  lemma InvalidateCloses(r: Metadata, e: UploadEvidence)
    requires Admission(r, e).None?
    ensures Invalidate(r, e) ==
      (if r.sequence == UINT32_MAX then Refused(EXHAUSTED_REFUSED) else Change(Invalidated(r, e.permitted)))
    ensures r.sequence < UINT32_MAX ==> Valid(Invalidated(r, e.permitted))
  {
    ValidMeaning(r);
    if r.sequence < UINT32_MAX { ValidMeaning(Invalidated(r, e.permitted)); }
  }

  /** The destination slot empty and without any role, everything else as it was. */
  function Invalidated(r: Metadata, slot: u32): Metadata
    requires SlotValid(slot) && r.sequence < UINT32_MAX
  {
    Metadata(r.sequence + 1, r.current, r.candidate, if r.previous == slot then SLOT_NONE else r.previous,
             OnlyOther(r, slot), if slot == SLOT_A then EMPTY_ENTRY else r.imageA,
             if slot == SLOT_B then EMPTY_ENTRY else r.imageB, r.intentKind, r.intentSlot, r.intentTrialId)
  }

  /** The confirmation mask without a slot. */
  function OnlyOther(r: Metadata, slot: u32): u32 {
    if slot == SLOT_A then (if r.Confirmed(SLOT_B) then 2 else 0) else (if r.Confirmed(SLOT_A) then 1 else 0)
  }

  lemma AcceptReadyCloses(r: Metadata, e: UploadEvidence, stored: VerifiedImage)
    ensures AcceptReady(r, e, stored).Change? <==>
      && Admission(r, e).None? && r.Image(e.permitted) == EMPTY_ENTRY && ImageAdmissible(stored)
      && stored.manifest == e.incoming && r.sequence < UINT32_MAX
    ensures AcceptReady(r, e, stored).Change? ==>
      && AcceptReady(r, e, stored).record == Accepted(r, stored.manifest)
      && Valid(Accepted(r, stored.manifest))
    ensures AcceptReady(r, e, stored) == Refused(RECORD) <==> !Valid(r)
  {
    ValidMeaning(r);
    if Admission(r, e).None? && stored.manifest == e.incoming && r.sequence < UINT32_MAX {
      ValidMeaning(Accepted(r, stored.manifest));
    }
  }

  /** The image installed as an unconfirmed candidate with no history, named by the accepting sequence. */
  function Accepted(r: Metadata, m: Manifest): Metadata
    requires SlotValid(m.slot) && r.sequence < UINT32_MAX
  {
    var entry := Entry(m.hash, m.release, m.length, READY_ACCOUNT, r.sequence + 1);
    Metadata(r.sequence + 1, r.current, m.slot, r.previous, r.confirmed, if m.slot == SLOT_A then entry else r.imageA,
             if m.slot == SLOT_B then entry else r.imageB, r.intentKind, r.intentSlot, r.intentTrialId)
  }

  lemma BeginTrialCloses(r: Metadata, image: VerifiedImage)
    ensures BeginTrial(r, image).Change? <==>
      && Execution(r, image).None? && r.candidate == image.manifest.slot
      && r.Image(image.manifest.slot).accounting == READY_ACCOUNT && r.sequence < UINT32_MAX
    ensures BeginTrial(r, image).Change? ==>
      var after := BeginTrial(r, image).record;
      && Valid(after) && after.sequence == r.sequence + 1
      && after == r.(sequence := after.sequence, imageA := after.imageA, imageB := after.imageB)
      && after.Image(r.candidate) == r.Image(r.candidate).(accounting := Accounting(STATE_TRIAL, 0, false, 0, 0, 0, 0))
      && after.Image(Other(r.candidate)) == r.Image(Other(r.candidate))
    ensures BeginTrial(r, image).NoChange? <==>
      && Execution(r, image).None? && r.candidate == image.manifest.slot
      && r.Image(image.manifest.slot).accounting.state == STATE_TRIAL
    ensures BeginTrial(r, image).NoChange? ==> BeginTrial(r, image).record == r
    ensures BeginTrial(r, image) == Refused(RECORD) <==> !Valid(r)
  {
    ValidMeaning(r);
    if Execution(r, image).None? && r.candidate == image.manifest.slot {
      var slot := image.manifest.slot;
      var entry := r.Image(slot);
      var p := r.WithImage(slot, entry.(accounting := entry.accounting.(state := STATE_TRIAL)));
      if r.sequence < UINT32_MAX { ValidMeaning(p.(sequence := r.sequence + 1)); }
      var a := entry.accounting;
      assert a.Reason(0) == a.reason1 && a.Reason(1) == a.reason2 && a.Reason(2) == a.reason3;
    }
  }

  lemma ConfirmCloses(r: Metadata, request: ConfirmRequest, running: VerifiedImage, health: u32)
    ensures var slot := running.manifest.slot;
      var admitted := && Execution(r, running).None? && request.slot == slot
                      && request.trialId == r.Image(slot).trialId && request.hash == r.Image(slot).hash;
      && (Confirm(r, request, running, health).NoChange? <==> admitted && r.Confirmed(slot))
      && (Confirm(r, request, running, health).Change? <==>
            && admitted && r.candidate == slot && r.Image(slot).accounting.state == STATE_TRIAL
            && health == HEALTH_REQUIRED && r.sequence < UINT32_MAX)
    ensures Confirm(r, request, running, health).NoChange? ==> Confirm(r, request, running, health).record == r
    ensures Confirm(r, request, running, health).Change? ==>
      var slot, after := request.slot, Confirm(r, request, running, health).record;
      && Valid(after) && after.sequence == r.sequence + 1
      && after.current == slot && after.previous == r.current && after.candidate == SLOT_NONE
      && after.Confirmed(slot) && after.Confirmed(Other(slot)) == r.Confirmed(Other(slot))
      && after.Image(slot) == r.Image(slot).(accounting := r.Image(slot).accounting.(state := STATE_NONE))
      && after.Image(Other(slot)) == r.Image(Other(slot)) && after.intentKind == INTENT_NONE
    ensures Confirm(r, request, running, health) == Refused(RECORD) <==> !Valid(r)
  {
    ExecutionMeaning(r, running);
    var slot := running.manifest.slot;
    if Valid(r) && SlotValid(slot) && r.candidate == slot { GrantedCloses(r, slot); }
  }

  lemma GrantedCloses(r: Metadata, slot: u32)
    requires Valid(r) && SlotValid(slot) && r.candidate == slot
    ensures !r.Confirmed(slot)
    ensures r.Image(slot).accounting.state == STATE_TRIAL && r.sequence < UINT32_MAX ==>
      var after := Granted(r, slot).(sequence := r.sequence + 1);
      && Valid(after) && after.current == slot && after.previous == r.current && after.candidate == SLOT_NONE
      && after.Confirmed(slot) && after.Confirmed(Other(slot)) == r.Confirmed(Other(slot))
      && after.Image(slot) == r.Image(slot).(accounting := r.Image(slot).accounting.(state := STATE_NONE))
      && after.Image(Other(slot)) == r.Image(Other(slot)) && after.intentKind == INTENT_NONE
  {
    ValidMeaning(r);
    ConfirmBits(r, slot);
    if r.sequence < UINT32_MAX { ValidMeaning(Granted(r, slot).(sequence := r.sequence + 1)); }
  }

  lemma ConfirmBits(r: Metadata, slot: u32)
    requires SlotValid(slot) && r.confirmed < 4
    ensures forall on {:trigger r.SetConfirmed(slot, on)} ::
      var after := r.SetConfirmed(slot, on);
      && after.confirmed < 4 && (after.Confirmed(slot) <==> on)
      && after.Confirmed(Other(slot)) == r.Confirmed(Other(slot))
  {}

  lemma CountedFailureCloses(r: Metadata, f: CountedFailure)
    ensures ApplyCountedFailure(r, f).Change? <==>
      && Valid(r) && REASON_WATCHDOG as int <= f.reason <= REASON_COMBINED as int && f.consumeIntent <= 1
      && ResidentMatches(r, f.identity) && r.candidate == f.identity.slot
      && r.Image(f.identity.slot).accounting.state == STATE_TRIAL && r.sequence < UINT32_MAX
    ensures ApplyCountedFailure(r, f).Change? ==>
      var slot, after := f.identity.slot, ApplyCountedFailure(r, f).record;
      var a, b := r.Image(slot).accounting, after.Image(slot).accounting;
      && Valid(after) && after.sequence == r.sequence + 1
      && after.current == r.current && after.previous == r.previous && after.confirmed == r.confirmed
      && after.Image(Other(slot)) == r.Image(Other(slot))
      && after.Image(slot) == r.Image(slot).(accounting := b)
      && b.count == a.count + 1 && b.Reason(a.count) == f.reason
      && (forall i :: 0 <= i < a.count ==> b.Reason(i) == a.Reason(i))
      && (b.count < 3 ==> b.state == STATE_TRIAL && after.candidate == slot)
      && (b.count == 3 ==> b.state == STATE_REJECTED && b.rollback && after.candidate == SLOT_NONE)
      && (if b.count == 3 || f.consumeIntent == 1 then after.intentKind == INTENT_NONE
          else after.intentKind == r.intentKind && after.intentTrialId == r.intentTrialId)
    ensures ApplyCountedFailure(r, f) == Refused(RECORD) <==> !Valid(r)
  {
    if Valid(r) && ResidentMatches(r, f.identity) && r.candidate == f.identity.slot
       && r.Image(f.identity.slot).accounting.state == STATE_TRIAL && r.sequence < UINT32_MAX && 1 <= f.reason <= 5 {
      FailureValid(r, f.identity.slot, f.reason, f.consumeIntent != 0);
      FailureEffect(r, f.identity.slot, f.reason, f.consumeIntent != 0);
    }
    ValidMeaning(r);
  }

  lemma Reasons(a: Accounting)
    ensures a.Reason(0) == a.reason1 && a.Reason(1) == a.reason2 && a.Reason(2) == a.reason3
  {}

  lemma FailureEffect(r: Metadata, slot: u32, reason: Bits3, consume: bool)
    requires SlotValid(slot) && r.Image(slot).accounting.count < 3
    ensures var after := WithFailure(r, slot, reason, consume);
      var a, b := r.Image(slot).accounting, after.Image(slot).accounting;
      && after.sequence == r.sequence && after.current == r.current && after.previous == r.previous
      && after.confirmed == r.confirmed && after.Image(Other(slot)) == r.Image(Other(slot))
      && after.Image(slot) == r.Image(slot).(accounting := b)
      && b.count == a.count + 1 && b.Reason(a.count) == reason
      && (forall i :: 0 <= i < a.count ==> b.Reason(i) == a.Reason(i))
      && (b.count < 3 ==> b.state == a.state && after.candidate == r.candidate)
      && (b.count == 3 ==> b.state == STATE_REJECTED && b.rollback && after.candidate == SLOT_NONE)
      && (if b.count == 3 || consume then after.intentKind == INTENT_NONE
          else after.intentKind == r.intentKind && after.intentTrialId == r.intentTrialId)
  {}

  lemma FailureValid(r: Metadata, slot: u32, reason: Bits3, consume: bool)
    requires Valid(r) && 1 <= reason <= 5 && SlotValid(slot) && r.candidate == slot
    requires r.Image(slot).accounting.state == STATE_TRIAL && r.sequence < UINT32_MAX
    ensures r.Image(slot).accounting.count < 3
    ensures Valid(WithFailure(r, slot, reason, consume).(sequence := r.sequence + 1))
  {
    ValidMeaning(r);
    FailureEffect(r, slot, reason, consume);
    var after := WithFailure(r, slot, reason, consume).(sequence := r.sequence + 1);
    Reasons(r.Image(slot).accounting);
    Reasons(after.Image(slot).accounting);
    FailureHistory(r.Image(slot).accounting, after.Image(slot).accounting, reason);
    ValidMeaning(after);
  }

  lemma FailureHistory(a: Accounting, b: Accounting, reason: Bits3)
    requires HistoryWellFormed(a) && a.state == STATE_TRIAL && 1 <= reason <= 5
    requires (a.count < 2 && b == AppendReason(a, reason))
          || (a.count == 2 && b == AppendReason(a, reason).(state := STATE_REJECTED, rollback := true))
    ensures HistoryWellFormed(b)
  {
    Reasons(a);
    Reasons(b);
  }

  lemma PromotePreviousCloses(r: Metadata, invalid: InvalidCurrent, previous: VerifiedImage)
    ensures PromotePrevious(r, invalid, previous).Change? <==>
      && Execution(r, previous).None? && InvalidImage(invalid.failure) && ResidentMatches(r, invalid.identity)
      && r.current == invalid.identity.slot && r.previous == previous.manifest.slot && r.candidate == SLOT_NONE
      && r.sequence < UINT32_MAX
    ensures PromotePrevious(r, invalid, previous).Change? ==>
      var after := PromotePrevious(r, invalid, previous).record;
      && Valid(after) && after.sequence == r.sequence + 1
      && after.current == r.previous == Other(r.current) && after.previous == SLOT_NONE && after.candidate == SLOT_NONE
      && !after.Confirmed(r.current) && after.imageA == r.imageA && after.imageB == r.imageB
    ensures PromotePrevious(r, invalid, previous) == Refused(RECORD) <==> !Valid(r)
  {
    ValidMeaning(r);
    if r.sequence < UINT32_MAX && Valid(r) && ResidentMatches(r, invalid.identity) {
      ConfirmBits(r.(current := r.previous, previous := SLOT_NONE), invalid.identity.slot);
      ValidMeaning(r.(current := r.previous, previous := SLOT_NONE).SetConfirmed(invalid.identity.slot, false)
                    .(sequence := r.sequence + 1));
    }
  }

  lemma DeadlineIntentCloses(r: Metadata, request: DeadlineRequest, running: VerifiedImage)
    ensures var slot := running.manifest.slot;
      var admitted := && Execution(r, running).None? && request.slot == slot && request.reason == REASON_DEADLINE as int
                      && request.trialId == r.Image(slot).trialId && r.candidate == slot
                      && r.Image(slot).accounting.state == STATE_TRIAL;
      && (DeadlineIntent(r, request, running).Change? <==>
            admitted && r.intentKind == INTENT_NONE && r.sequence < UINT32_MAX)
      && (DeadlineIntent(r, request, running).NoChange? <==> admitted && r.intentKind == INTENT_DEADLINE)
    ensures DeadlineIntent(r, request, running).NoChange? ==> DeadlineIntent(r, request, running).record == r
    ensures DeadlineIntent(r, request, running).Change? ==>
      var after := DeadlineIntent(r, request, running).record;
      && Valid(after)
      && after == r.(sequence := r.sequence + 1, intentKind := INTENT_DEADLINE, intentSlot := r.candidate,
                     intentTrialId := r.Image(r.candidate).trialId)
    ensures DeadlineIntent(r, request, running) == Refused(RECORD) <==> !Valid(r)
  {
    ValidMeaning(r);
    var slot := running.manifest.slot;
    if r.sequence < UINT32_MAX {
      ValidMeaning(r.(sequence := r.sequence + 1, intentKind := INTENT_DEADLINE, intentSlot := slot,
                      intentTrialId := request.trialId));
    }
  }
}
