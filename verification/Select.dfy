/** The choice of an image: candidate first, then the confirmed current, then the confirmed previous. */
module Select {
  import opened Bytes
  import opened Format
  import opened Codec
  import opened Flash
  import opened Store
  import opened Lifecycle
  import opened Verify
  import opened Launch

  datatype SelectStatus =
    | SELECT_OK | RECOVERY | SELECT_VERIFY_FAILED | SELECT_IDENTITY_FAILED | SELECT_LIFECYCLE_FAILED
    | SELECT_STORE_FAILED | SELECT_RECONCILE

  /** The manifest prefixes of both slots. */
  datatype Images = Images(wireA: seq<u8>, wireB: seq<u8>) {
    function Wire(slot: u32): seq<u8> {
      var w := if slot == SLOT_A then wireA else wireB;
      if |w| > MANIFEST_BYTES then w[..MANIFEST_BYTES] else w
    }
  }

  function FromStore(status: StoreStatus): SelectStatus {
    if status == UNCERTAIN then SELECT_RECONCILE
    else if status == NO_RECORD || status == CONFLICT then RECOVERY
    else SELECT_STORE_FAILED
  }

  predicate Confirmed(r: Metadata, slot: u32) { slot <= SLOT_B && r.Confirmed(slot) }

  /** The snapshot published is what a load finds, the image is the one its record names for a running role. */
  ghost predicate Published(trust: Trust, mem: seq<u8>, images: Images, d: LaunchDecision) {
    Publication(trust, mem, images, d) == Yes
  }

  ghost function Publication(trust: Trust, mem: seq<u8>, images: Images, d: LaunchDecision): Verdict {
    var r := d.snapshot.record;
    if && Durable(mem) == Some(d.snapshot)
       && ((&& SlotValid(r.candidate) && r.Image(r.candidate).accounting.state == STATE_TRIAL
            && Backed(trust, mem, images.Wire(r.candidate), r.candidate, d))
           || (Confirmed(r, r.current) && Backed(trust, mem, images.Wire(r.current), r.current, d))) then Yes else No
  }

  /** The transitions a selection may commit. */
  ghost predicate SelectStep(before: Option<Snapshot>, after: Option<Snapshot>) { Selected(before, after) == Yes }

  ghost function Selected(before: Option<Snapshot>, after: Option<Snapshot>): Verdict {
    if || TrialStep(before, after)
       || (before.Some? && after.Some? && exists invalid, previous ::
             PromotePrevious(before.value.record, invalid, previous) == Change(after.value.record))
    then Yes else No
  }

  /** The slot to run, from what the slots hold and the record says: a good candidate, or else the confirmed current
      image if it is good, or else the confirmed previous one. */
  ghost function Choice(trust: Trust, mem: seq<u8>, images: Images, r: Metadata): Option<u32> {
    if GoodAt(trust, mem, images.Wire(r.candidate), r.candidate) then Some(r.candidate)
    else ConfirmedChoice(trust, mem, images, r)
  }

  ghost function ConfirmedChoice(trust: Trust, mem: seq<u8>, images: Images, r: Metadata): Option<u32> {
    if !Confirmed(r, r.current) then None
    else if GoodAt(trust, mem, images.Wire(r.current), r.current) then Some(r.current)
    else if PreviousGood(trust, mem, images, r) then Some(r.previous)
    else None
  }

  ghost predicate PreviousGood(trust: Trust, mem: seq<u8>, images: Images, r: Metadata) {
    Confirmed(r, r.previous) && GoodAt(trust, mem, images.Wire(r.previous), r.previous)
  }

  /** Nothing but a fault keeps the slot from running. */
  predicate Runnable(r: Metadata, images: Images, slot: u32) {
    if slot == r.candidate then Startable(r, images.Wire(slot))
    else Named(r, images.Wire(slot)) && (slot == r.current || r.sequence < UINT32_MAX)
  }

  /** What the slots hold is not changed by changing the metadata. */
  lemma ChoiceKept(trust: Trust, before: seq<u8>, after: seq<u8>, images: Images, r: Metadata)
    requires SameOutside(before, after)
    ensures Choice(trust, before, images, r) == Choice(trust, after, images, r)
  {
    GoodKept(trust, before, after, images.Wire(r.candidate), r.candidate);
    GoodKept(trust, before, after, images.Wire(r.current), r.current);
    GoodKept(trust, before, after, images.Wire(r.previous), r.previous);
  }

  /** A selection without faults succeeds. */
  ghost predicate Bootable(trust: Trust, mem: seq<u8>, images: Images, r: Metadata) {
    Choice(trust, mem, images, r).Some? && Runnable(r, images, Choice(trust, mem, images, r).value)
  }

  /** The watchdog epochs that the verification of a role may take. */
  function Epochs(images: Images, slot: u32): nat { if SlotValid(slot) then Feeds(images.Wire(slot)) else 0 }

  function ConfirmedEpochs(images: Images, r: Metadata): nat { Epochs(images, r.current) + Epochs(images, r.previous) }

  function AllEpochs(images: Images, r: Metadata): nat { Epochs(images, r.candidate) + ConfirmedEpochs(images, r) }

  /** Each slot has one role at most. */
  lemma EpochsBound(images: Images, r: Metadata)
    requires Valid(r)
    ensures AllEpochs(images, r) <= Epochs(images, SLOT_A) + Epochs(images, SLOT_B)
  {
    ValidMeaning(r);
  }

  ghost predicate Watched(observer: Observer, epochs: nat, verifications: nat)
    reads observer, observer.watchdog, observer.watchdog.io
  {
    observer.Healthy(epochs) && observer.watchdog.verification as int + verifications <= UINT32_MAX as int
  }

  /** boot_select. */
  method SelectImage(trust: Trust, dev: Device, observer: Observer, expected: Snapshot, images: Images, ghost left: nat)
    returns (status: SelectStatus, decision: Option<LaunchDecision>)
    requires dev.Sized() && observer.watchdog.Valid()
    modifies dev, dev.mem, observer.watchdog, observer.watchdog.io
    ensures observer.watchdog.Valid()
    ensures SameOutside(old(dev.Memory()), dev.Memory())
    ensures decision.Some? <==> status == SELECT_OK
    ensures !dev.fabricatedReads && old(Durable(dev.Memory())).Some? ==>
      && SelectStep(old(Durable(dev.Memory())), Durable(dev.Memory()))
      && (decision.Some? ==> Published(trust, dev.Memory(), images, decision.value)
                             && old(Durable(dev.Memory())) == Some(expected))
      && (status !in {SELECT_OK, SELECT_RECONCILE} ==> Durable(dev.Memory()) == old(Durable(dev.Memory())))
      && (decision.Some? && decision.value.image.manifest.slot == expected.record.current ==>
            dev.Memory() == old(dev.Memory()))
      && (decision.Some? ==>
            old(Choice(trust, dev.Memory(), images, expected.record)) == Some(decision.value.image.manifest.slot))
      && (status == RECOVERY ==> old(Choice(trust, dev.Memory(), images, expected.record)) == None)
    ensures dev.faults >= old(dev.faults)
    ensures (&& dev.faults == old(dev.faults) && !old(dev.blocked) && old(Durable(dev.Memory())) == Some(expected)) ==>
      status !in {SELECT_STORE_FAILED, SELECT_RECONCILE}
    ensures (&& dev.faults == old(dev.faults) && !old(dev.blocked) && old(Durable(dev.Memory())) == Some(expected)
             && !dev.fabricatedReads
             && old(Watched(observer, left + AllEpochs(images, expected.record), 3))) ==>
      && (status == SELECT_OK <==> old(Bootable(trust, dev.Memory(), images, expected.record)))
      && (status == RECOVERY <==> old(Choice(trust, dev.Memory(), images, expected.record)) == None)
  {
    decision := None;
    var failure := Present(dev, expected);
    if failure.Some? { return failure.value, None; }
    var settled := false;
    if expected.record.candidate <= SLOT_B {
      settled, status, decision := SelectCandidate(trust, dev, observer, expected, images,
                                                   left + ConfirmedEpochs(images, expected.record));
    }
    if !settled { status, decision := SelectConfirmed(trust, dev, observer, expected, images, left); }
  }

  /** The snapshot must still be the authority. */
  method Present(dev: Device, expected: Snapshot) returns (failure: Option<SelectStatus>)
    requires dev.Sized()
    modifies dev
    ensures failure.None? ==>
      && expected.page <= 1 && Valid(expected.record) && !dev.blocked
      && (SlotValid(expected.record.candidate) ==> expected.record.candidate != expected.record.current)
    ensures failure in {None, Some(RECOVERY), Some(SELECT_STORE_FAILED)}
    ensures !dev.fabricatedReads && Durable(dev.Memory()).Some? ==>
      failure != Some(RECOVERY) && (failure.None? ==> Durable(dev.Memory()) == Some(expected))
    ensures dev.faults >= old(dev.faults)
    ensures dev.faults == old(dev.faults) && !old(dev.blocked) && Durable(dev.Memory()) == Some(expected) ==> failure.None?
  {
    if Durable(dev.Memory()).Some? { DurableLoads(dev.Memory()); }
    if expected.page > 1 || !Valid(expected.record) { return Some(SELECT_STORE_FAILED); }
    CandidateIsNotCurrent(expected.record);
    var failed := Recheck(dev, expected);
    return if failed.Some? then Some(FromStore(failed.value)) else None;
  }

  /** The candidate, unless it is shown to be bad. */
  method SelectCandidate(trust: Trust, dev: Device, observer: Observer, expected: Snapshot, images: Images, ghost left: nat)
    returns (settled: bool, status: SelectStatus, decision: Option<LaunchDecision>)
    requires dev.Sized() && observer.watchdog.Valid() && SlotValid(expected.record.candidate)
    requires !dev.fabricatedReads && Durable(dev.Memory()).Some? ==> Durable(dev.Memory()) == Some(expected)
    modifies dev, dev.mem, observer.watchdog, observer.watchdog.io
    ensures observer.watchdog.Valid()
    ensures SameOutside(old(dev.Memory()), dev.Memory())
    ensures decision.Some? <==> settled && status == SELECT_OK
    ensures !settled ==> dev.Memory() == old(dev.Memory())
    ensures !dev.fabricatedReads && old(Durable(dev.Memory())).Some? ==>
      && SelectStep(old(Durable(dev.Memory())), Durable(dev.Memory()))
      && (decision.Some? ==>
            && Published(trust, dev.Memory(), images, decision.value)
            && decision.value.image.manifest.slot == expected.record.candidate)
      && (settled && status != SELECT_OK && status != SELECT_RECONCILE ==> Durable(dev.Memory()) == old(Durable(dev.Memory())))
      && (settled ==> status != RECOVERY)
      && (decision.Some? || !settled ==>
            old(GoodAt(trust, dev.Memory(), images.Wire(expected.record.candidate), expected.record.candidate)) == settled)
    ensures dev.faults >= old(dev.faults)
    ensures (&& dev.faults == old(dev.faults) && !old(dev.blocked) && old(Durable(dev.Memory())) == Some(expected)) ==>
      if settled then status !in {SELECT_STORE_FAILED, SELECT_RECONCILE} else !dev.blocked
    ensures (&& dev.faults == old(dev.faults) && !old(dev.blocked) && old(Durable(dev.Memory())) == Some(expected)
             && !dev.fabricatedReads
             && old(Watched(observer, left + Epochs(images, expected.record.candidate), 3))) ==>
      && settled == old(GoodAt(trust, dev.Memory(), images.Wire(expected.record.candidate), expected.record.candidate))
      && (settled ==> (status == SELECT_OK <==> Startable(expected.record, images.Wire(expected.record.candidate))))
      && (!settled ==> Watched(observer, left, 2))
  {
    var slot := expected.record.candidate;
    var launch;
    launch, decision := LaunchCandidate(trust, dev, observer, expected, images.Wire(slot), left);
    GoodKept(trust, old(dev.Memory()), dev.Memory(), images.Wire(slot), slot);
    settled := launch.status != IMAGE_INVALID;
    status := match launch.status
      case LAUNCH_OK => SELECT_OK
      case STORE_FAILED => FromStore(launch.store.GetOr(StoreStatus.INVALID_RECORD))
      case RECONCILE => SELECT_RECONCILE
      case VERIFY_FAILED => SELECT_VERIFY_FAILED
      case _ => SELECT_LIFECYCLE_FAILED;
    if decision.Some? { TrialIsPublished(trust, dev.Memory(), images, slot, decision.value); }
  }

  lemma CandidateIsNotCurrent(r: Metadata)
    requires Valid(r)
    ensures SlotValid(r.candidate) ==> r.candidate != r.current && !r.Confirmed(r.candidate)
    ensures Confirmed(r, r.current) && Confirmed(r, r.previous) ==> r.candidate == SLOT_NONE && r.previous != r.current
  {
    ValidMeaning(r);
  }

  /** The confirmed current image, or the confirmed previous one once the current is shown to be bad. */
  method SelectConfirmed(trust: Trust, dev: Device, observer: Observer, current: Snapshot, images: Images, ghost left: nat)
    returns (status: SelectStatus, decision: Option<LaunchDecision>)
    requires dev.Sized() && observer.watchdog.Valid() && Valid(current.record) && current.page <= 1
    requires !dev.fabricatedReads && Durable(dev.Memory()).Some? ==> Durable(dev.Memory()) == Some(current)
    modifies dev, dev.mem, observer.watchdog, observer.watchdog.io
    ensures observer.watchdog.Valid()
    ensures SameOutside(old(dev.Memory()), dev.Memory())
    ensures decision.Some? <==> status == SELECT_OK
    ensures !dev.fabricatedReads && old(Durable(dev.Memory())).Some? ==>
      && SelectStep(old(Durable(dev.Memory())), Durable(dev.Memory()))
      && (decision.Some? ==> Published(trust, dev.Memory(), images, decision.value))
      && (status !in {SELECT_OK, SELECT_RECONCILE} ==> Durable(dev.Memory()) == old(Durable(dev.Memory())))
      && (decision.Some? && decision.value.image.manifest.slot == current.record.current ==>
            dev.Memory() == old(dev.Memory()))
      && (decision.Some? ==>
            old(ConfirmedChoice(trust, dev.Memory(), images, current.record)) == Some(decision.value.image.manifest.slot))
      && (status == RECOVERY ==> old(ConfirmedChoice(trust, dev.Memory(), images, current.record)) == None)
    ensures dev.faults >= old(dev.faults)
    ensures (&& dev.faults == old(dev.faults) && !old(dev.blocked) && old(Durable(dev.Memory())) == Some(current)) ==>
      status !in {SELECT_STORE_FAILED, SELECT_RECONCILE}
    ensures (&& dev.faults == old(dev.faults) && !old(dev.blocked) && old(Durable(dev.Memory())) == Some(current)
             && !dev.fabricatedReads && old(Watched(observer, left + ConfirmedEpochs(images, current.record), 2))) ==>
      match old(ConfirmedChoice(trust, dev.Memory(), images, current.record))
      case None => status == RECOVERY
      case Some(slot) => status == SELECT_OK <==> Runnable(current.record, images, slot)
  {
    decision := None;
    var r := current.record;
    var slot := r.current;
    if !Confirmed(r, slot) { return RECOVERY, None; }
    var verify, image; ghost var payload;
    verify, image, payload := VerifyStored(trust, dev, observer, images.Wire(slot), slot, left + Epochs(images, r.previous));
    CandidateIsNotCurrent(r);
    if verify == VERIFY_OK {
      status, decision := KeepCurrent(trust, dev, current, images, image.value, payload);
    } else if InvalidImage(verify) {
      status, decision := SelectPrevious(trust, dev, observer, current, images, verify, left);
    } else {
      status := SELECT_VERIFY_FAILED;
    }
  }

  /** The confirmed current image is good: nothing is changed. */
  method KeepCurrent(trust: Trust, dev: Device, current: Snapshot, images: Images, image: VerifiedImage, ghost payload: seq<u8>)
    returns (status: SelectStatus, decision: Option<LaunchDecision>)
    requires dev.Sized() && Confirmed(current.record, current.record.current)
    requires var r := current.record; var wire := images.Wire(r.current);
      && ImageGood(trust, wire, r.current, payload) && image == Verified(wire, payload)
      && (!dev.fabricatedReads ==>
            && GoodAt(trust, dev.Memory(), wire, r.current)
            && payload == Payload(dev.Memory(), r.current, ManifestOf(wire).value.length))
    modifies dev
    ensures decision.Some? <==> status == SELECT_OK
    ensures decision.Some? ==> decision.value.image.manifest.slot == current.record.current
    ensures !dev.fabricatedReads && Durable(dev.Memory()).Some? ==>
      status != RECOVERY && (decision.Some? ==> Published(trust, dev.Memory(), images, decision.value))
    ensures dev.faults >= old(dev.faults)
    ensures dev.faults == old(dev.faults) && !old(dev.blocked) && Durable(dev.Memory()) == Some(current) ==>
      status == if Named(current.record, images.Wire(current.record.current)) then SELECT_OK else SELECT_IDENTITY_FAILED
  {
    if ImageMatches(current.record, image.manifest) != OK { return SELECT_IDENTITY_FAILED, None; }
    var failure := Recheck(dev, current);
    if failure.Some? { return FromStore(failure.value), None; }
    return SELECT_OK, Some(LaunchDecision(image, current));
  }

  /** The previous image takes over only once its promotion is durable. */
  method SelectPrevious(trust: Trust, dev: Device, observer: Observer, current: Snapshot, images: Images,
                        failed: VerifyStatus, ghost left: nat)
    returns (status: SelectStatus, decision: Option<LaunchDecision>)
    requires dev.Sized() && observer.watchdog.Valid() && Valid(current.record) && current.page <= 1
    requires Confirmed(current.record, current.record.current) && InvalidImage(failed)
    requires !dev.fabricatedReads && Durable(dev.Memory()).Some? ==> Durable(dev.Memory()) == Some(current)
    modifies dev, dev.mem, observer.watchdog, observer.watchdog.io
    ensures observer.watchdog.Valid()
    ensures SameOutside(old(dev.Memory()), dev.Memory())
    ensures decision.Some? <==> status == SELECT_OK
    ensures decision.Some? ==>
      && Confirmed(current.record, current.record.previous)
      && decision.value.image.manifest.slot == current.record.previous != current.record.current
    ensures !dev.fabricatedReads && old(Durable(dev.Memory())).Some? ==>
      && SelectStep(old(Durable(dev.Memory())), Durable(dev.Memory()))
      && (decision.Some? ==> Published(trust, dev.Memory(), images, decision.value))
      && (status !in {SELECT_OK, SELECT_RECONCILE} ==> Durable(dev.Memory()) == old(Durable(dev.Memory())))
      && (decision.Some? ==> old(PreviousGood(trust, dev.Memory(), images, current.record)))
      && (status == RECOVERY ==> !old(PreviousGood(trust, dev.Memory(), images, current.record)))
    ensures dev.faults >= old(dev.faults)
    ensures (&& dev.faults == old(dev.faults) && !old(dev.blocked) && old(Durable(dev.Memory())) == Some(current)) ==>
      status !in {SELECT_STORE_FAILED, SELECT_RECONCILE}
    ensures (&& dev.faults == old(dev.faults) && !old(dev.blocked) && old(Durable(dev.Memory())) == Some(current)
             && !dev.fabricatedReads && old(Watched(observer, left + Epochs(images, current.record.previous), 1))) ==>
      if old(PreviousGood(trust, dev.Memory(), images, current.record))
      then status == SELECT_OK <==> Runnable(current.record, images, current.record.previous)
      else status == RECOVERY
  {
    decision := None;
    var r := current.record;
    var slot, previous := r.current, r.previous;
    CandidateIsNotCurrent(r);
    if !Confirmed(r, previous) || previous == slot || previous == r.candidate { return RECOVERY, None; }
    var wire := images.Wire(previous);
    var verify, image; ghost var payload;
    verify, image, payload := VerifyStored(trust, dev, observer, wire, previous, left);
    if verify != VERIFY_OK {
      return if InvalidImage(verify) then RECOVERY else SELECT_VERIFY_FAILED, None;
    }
    if ImageMatches(r, image.value.manifest) != OK { return SELECT_IDENTITY_FAILED, None; }
    status, decision := Promote(trust, dev, current, images, failed, image.value, payload);
  }

  /** The promotion of a previous image that is good and named, committed before it is published. */
  method Promote(trust: Trust, dev: Device, current: Snapshot, images: Images, failed: VerifyStatus, image: VerifiedImage,
                 ghost payload: seq<u8>)
    returns (status: SelectStatus, decision: Option<LaunchDecision>)
    requires dev.Sized() && Valid(current.record) && current.page <= 1
    requires var r, wire := current.record, images.Wire(current.record.previous);
      && Confirmed(r, r.current) && Confirmed(r, r.previous) && InvalidImage(failed)
      && ImageGood(trust, wire, r.previous, payload) && image == Verified(wire, payload) && Named(r, wire)
      && (!dev.fabricatedReads ==>
            GoodAt(trust, dev.Memory(), wire, r.previous)
            && payload == Payload(dev.Memory(), r.previous, ManifestOf(wire).value.length))
    requires !dev.fabricatedReads && Durable(dev.Memory()).Some? ==> Durable(dev.Memory()) == Some(current)
    modifies dev, dev.mem
    ensures SameOutside(old(dev.Memory()), dev.Memory())
    ensures decision.Some? <==> status == SELECT_OK
    ensures decision.Some? ==> decision.value.image == image
    ensures status !in {RECOVERY, SELECT_VERIFY_FAILED, SELECT_IDENTITY_FAILED} || dev.fabricatedReads
            || Durable(old(dev.Memory())).None?
    ensures !dev.fabricatedReads && old(Durable(dev.Memory())).Some? ==>
      && SelectStep(old(Durable(dev.Memory())), Durable(dev.Memory()))
      && (decision.Some? ==> Published(trust, dev.Memory(), images, decision.value))
      && (status !in {SELECT_OK, SELECT_RECONCILE} ==> Durable(dev.Memory()) == old(Durable(dev.Memory())))
    ensures dev.faults >= old(dev.faults)
    ensures (&& dev.faults == old(dev.faults) && !old(dev.blocked) && old(Durable(dev.Memory())) == Some(current)) ==>
      status == if current.record.sequence < UINT32_MAX then SELECT_OK else SELECT_LIFECYCLE_FAILED
  {
    decision := None;
    var r := current.record;
    var wire := images.Wire(r.previous);
    CandidateIsNotCurrent(r);
    GoodIsAdmissible(trust, wire, r.previous, payload, r);
    var e := r.Image(r.current);
    var invalid := InvalidCurrent(Resident(r.current, e.hash, e.release, e.length, e.trialId), failed);
    PromotePreviousCloses(r, invalid, image);
    var promoted := PromotePrevious(r, invalid, image);
    if !promoted.Change? { return SELECT_LIFECYCLE_FAILED, None; }
    ghost var before := dev.Memory();
    var stored := Replace(dev, current, promoted.record);
    if stored.Failed? { return FromStore(stored.status), None; }
    decision := Some(LaunchDecision(image, stored.snapshot));
    if !dev.fabricatedReads { PromotedIsPublished(trust, before, dev.Memory(), images, current, invalid, image, payload, stored.snapshot); }
    return SELECT_OK, decision;
  }

  lemma PromotedIsPublished(trust: Trust, before: seq<u8>, mem: seq<u8>, images: Images, current: Snapshot,
                            invalid: InvalidCurrent, image: VerifiedImage, payload: seq<u8>, stored: Snapshot)
    requires SameOutside(before, mem)
    requires PromotePrevious(current.record, invalid, image) == Change(stored.record)
    requires SlotValid(current.record.previous) && current.record.Confirmed(current.record.previous)
    requires var wire := images.Wire(current.record.previous);
      && GoodAt(trust, before, wire, current.record.previous) && Named(current.record, wire)
      && payload == Payload(before, current.record.previous, ManifestOf(wire).value.length)
      && image == Verified(wire, payload)
    ensures stored.record.current == current.record.previous && Confirmed(stored.record, stored.record.current)
    ensures Backed(trust, mem, images.Wire(stored.record.current), stored.record.current, LaunchDecision(image, stored))
  {
    var wire := images.Wire(current.record.previous);
    PromotePreviousCloses(current.record, invalid, image);
    PromotedConfirmed(current.record, invalid, image);
    SamePayload(before, mem, current.record.previous, ManifestOf(wire).value.length);
    GoodKept(trust, before, mem, wire, current.record.previous);
    NamedMeaning(current.record, wire);
    NamedMeaning(stored.record, wire);
  }

  lemma PromotedConfirmed(r: Metadata, invalid: InvalidCurrent, image: VerifiedImage)
    requires PromotePrevious(r, invalid, image).Change? && SlotValid(r.previous) && r.Confirmed(r.previous)
    ensures var after := PromotePrevious(r, invalid, image).record; after.Confirmed(after.current)
  {
    PromotePreviousCloses(r, invalid, image);
  }

  /** A trial published by the candidate transaction is a published decision. */
  lemma TrialIsPublished(trust: Trust, mem: seq<u8>, images: Images, slot: u32, d: LaunchDecision)
    ensures TrialPublished(trust, mem, images.Wire(slot), d) && d.snapshot.record.candidate == slot ==>
      Published(trust, mem, images, d)
  {}
}
