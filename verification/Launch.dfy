/** The candidate transaction: verify, make the trial durable, only then publish. */
module Launch {
  import opened Bytes
  import opened Format
  import opened Codec
  import opened Flash
  import opened Store
  import opened Lifecycle
  import opened Verify

  datatype LaunchStatus =
    | LAUNCH_OK | INELIGIBLE | IMAGE_INVALID | VERIFY_FAILED | LIFECYCLE_FAILED | STORE_FAILED | RECONCILE

  datatype LaunchResult = LaunchResult(
    status: LaunchStatus, verify: VerifyStatus, lifecycle: Option<Refusal>, store: Option<StoreStatus>)

  datatype LaunchDecision = LaunchDecision(image: VerifiedImage, snapshot: Snapshot)

  /** Canonical bytes and the page that holds them. */
  predicate SameSnapshot(a: Snapshot, b: Snapshot) {
    a.page == b.page && Valid(a.record) && Valid(b.record)
    && Encoding(a.record, COMMIT_VALID) == Encoding(b.record, COMMIT_VALID)
  }

  lemma SameSnapshotIsEqual(a: Snapshot, b: Snapshot)
    ensures SameSnapshot(a, b) <==> a == b && Valid(a.record)
  {
    if SameSnapshot(a, b) { EncodingInjective(a.record, b.record); }
  }

  function StoreFailure(status: StoreStatus): LaunchStatus {
    if status == UNCERTAIN then RECONCILE else STORE_FAILED
  }

  /** A published decision: what a load finds now, a trial of exactly the verified image. */
  ghost predicate TrialPublished(trust: Trust, mem: seq<u8>, wire: seq<u8>, d: LaunchDecision) {
    && |mem| == FLASH_BYTES
    && Durable(mem) == Some(d.snapshot)
    && SlotValid(d.snapshot.record.candidate)
    && d.snapshot.record.Image(d.snapshot.record.candidate).accounting.state == STATE_TRIAL
    && Backed(trust, mem, wire, d.snapshot.record.candidate, d)
  }

  /** The image in the slot is good, is the one decided on, and is the one the record names. */
  ghost predicate Backed(trust: Trust, mem: seq<u8>, wire: seq<u8>, slot: u32, d: LaunchDecision) {
    Backing(trust, mem, wire, slot, d) == Yes
  }

  ghost function Backing(trust: Trust, mem: seq<u8>, wire: seq<u8>, slot: u32, d: LaunchDecision): Verdict {
    if && GoodAt(trust, mem, wire, slot) && Named(d.snapshot.record, wire)
       && d.image == Verified(wire, Payload(mem, slot, ManifestOf(wire).value.length)) then Yes else No
  }

  /** A good candidate can start: the record names it, and there is a number left for the record of its trial. */
  predicate Startable(r: Metadata, wire: seq<u8>) {
    && SlotValid(r.candidate) && Named(r, wire)
    && (r.Image(r.candidate).accounting.state == STATE_TRIAL || r.sequence < UINT32_MAX)
  }

  /** What one call may do to the durable record. */
  ghost predicate TrialStep(before: Option<Snapshot>, after: Option<Snapshot>) { TrialTaken(before, after) == Yes }

  ghost function TrialTaken(before: Option<Snapshot>, after: Option<Snapshot>): Verdict {
    if || after == before
       || (before.Some? && after.Some? && exists image :: BeginTrial(before.value.record, image) == Change(after.value.record))
    then Yes else No
  }

  /** A second look at the store: the same authority must still be there. */
  method Recheck(dev: Device, current: Snapshot) returns (failure: Option<StoreStatus>)
    requires dev.Sized()
    modifies dev
    ensures failure.None? && !dev.fabricatedReads && Durable(dev.Memory()).Some? ==> Durable(dev.Memory()) == Some(current)
    ensures dev.faults >= old(dev.faults)
    ensures dev.faults == old(dev.faults) && !old(dev.blocked) && Durable(dev.Memory()) == Some(current) ==>
              failure.None? && !dev.blocked
    ensures failure != Some(UNCERTAIN) && (failure.None? ==> !dev.blocked && Valid(current.record))
    ensures !dev.fabricatedReads && Durable(dev.Memory()).Some? ==> failure !in {Some(NO_RECORD), Some(CONFLICT)}
  {
    if Durable(dev.Memory()).Some? { DurableLoads(dev.Memory()); }
    var loaded := LoadStore(dev);
    if loaded.Failed? { return Some(loaded.status); }
    SameSnapshotIsEqual(current, loaded.snapshot);
    if !SameSnapshot(current, loaded.snapshot) { return Some(STALE); }
    return None;
  }

  /** boot_launch_candidate. */
  method LaunchCandidate(trust: Trust, dev: Device, observer: Observer, expected: Snapshot, wire: seq<u8>, ghost left: nat)
    returns (result: LaunchResult, decision: Option<LaunchDecision>)
    requires dev.Sized() && observer.watchdog.Valid()
    modifies dev, dev.mem, observer.watchdog, observer.watchdog.io
    ensures observer.watchdog.Valid()
    ensures SameOutside(old(dev.Memory()), dev.Memory())
    ensures decision.Some? <==> result.status == LAUNCH_OK
    ensures decision.Some? ==> decision.value.snapshot.record.candidate == expected.record.candidate
    ensures !dev.fabricatedReads && old(Durable(dev.Memory())).Some? ==>
      && TrialStep(old(Durable(dev.Memory())), Durable(dev.Memory()))
      && (decision.Some? ==> TrialPublished(trust, dev.Memory(), wire, decision.value))
      && (result.status !in {LAUNCH_OK, RECONCILE} ==> Durable(dev.Memory()) == old(Durable(dev.Memory())))
      && result.store !in {Some(NO_RECORD), Some(CONFLICT)}
      && (result.status in {IMAGE_INVALID, VERIFY_FAILED} ==> old(Durable(dev.Memory())) == Some(expected))
      && (result.status == IMAGE_INVALID ==>
            InvalidImage(result.verify) && !GoodAt(trust, dev.Memory(), wire, expected.record.candidate))
    ensures result.status in {IMAGE_INVALID, VERIFY_FAILED} ==> dev.Memory() == old(dev.Memory())
    ensures (&& dev.faults == old(dev.faults) && !old(dev.blocked) && old(Durable(dev.Memory())) == Some(expected)) ==>
      result.status !in {STORE_FAILED, RECONCILE} && (result.status == IMAGE_INVALID ==> !dev.blocked)
    ensures (&& dev.faults == old(dev.faults) && !old(dev.blocked) && old(Durable(dev.Memory())) == Some(expected)
             && !dev.fabricatedReads && old(Attended(observer, wire, left)) && SlotValid(expected.record.candidate)) ==>
      if !old(GoodAt(trust, dev.Memory(), wire, expected.record.candidate)) then
        result.status == IMAGE_INVALID && observer.Healthy(left)
        && observer.watchdog.verification <= old(observer.watchdog.verification) + 1
      else result.status == if Startable(expected.record, wire) then LAUNCH_OK else LIFECYCLE_FAILED
    ensures dev.faults >= old(dev.faults)
  {
    decision := None;
    var refusal := Eligible(dev, expected);
    if refusal.Some? { return refusal.value, None; }
    var slot := expected.record.candidate;
    var status, image; ghost var payload;
    status, image, payload := VerifyStored(trust, dev, observer, wire, slot, left);
    if status == VERIFY_OK {
      result, decision := MakeTrial(trust, dev, expected, wire, image.value, payload);
    } else {
      result := LaunchResult(if InvalidImage(status) then IMAGE_INVALID else VERIFY_FAILED, status, None, None);
    }
  }

  /** The snapshot must still be the authority, and have a candidate that is ready or on trial. */
  method Eligible(dev: Device, expected: Snapshot) returns (refusal: Option<LaunchResult>)
    requires dev.Sized()
    modifies dev
    ensures refusal.Some? ==>
      refusal.value.status in {STORE_FAILED, INELIGIBLE} && (refusal.value.status == INELIGIBLE ==> refusal.value.store.None?)
    ensures refusal.None? ==> !dev.blocked && expected.page <= 1 && SlotValid(expected.record.candidate)
    ensures !dev.fabricatedReads && Durable(dev.Memory()).Some? ==>
      if refusal.None? then Durable(dev.Memory()) == Some(expected)
      else refusal.value.store !in {Some(NO_RECORD), Some(CONFLICT)}
    ensures dev.faults >= old(dev.faults)
    ensures dev.faults == old(dev.faults) && !old(dev.blocked) && Durable(dev.Memory()) == Some(expected) ==>
      if SlotValid(expected.record.candidate) then refusal.None? else refusal.Some? && refusal.value.status == INELIGIBLE
  {
    var failed := LaunchResult(STORE_FAILED, VERIFY_OK, None, None);
    if Durable(dev.Memory()).Some? { DurableLoads(dev.Memory()); }
    if expected.page > 1 || !Valid(expected.record) { return Some(failed.(store := Some(StoreStatus.INVALID_RECORD))); }
    var failure := Recheck(dev, expected);
    if failure.Some? { return Some(failed.(store := failure)); }
    var slot := expected.record.candidate;
    if slot > SLOT_B { return Some(failed.(status := INELIGIBLE)); }
    var state := expected.record.Image(slot).accounting.state;
    ValidMeaning(expected.record);
    if state != STATE_READY && state != STATE_TRIAL { return Some(failed.(status := INELIGIBLE)); }
    return None;
  }

  /** READY becomes a durable TRIAL; an existing TRIAL is only checked again. */
  method MakeTrial(trust: Trust, dev: Device, current: Snapshot, wire: seq<u8>, image: VerifiedImage, ghost payload: seq<u8>)
    returns (result: LaunchResult, decision: Option<LaunchDecision>)
    requires dev.Sized() && current.page <= 1
    requires SlotValid(current.record.candidate) && ImageGood(trust, wire, current.record.candidate, payload)
    requires image == Verified(wire, payload)
    requires !dev.fabricatedReads ==>
      && GoodAt(trust, dev.Memory(), wire, current.record.candidate)
      && payload == Payload(dev.Memory(), current.record.candidate, ManifestOf(wire).value.length)
    requires !dev.fabricatedReads && Durable(dev.Memory()).Some? ==> Durable(dev.Memory()) == Some(current)
    modifies dev, dev.mem
    ensures SameOutside(old(dev.Memory()), dev.Memory())
    ensures decision.Some? <==> result.status == LAUNCH_OK
    ensures decision.Some? ==> decision.value.snapshot.record.candidate == current.record.candidate
    ensures result.status in {LAUNCH_OK, LIFECYCLE_FAILED, STORE_FAILED, RECONCILE}
    ensures !dev.fabricatedReads && old(Durable(dev.Memory())).Some? ==>
      && TrialStep(old(Durable(dev.Memory())), Durable(dev.Memory()))
      && (decision.Some? ==> TrialPublished(trust, dev.Memory(), wire, decision.value))
      && (result.status !in {LAUNCH_OK, RECONCILE} ==> Durable(dev.Memory()) == old(Durable(dev.Memory())))
      && result.store !in {Some(NO_RECORD), Some(CONFLICT)}
    ensures (&& dev.faults == old(dev.faults) && !old(dev.blocked) && old(Durable(dev.Memory())) == Some(current)) ==>
      result.status == if Startable(current.record, wire) then LAUNCH_OK else LIFECYCLE_FAILED
    ensures dev.faults >= old(dev.faults)
  {
    decision := None;
    if Valid(current.record) { GoodIsAdmissible(trust, wire, current.record.candidate, payload, current.record); }
    BeginTrialCloses(current.record, image);
    match BeginTrial(current.record, image) {
      case Refused(why) =>
        return LaunchResult(LIFECYCLE_FAILED, VERIFY_OK, Some(why), None), None;
      case NoChange(_) =>
        var failure := Recheck(dev, current);
        if failure.Some? { return LaunchResult(StoreFailure(failure.value), VERIFY_OK, None, failure), None; }
        decision := Some(LaunchDecision(image, current));
      case Change(proposal) =>
        var stored := Replace(dev, current, proposal);
        if stored.Failed? {
          return LaunchResult(StoreFailure(stored.status), VERIFY_OK, None, Some(stored.status)), None;
        }
        decision := Some(LaunchDecision(image, stored.snapshot));
        SamePayload(old(dev.Memory()), dev.Memory(), current.record.candidate, ManifestOf(wire).value.length);
        GoodKept(trust, old(dev.Memory()), dev.Memory(), wire, current.record.candidate);
    }
    return LaunchResult(LAUNCH_OK, VERIFY_OK, None, None), decision;
  }

  /** Metadata changes leave the payloads alone. */
  lemma SamePayload(before: seq<u8>, after: seq<u8>, slot: u32, length: u32)
    requires SameOutside(before, after) && |before| == FLASH_BYTES && SlotValid(slot) && length <= PAYLOAD_MAX
    ensures Payload(before, slot, length) == Payload(after, slot, length)
  {}

  /** So a good image stays good. */
  lemma GoodKept(trust: Trust, before: seq<u8>, after: seq<u8>, wire: seq<u8>, slot: u32)
    requires SameOutside(before, after)
    ensures GoodAt(trust, before, wire, slot) <==> GoodAt(trust, after, wire, slot)
  {
    GoodOpen(trust, before, wire, slot);
    GoodOpen(trust, after, wire, slot);
    if |before| == FLASH_BYTES && SlotValid(slot) && ManifestGood(trust, wire, slot) {
      SamePayload(before, after, slot, ManifestOf(wire).value.length);
    }
  }
}
