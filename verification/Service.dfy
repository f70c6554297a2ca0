/** The application's boot services: one consistent capture, and the confirmation of the running trial. */
module Service {
  import opened Bytes
  import opened Format
  import opened Codec
  import opened Flash
  import opened Store
  import opened Lifecycle
  import opened History
  import opened Truth
  import opened Verify
  import opened Diag
  import Status

  datatype CaptureStatus =
    | CAPTURE_OK | CAPTURE_PUBLICATION | CAPTURE_METADATA | CAPTURE_RUNNING | CAPTURE_IDENTITY

  /** Nothing but a fault of the device stands in the way of a capture. */
  ghost predicate Undisturbed(owner: Publication, mem: seq<u8>)
    reads owner
  {
    !owner.faulty && !owner.busy && owner.associated && Durable(mem).Some?
  }

  /** The running image is known, and the record names it. */
  predicate Runs(r: Metadata, running: Option<VerifiedImage>) {
    running.Some? && ImageMatches(r, running.value.manifest) == OK && ImageAdmissible(running.value)
  }

  /** boot_snapshot_capture: diagnostics, durable record and running evidence, all or nothing. Whatever is captured can
      be rendered. */
  method Capture(owner: Publication, dev: Device, running: Option<VerifiedImage>)
    returns (result: CaptureStatus, s: Option<Status.Captured>)
    requires owner.Valid() && dev.Sized()
    modifies dev
    ensures result == CAPTURE_OK <==> s.Some?
    ensures s.Some? ==>
      && Status.Renderable(s.value) && running == Some(s.value.running) && ImageAdmissible(s.value.running)
      && owner.associated && owner.last == Published(s.value.diagnostic, s.value.context)
    ensures s.Some? && !dev.fabricatedReads ==> Load(dev.Memory()) == Stored(s.value.metadata)
    ensures s.Some? && (!dev.fabricatedReads || dev.faults == old(dev.faults)) && Durable(dev.Memory()).Some? ==>
      Durable(dev.Memory()) == Some(s.value.metadata)
    ensures s.Some? ==> !old(dev.blocked)
    ensures old(dev.blocked) ==> dev.blocked
    ensures dev.faults >= old(dev.faults)
    ensures dev.faults == old(dev.faults) ==> dev.blocked == old(dev.blocked)
    ensures dev.faults == old(dev.faults) && !old(dev.blocked) && Undisturbed(owner, dev.Memory()) ==>
      (result == CAPTURE_OK <==> Runs(Durable(dev.Memory()).value.record, running))
  {
    var status, published := owner.Snapshot();
    if status != PUBLICATION_OK { return CAPTURE_PUBLICATION, None; }
    if Durable(dev.Memory()).Some? { DurableLoads(dev.Memory()); }
    var loaded := LoadStore(dev);
    if loaded.Failed? { return CAPTURE_METADATA, None; }
    if running.None? { return CAPTURE_RUNNING, None; }
    var image := running.value;
    if ImageMatches(loaded.snapshot.record, image.manifest) != OK || !ImageAdmissible(image) { return CAPTURE_IDENTITY, None; }
    return CAPTURE_OK, Some(Status.Captured(published.value.record, published.value.context, loaded.snapshot, image));
  }

  datatype ConfirmStatus = CONFIRM_OK | CONFIRM_BUSY | CONFIRM_SNAPSHOT | CONFIRM_REJECTED | CONFIRM_STORE | CONFIRM_RECONCILE

  /** What one request may do to the durable record. */
  ghost predicate ConfirmStep(before: Option<Snapshot>, request: ConfirmRequest, after: Option<Snapshot>) {
    || after == before
    || (before.Some? && after.Some? && exists image, health ::
          Confirm(before.value.record, request, image, health) == Change(after.value.record))
  }

  /** What a request gets when nothing fails. */
  function Deserved(r: Metadata, request: ConfirmRequest, running: Option<VerifiedImage>, health: u32): ConfirmStatus {
    if !Runs(r, running) then CONFIRM_SNAPSHOT
    else if Confirm(r, request, running.value, health).Refused? then CONFIRM_REJECTED
    else CONFIRM_OK
  }

  ghost function HealthOf(owner: Publication): u32
    reads owner
  {
    if owner.last.context.healthKnown then owner.last.record.health else 0
  }

  class ConfirmService {
    var busy: bool
    var reconcile: bool

    constructor ()
      ensures !busy && !reconcile
    {
      busy, reconcile := false, false;
    }

    /** boot_confirm_apply: success is durable, and repeated success writes nothing. */
    method Apply(owner: Publication, dev: Device, running: Option<VerifiedImage>, request: ConfirmRequest)
      returns (result: ConfirmStatus, committed: Option<Snapshot>)
      requires owner.Valid() && dev.Sized()
      modifies this, dev, dev.mem
      ensures busy == old(busy) && reconcile == (old(reconcile) || (result == CONFIRM_RECONCILE))
      ensures result == CONFIRM_BUSY <==> old(busy)
      ensures old(busy) || old(reconcile) ==> dev.Memory() == old(dev.Memory())
      ensures !old(busy) && old(reconcile) ==> result == CONFIRM_RECONCILE
      ensures SameOutside(old(dev.Memory()), dev.Memory())
      ensures committed.Some? <==> result == CONFIRM_OK
      ensures !dev.fabricatedReads && old(Durable(dev.Memory())).Some? ==>
        && ConfirmStep(old(Durable(dev.Memory())), request, Durable(dev.Memory()))
        && (result == CONFIRM_OK ==> Durable(dev.Memory()) == committed && ConfirmedAs(committed.value.record, request))
        && (result !in {CONFIRM_OK, CONFIRM_RECONCILE} ==> Durable(dev.Memory()) == old(Durable(dev.Memory())))
        && (old(ConfirmedAs(Durable(dev.Memory()).value.record, request)) && result == CONFIRM_OK ==>
              dev.Memory() == old(dev.Memory()))
      ensures (&& dev.faults == old(dev.faults) && !old(dev.blocked) && old(Undisturbed(owner, dev.Memory()))
               && !old(busy) && !old(reconcile)) ==>
        result == Deserved(old(Durable(dev.Memory())).value.record, request, running, HealthOf(owner))
    {
      if busy { return CONFIRM_BUSY, None; }
      if reconcile { return CONFIRM_RECONCILE, None; }
      busy := true;
      result, committed := Decide(owner, dev, running, request);
      if result == CONFIRM_RECONCILE { reconcile := true; }
      busy := false;
    }

    /** The decision and its one commit, under the lock. */
    method Decide(owner: Publication, dev: Device, running: Option<VerifiedImage>, request: ConfirmRequest)
      returns (result: ConfirmStatus, committed: Option<Snapshot>)
      requires owner.Valid() && dev.Sized()
      modifies dev, dev.mem
      ensures result != CONFIRM_BUSY && SameOutside(old(dev.Memory()), dev.Memory())
      ensures committed.Some? <==> result == CONFIRM_OK
      ensures !dev.fabricatedReads && old(Durable(dev.Memory())).Some? ==>
        && ConfirmStep(old(Durable(dev.Memory())), request, Durable(dev.Memory()))
        && (result == CONFIRM_OK ==> Durable(dev.Memory()) == committed && ConfirmedAs(committed.value.record, request))
        && (result !in {CONFIRM_OK, CONFIRM_RECONCILE} ==> Durable(dev.Memory()) == old(Durable(dev.Memory())))
        && (old(ConfirmedAs(Durable(dev.Memory()).value.record, request)) && result == CONFIRM_OK ==>
              dev.Memory() == old(dev.Memory()))
      ensures dev.faults == old(dev.faults) && !old(dev.blocked) && old(Undisturbed(owner, dev.Memory())) ==>
        result == Deserved(old(Durable(dev.Memory())).value.record, request, running, HealthOf(owner))
    {
      if Durable(dev.Memory()).Some? { DurableLoads(dev.Memory()); }
      var captured, s := Capture(owner, dev, running);
      if captured != CAPTURE_OK { return CONFIRM_SNAPSHOT, None; }
      var health := if s.value.context.healthKnown then s.value.diagnostic.health else 0;
      var r, image := s.value.metadata.record, s.value.running;
      ConfirmCloses(r, request, image, health);
      ConfirmedMeans(r, request, image, health);
      match Confirm(r, request, image, health) {
        case NoChange(_) => return CONFIRM_OK, Some(s.value.metadata);
        case Refused(_) => return CONFIRM_REJECTED, None;
        case Change(desired) =>
          var stored := Replace(dev, s.value.metadata, desired);
          if stored.Failed? { return if stored.status == StoreStatus.UNCERTAIN then CONFIRM_RECONCILE else CONFIRM_STORE, None; }
          return CONFIRM_OK, Some(stored.snapshot);
      }
    }
  }

  /** The slot holds, confirmed, the image accepted under the requested id. */
  predicate ConfirmedAs(r: Metadata, request: ConfirmRequest) {
    SlotValid(request.slot) && r.Confirmed(request.slot)
    && r.Image(request.slot).trialId == request.trialId && r.Image(request.slot).hash == request.hash
  }

  /** Success confirms exactly what was asked for, and a request already satisfied changes nothing. */
  lemma ConfirmedMeans(r: Metadata, request: ConfirmRequest, image: VerifiedImage, health: u32)
    ensures Confirm(r, request, image, health).NoChange? ==> ConfirmedAs(r, request)
    ensures Confirm(r, request, image, health).Change? ==>
      ConfirmedAs(Confirm(r, request, image, health).record, request) && !ConfirmedAs(r, request)
  {
    ConfirmCloses(r, request, image, health);
    ValidMeaning(r);
  }

  /** A request made for one acceptance never confirms another, even of identical bytes. */
  lemma WrongAcceptanceRefused(r: Metadata, request: ConfirmRequest, image: VerifiedImage, health: u32)
    requires SlotValid(request.slot) && r.Image(request.slot).trialId != request.trialId
    ensures Confirm(r, request, image, health).Refused?
  {
    ConfirmCloses(r, request, image, health);
  }

  /** A confirmation, granted or not, keeps the metadata true. */
  lemma ConfirmKeepsTruth(trust: Trust, before: seq<u8>, after: seq<u8>, request: ConfirmRequest)
    requires SameOutside(before, after)
    requires Durable(before).Some? ==> ConfirmStep(Durable(before), request, Durable(after))
    ensures Truthful(trust, before) ==> Truthful(trust, after)
  {
    if Truthful(trust, before) {
      if Durable(after) == Durable(before) {
        TruthUnderSameRecord(trust, before, after);
      } else {
        var image, health :| Confirm(Durable(before).value.record, request, image, health) == Change(Durable(after).value.record);
        TruthUnderAction(trust, before, after, DoConfirm(request, image, health));
      }
    }
  }
}
