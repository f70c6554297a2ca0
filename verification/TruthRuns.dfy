/** The metadata tells the truth along every run of uploads, boots and confirmations, at every point of each. */
module TruthRuns {
  import opened Bytes
  import opened Format
  import opened Flash
  import opened Store
  import opened Lifecycle
  import opened History
  import opened Verify
  import opened Select
  import Launch
  import opened Reset
  import opened Runtime
  import opened Truth
  import opened ErasePlan
  import Receive
  import Service
  import Diag
  import Watchdog

  /** Every image that the second record names, the first one names too. */
  predicate NamesKept(r: Metadata, after: Metadata) {
    forall slot {:trigger after.Image(slot)} :: SlotValid(slot) ==>
      var e, f := r.Image(slot), after.Image(slot);
      f.length == 0 || (f.length == e.length && f.hash == e.hash && f.release == e.release)
  }

  lemma ActionKeepsNames(r: Metadata, a: Action)
    requires Valid(r) && !a.DoAccept? && Apply(r, a).Change?
    ensures NamesKept(r, Apply(r, a).record)
  {
    forall slot {:trigger Apply(r, a).record.Image(slot)} | SlotValid(slot)
      ensures var e, f := r.Image(slot), Apply(r, a).record.Image(slot);
        f.length == 0 || (f.length == e.length && f.hash == e.hash && f.release == e.release)
    {
      EntryNamesKept(r, a, slot);
    }
  }

  lemma NamesKeptTwice(r: Metadata, mid: Metadata, after: Metadata)
    requires NamesKept(r, mid) && NamesKept(mid, after)
    ensures NamesKept(r, after)
  {
    forall slot {:trigger after.Image(slot)} | SlotValid(slot)
      ensures var e, f := r.Image(slot), after.Image(slot);
        f.length == 0 || (f.length == e.length && f.hash == e.hash && f.release == e.release)
    {
      var between := mid.Image(slot);
    }
  }

  lemma BootKeepsNames(before: Snapshot, captured: Option<u32>, after: Snapshot, decision: Option<Launch.LaunchDecision>)
    requires Valid(before.record) && BootStep(Some(before), captured, Some(after), decision)
    ensures NamesKept(before.record, after.record)
  {
    var mid: Option<Snapshot> :|
      && mid.Some? && SelectStep(mid, Some(after))
      && (mid == Some(before) || (captured.Some? && Counted(before.record, captured.value)
                                  && Accounted(before.record, captured.value, mid.value.record)));
    var r := mid.value.record;
    if mid != Some(before) {
      ProposeCounts(before.record, captured.value);
      var f := CountedFailure(CandidateIdentity(before.record), Propose(before.record, captured.value).decision.reason,
                              if before.record.intentKind == INTENT_DEADLINE then 1 else 0);
      ActionKeepsNames(before.record, DoFailure(f));
      StepKeeps(before.record, DoFailure(f));
    }
    SelectionKeepsNames(mid.value, after);
    NamesKeptTwice(before.record, r, after.record);
  }

  lemma SelectionKeepsNames(mid: Snapshot, after: Snapshot)
    requires Valid(mid.record) && SelectStep(Some(mid), Some(after))
    ensures NamesKept(mid.record, after.record)
  {
    var r := mid.record;
    if after != mid {
      if image :| BeginTrial(r, image) == Change(after.record) {
        ActionKeepsNames(r, DoBeginTrial(image));
      } else {
        var invalid, previous :| PromotePrevious(r, invalid, previous) == Change(after.record);
        ActionKeepsNames(r, DoPromote(invalid, previous));
      }
    }
  }

  /** A change of the metadata alone keeps its truth if it names no new image. */
  lemma TruthUnderNames(trust: Trust, before: seq<u8>, after: seq<u8>)
    requires Truthful(trust, before) && Durable(after).Some? && SameOutside(before, after)
    requires NamesKept(Durable(before).value.record, Durable(after).value.record)
    ensures Truthful(trust, after)
  {
    forall slot {:trigger Durable(after).value.record.Image(slot)} | SlotValid(slot)
      ensures var e := Durable(after).value.record.Image(slot); e.length != 0 ==> StoredImage(trust, after, slot, e)
    {
      SameImage(trust, before, after, slot, Durable(before).value.record.Image(slot));
    }
  }

  /** Where the metadata tells the truth and something is confirmed, there is always something to boot: the candidate if
      there is one, else the current image. Only a first trial with no sequence number left cannot be started. */
  lemma TruthBoots(trust: Trust, mem: seq<u8>, images: Images)
    requires Truthful(trust, mem) && HasCurrent(Durable(mem).value.record)
    requires forall slot {:trigger images.Wire(slot)} :: SlotValid(slot) ==> images.Wire(slot) == WireAt(mem, slot)
    ensures var r := Durable(mem).value.record;
      && Choice(trust, mem, images, r) == Some(if SlotValid(r.candidate) then r.candidate else r.current)
      && (Bootable(trust, mem, images, r) <==>
            !(SlotValid(r.candidate) && r.Image(r.candidate).accounting.state == STATE_READY && r.sequence == UINT32_MAX))
  {
    var r := Durable(mem).value.record;
    DurableLoads(mem);
    ValidMeaning(r);
    assert images.Wire(r.current) == WireAt(mem, r.current);
    StoredIsGood(trust, mem, r, r.current);
    if SlotValid(r.candidate) {
      assert images.Wire(r.candidate) == WireAt(mem, r.candidate);
      StoredIsGood(trust, mem, r, r.candidate);
    } else {
      GoodOpen(trust, mem, images.Wire(r.candidate), r.candidate);
    }
  }

  lemma StoredIsGood(trust: Trust, mem: seq<u8>, r: Metadata, slot: u32)
    requires |mem| == FLASH_BYTES && SlotValid(slot) && Valid(r) && StoredImage(trust, mem, slot, r.Image(slot))
    ensures GoodAt(trust, mem, WireAt(mem, slot), slot) && Named(r, WireAt(mem, slot))
  {
    GoodOpen(trust, mem, WireAt(mem, slot), slot);
    NamedMeaning(r, WireAt(mem, slot));
  }

  /** An admitted erase, however far it gets, leaves the board something to boot: the confirmed current image, which runs
      elsewhere, is still durable, stored and good. */
  lemma EraseLeavesABoot(trust: Trust, before: seq<u8>, after: seq<u8>, images: Images, running: u32, destination: u32)
    requires Truthful(trust, before) && Destructible(Durable(before).value.record, running, destination)
    requires |after| == FLASH_BYTES && forall i :: 0 <= i < FLASH_BYTES && !InSlot(destination, i) ==> after[i] == before[i]
    requires images.Wire(running) == WireAt(before, running)
    ensures Truthful(trust, after) && Durable(after) == Durable(before)
    ensures var r := Durable(after).value.record;
      && Choice(trust, after, images, r) == Some(running) && Bootable(trust, after, images, r) && HasCurrent(r)
  {
    var r := Durable(before).value.record;
    ValidMeaning(r);
    TruthUnderSlotWrite(trust, before, after, destination);
    assert WireAt(after, running) == WireAt(before, running) by {
      forall k | 0 <= k < MANIFEST_BYTES ensures WireAt(after, running)[k] == WireAt(before, running)[k] {
        assert !InSlot(destination, ManifestFirst(running) + k);
      }
    }
    StoredIsGood(trust, after, r, running);
    GoodOpen(trust, after, images.Wire(r.candidate), r.candidate);
  }

  // ---- runs ----

  lemma BootStaysTruthful(trust: Trust, before: seq<u8>, captured: Option<u32>, after: seq<u8>,
                          decision: Option<Launch.LaunchDecision>)
    requires Truthful(trust, before) && SameOutside(before, after)
    requires BootStep(Durable(before), captured, Durable(after), decision)
    ensures Truthful(trust, after)
  {
    DurableLoads(before);
    BootKeepsNames(Durable(before).value, captured, Durable(after).value, decision);
    TruthUnderNames(trust, before, after);
  }

  /** A call of the receiver. */
  datatype UploadCall = Feed(bytes: seq<u8>) | Step | Eof | Abort

  /** What may happen to a board: an upload up to any point of it, with its calls made in any order; a boot, after a reset
      of any kind; a request to confirm; or a commit of any other action. */
  datatype Event =
    | Upload(slot: u32, running: Option<VerifiedImage>, calls: seq<UploadCall>)
    | Boot(flags: u32, images: Images)
    | Confirmation(published: Diag.Published, running: Option<VerifiedImage>, request: ConfirmRequest)
    | Commit(expected: Snapshot, action: Action)

  /** The metadata is true, and was when the upload began. */
  ghost predicate Honest(receiver: Receive.Receiver)
    reads receiver, receiver.dev, receiver.dev.mem
  {
    && Truthful(receiver.trust, receiver.dev.Memory())
    && (receiver.state.phase != Receive.NEW ==> Truthful(receiver.trust, receiver.start))
  }

  /** The invariant of a transaction carries the truth from its beginning to where it is now. */
  lemma StaysHonest(receiver: Receive.Receiver)
    requires receiver.Valid()
    requires if receiver.state.phase == Receive.NEW then Truthful(receiver.trust, receiver.dev.Memory())
             else Truthful(receiver.trust, receiver.start)
    ensures Honest(receiver)
  {
    if receiver.state.phase != Receive.NEW { receiver.ValidMeans(); }
  }

  method CallReceiver(receiver: Receive.Receiver, call: UploadCall)
    requires receiver.Valid() && Honest(receiver)
    modifies receiver, receiver.plan, receiver.manifest, receiver.word, receiver.dev, receiver.dev.mem
    modifies receiver.observer.watchdog, receiver.observer.watchdog.io
    ensures receiver.Valid() && Honest(receiver)
  {
    match call {
      case Feed(bytes) => var result, accepted := receiver.Feed(bytes);
      case Step => var result, acceptance := receiver.Step();
      case Eof => var result := receiver.Eof();
      case Abort => var result := receiver.Abort();
    }
    StaysHonest(receiver);
  }

  /** One upload, by a fresh receiver; watchdog and bridge are in any condition. */
  method RunUpload(trust: Trust, dev: Device, slot: u32, running: Option<VerifiedImage>, calls: seq<UploadCall>)
    requires dev.Sized() && !dev.fabricatedReads && Truthful(trust, dev.Memory())
    modifies dev, dev.mem
    ensures Truthful(trust, dev.Memory())
  {
    var observer := AnyObserver();
    var receiver := new Receive.Receiver(trust, dev, observer);
    var begun := receiver.Begin(slot, running);
    for i := 0 to |calls|
      invariant receiver.Valid() && Honest(receiver)
    {
      CallReceiver(receiver, calls[i]);
    }
  }

  method AnyObserver() returns (observer: Observer)
    ensures fresh(observer) && fresh(observer.watchdog) && fresh(observer.watchdog.io) && observer.watchdog.Valid()
  {
    var honest, bridged := *, *;
    var io := new Watchdog.Registers(honest);
    var watchdog := new Watchdog.Watchdog(io);
    observer := new Observer(watchdog, bridged);
  }

  /** One boot: power or reset has ended whatever the flash was doing. */
  method RunBoot(trust: Trust, dev: Device, flags: u32, images: Images)
    requires dev.Sized() && !dev.fabricatedReads && Truthful(trust, dev.Memory())
    modifies dev, dev.mem
    ensures Truthful(trust, dev.Memory())
  {
    dev.blocked := false;
    var observer := AnyObserver();
    var register := new ResetRegister(flags);
    var runtime := new Runtime();
    var status, report, decision := runtime.Run(register, trust, dev, observer, images, 0);
    BootStaysTruthful(trust, old(dev.Memory()), report.captured, dev.Memory(), decision);
  }

  /** One request to confirm, over whatever diagnostics are published. */
  method RunConfirmation(trust: Trust, dev: Device, published: Diag.Published, running: Option<VerifiedImage>,
                         request: ConfirmRequest)
    requires dev.Sized() && !dev.fabricatedReads && Truthful(trust, dev.Memory())
    modifies dev, dev.mem
    ensures Truthful(trust, dev.Memory())
  {
    var words := new u32[Diag.DIAG_WORDS](_ => 0);
    var owner := new Diag.Publication(words, false);
    var status := owner.Publish(published.record, published.context);
    var service := new Service.ConfirmService();
    var result, committed := service.Apply(owner, dev, running, request);
    Service.ConfirmKeepsTruth(trust, old(dev.Memory()), dev.Memory(), request);
  }

  /** One commit of any action that installs no image, by any caller. */
  method RunCommit(trust: Trust, dev: Device, expected: Snapshot, action: Action)
    requires dev.Sized() && !dev.fabricatedReads && Truthful(trust, dev.Memory())
    modifies dev, dev.mem
    ensures Truthful(trust, dev.Memory())
  {
    var applied := Apply(expected.record, action);
    if applied.Change? && !action.DoAccept? {
      var r := Replace(dev, expected, applied.record);
      TruthUnderAction(trust, old(dev.Memory()), dev.Memory(), action);
    }
  }

  /** Every image that the durable record of a board names is completely stored in its slot, after any number of events,
      whatever the flash did in them: any of its commands may have failed or stopped short. */
  method AlwaysTruthful(trust: Trust, dev: Device, events: seq<Event>)
    requires dev.Sized() && !dev.fabricatedReads && Truthful(trust, dev.Memory())
    modifies dev, dev.mem
    ensures Truthful(trust, dev.Memory())
  {
    for i := 0 to |events|
      invariant Truthful(trust, dev.Memory())
    {
      match events[i] {
        case Upload(slot, running, calls) => RunUpload(trust, dev, slot, running, calls);
        case Boot(flags, images) => RunBoot(trust, dev, flags, images);
        case Confirmation(published, running, request) => RunConfirmation(trust, dev, published, running, request);
        case Commit(expected, action) => RunCommit(trust, dev, expected, action);
      }
    }
  }
}
