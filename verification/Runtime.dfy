/** One boot: capture, clear and count the reset, then select; and what any number of boots can publish. */
module Runtime {
  import opened Bytes
  import opened Format
  import opened Flash
  import opened Store
  import opened Lifecycle
  import opened Reset
  import opened Verify
  import opened Launch
  import opened Select
  import opened History

  /** No flag has gone. */
  predicate Gained(before: u32, after: u32) {
    forall i :: 0 <= i < 32 && Bits(before, 32)[i] ==> Bits(after, 32)[i]
  }

  /** The sticky reset-cause register. */
  class ResetRegister {
    var flags: u32

    constructor (flags: u32)
      ensures this.flags == flags
    {
      this.flags := flags;
    }

    /** Further flags may arrive at any time before a read. */
    method Read() returns (ok: bool, value: u32)
      modifies this
      ensures Gained(old(flags), flags)
      ensures ok ==> value == flags
    {
      var now: u32 := *;
      if now != flags && Gained(flags, now) { flags := now; }
      ok := *;
      value := flags;
    }

    /** A failed write may still have taken effect. */
    method Write(value: u32) returns (ok: bool)
      modifies this
      ensures flags == old(flags) || flags == value
      ensures ok ==> flags == value
    {
      ok := *;
      var done: bool := *;
      if ok || done { flags := value; }
    }
  }

  /** latest & ~(captured & 0x1f) */
  function ClearCaptured(latest: u32, captured: u32): u32 {
    PowerOf32();
    Value(seq(32, i requires 0 <= i < 32 => Bits(latest, 32)[i] && !(i < 5 && Bits(captured, 32)[i])))
  }

  lemma ClearedBits(latest: u32, captured: u32)
    ensures forall i :: 0 <= i < 32 ==>
      Bits(ClearCaptured(latest, captured), 32)[i] == (Bits(latest, 32)[i] && !(i < 5 && Bits(captured, 32)[i]))
  {
    BitsOfValue(seq(32, i requires 0 <= i < 32 => Bits(latest, 32)[i] && !(i < 5 && Bits(captured, 32)[i])));
  }

  /** The captured causes are gone from the register and nothing else is: what arrived after the capture is still there. */
  ghost predicate Cleared(captured: u32, now: u32) {
    captured % 0x20 != 0 ==> exists latest: u32 :: Gained(captured, latest) && now == ClearCaptured(latest, captured)
  }

  datatype ResetStatus =
    | RESET_OK | CAPTURE_FAILED | CLEAR_READ_FAILED | CLEAR_WRITE_FAILED | RESET_RECOVERY | RESET_STORE_FAILED
    | CLASSIFY_FAILED

  /** Only the parts reached are there, as the valid bits of the report say. */
  datatype Report = Report(
    captured: Option<u32>, cleared: bool, store: Option<StoreStatus>, decision: Option<Decision>, snapshot: Option<Snapshot>)

  /** The record once the capture has been accounted for. */
  ghost predicate Accounted(before: Metadata, captured: u32, after: Metadata) {
    if Counted(before, captured) then Propose(before, captured).Proposal? && Propose(before, captured).result == Change(after)
    else after == before
  }

  /** There is no number left for the record of this failure. */
  predicate Uncountable(r: Metadata, flags: u32) { Counted(r, flags) && r.sequence == UINT32_MAX }

  /** boot_reset_handler_run. */
  method RunResetHandler(register: ResetRegister, dev: Device) returns (status: ResetStatus, report: Report)
    requires dev.Sized()
    modifies register, dev, dev.mem
    ensures SameOutside(old(dev.Memory()), dev.Memory())
    ensures Gained(old(register.flags), if report.captured.Some? then report.captured.value else register.flags)
    ensures !report.cleared ==> dev.Memory() == old(dev.Memory()) && status != RESET_OK
    ensures report.cleared ==> report.captured.Some? && Cleared(report.captured.value, register.flags)
    ensures report.snapshot.Some? <==> status == RESET_OK
    ensures !dev.fabricatedReads && old(Durable(dev.Memory())).Some? ==>
      && (Durable(dev.Memory()) == old(Durable(dev.Memory()))
          || (report.cleared && Durable(dev.Memory()).Some?
              && Counted(old(Durable(dev.Memory())).value.record, report.captured.value)
              && Accounted(old(Durable(dev.Memory())).value.record, report.captured.value, Durable(dev.Memory()).value.record)))
      && (status == RESET_OK ==>
            && Durable(dev.Memory()) == report.snapshot
            && Accounted(old(Durable(dev.Memory())).value.record, report.captured.value, report.snapshot.value.record))
      && (status != RESET_OK && report.store != Some(UNCERTAIN) ==>
            Durable(dev.Memory()) == old(Durable(dev.Memory())))
      && status != RESET_RECOVERY
    ensures dev.faults >= old(dev.faults)
    ensures report.cleared && dev.faults == old(dev.faults) && !old(dev.blocked) && old(Durable(dev.Memory())).Some? ==>
      (if Uncountable(old(Durable(dev.Memory())).value.record, report.captured.value) then status == CLASSIFY_FAILED
       else status == RESET_OK && !dev.blocked)
  {
    report := Report(None, false, None, None, None);
    var ok, captured, latest;
    ok, captured := register.Read();
    if !ok { return CAPTURE_FAILED, report; }
    report := report.(captured := Some(captured));
    if captured % 0x20 != 0 {
      ok, latest := register.Read();
      if !ok { return CLEAR_READ_FAILED, report; }
      ok := register.Write(ClearCaptured(latest, captured));
      if !ok { return CLEAR_WRITE_FAILED, report; }
    }
    report := report.(cleared := true);
    status, report := Account(dev, captured, report);
  }

  /** The authoritative record is loaded, the capture classified, and at most one count committed. */
  method Account(dev: Device, captured: u32, so_far: Report) returns (status: ResetStatus, report: Report)
    requires dev.Sized() && so_far.snapshot.None?
    modifies dev, dev.mem
    ensures SameOutside(old(dev.Memory()), dev.Memory())
    ensures report.captured == so_far.captured && report.cleared == so_far.cleared
    ensures report.snapshot.Some? <==> status == RESET_OK
    ensures !dev.fabricatedReads && old(Durable(dev.Memory())).Some? ==>
      var before := old(Durable(dev.Memory())).value.record;
      && (Durable(dev.Memory()) == old(Durable(dev.Memory()))
          || (Durable(dev.Memory()).Some? && Counted(before, captured)
              && Accounted(before, captured, Durable(dev.Memory()).value.record)))
      && (status == RESET_OK ==>
            Durable(dev.Memory()) == report.snapshot && Accounted(before, captured, report.snapshot.value.record))
      && (status != RESET_OK && report.store != Some(UNCERTAIN) ==>
            Durable(dev.Memory()) == old(Durable(dev.Memory())))
      && status != RESET_RECOVERY
    ensures dev.faults >= old(dev.faults)
    ensures dev.faults == old(dev.faults) && !old(dev.blocked) && old(Durable(dev.Memory())).Some? ==>
      (if Uncountable(old(Durable(dev.Memory())).value.record, captured) then status == CLASSIFY_FAILED
       else status == RESET_OK && !dev.blocked)
  {
    report := so_far;
    ghost var before := dev.Memory();
    if Durable(before).Some? {
      DurableLoads(before);
      ProposeCounts(Durable(before).value.record, captured);
    }
    var loaded := LoadStore(dev);
    if loaded.Failed? {
      report := report.(store := Some(loaded.status));
      return if loaded.status in {NO_RECORD, CONFLICT, INVALID_RECORD} then RESET_RECOVERY else RESET_STORE_FAILED, report;
    }
    var proposal := ProposeReset(loaded.snapshot.record, captured);
    match proposal {
      case Rejected(_) => return CLASSIFY_FAILED, report.(store := None);
      case Proposal(result, decision) =>
        report := report.(store := None, decision := Some(decision));
        if result.Change? {
          var stored := Replace(dev, loaded.snapshot, result.record);
          if stored.Failed? { return RESET_STORE_FAILED, report.(store := Some(stored.status)); }
          return RESET_OK, report.(snapshot := Some(stored.snapshot));
        }
        return RESET_OK, report.(snapshot := Some(loaded.snapshot));
    }
  }

  datatype RuntimeStatus = RUNTIME_OK | CONSUMED | RUNTIME_RESET_FAILED | RUNTIME_SELECT_FAILED | RUNTIME_RECONCILE

  /** What one boot, however it ends, may do to the durable record, and what it may publish. */
  ghost predicate BootStep(before: Option<Snapshot>, captured: Option<u32>, after: Option<Snapshot>,
                           decision: Option<LaunchDecision>) {
    Booted(before, captured, after, decision) == Yes
  }

  ghost function Booted(before: Option<Snapshot>, captured: Option<u32>, after: Option<Snapshot>,
                        decision: Option<LaunchDecision>): Verdict {
    if && before.Some?
       && exists mid: Option<Snapshot> ::
         && mid.Some? && SelectStep(mid, after)
         && (mid == before || (captured.Some? && Counted(before.value.record, captured.value)
                               && Accounted(before.value.record, captured.value, mid.value.record)))
         && (decision.Some? ==>
               && captured.Some? && Accounted(before.value.record, captured.value, mid.value.record)
               && after == Some(decision.value.snapshot))
    then Yes else No
  }

  class Runtime {
    var consumed: bool

    constructor ()
      ensures !consumed
    {
      consumed := false;
    }

    /** boot_runtime_run: at most once; selection only after the reset has been accounted for. */
    method Run(register: ResetRegister, trust: Trust, dev: Device, observer: Observer, images: Images, ghost left: nat)
      returns (status: RuntimeStatus, report: Report, decision: Option<LaunchDecision>)
      requires dev.Sized() && observer.watchdog.Valid()
      modifies this, register, dev, dev.mem, observer.watchdog, observer.watchdog.io
      ensures consumed && observer.watchdog.Valid()
      ensures old(consumed) <==> status == CONSUMED
      ensures old(consumed) ==> dev.Memory() == old(dev.Memory()) && register.flags == old(register.flags)
      ensures SameOutside(old(dev.Memory()), dev.Memory())
      ensures decision.Some? <==> status == RUNTIME_OK
      ensures !old(consumed) ==>
        Gained(old(register.flags), if report.captured.Some? then report.captured.value else register.flags)
      ensures !dev.fabricatedReads && old(Durable(dev.Memory())).Some? ==>
        && BootStep(old(Durable(dev.Memory())), report.captured, Durable(dev.Memory()), decision)
        && (decision.Some? ==>
              && Published(trust, dev.Memory(), images, decision.value) && report.snapshot.Some?
              && Choice(trust, dev.Memory(), images, report.snapshot.value.record) == Some(decision.value.image.manifest.slot))
      ensures (&& !old(consumed) && report.cleared && dev.faults == old(dev.faults) && !old(dev.blocked)
               && !dev.fabricatedReads && old(Durable(dev.Memory())).Some?
               && old(Watched(observer, left + Epochs(images, SLOT_A) + Epochs(images, SLOT_B), 3))) ==>
        && report.captured.Some?
        && (report.snapshot.None? <==> Uncountable(old(Durable(dev.Memory())).value.record, report.captured.value))
        && (status == RUNTIME_OK <==>
              report.snapshot.Some? && Bootable(trust, dev.Memory(), images, report.snapshot.value.record))
    {
      report := Report(None, false, None, None, None);
      decision := None;
      ghost var before := dev.Memory();
      if consumed {
        NothingHappened(Durable(before), None);
        return CONSUMED, report, None;
      }
      consumed := true;
      var reset;
      reset, report := RunResetHandler(register, dev);
      ghost var mid := Durable(dev.Memory());
      if reset != RESET_OK {
        if mid.Some? { NothingHappened(mid, report.captured); }
        return if report.store == Some(UNCERTAIN) then RUNTIME_RECONCILE else RUNTIME_RESET_FAILED, report, None;
      }
      status, decision := Choose(trust, dev, observer, report.snapshot.value, images, left);
    }

    /** The selection, as the boot sees it. */
    method Choose(trust: Trust, dev: Device, observer: Observer, s: Snapshot, images: Images, ghost left: nat)
      returns (status: RuntimeStatus, decision: Option<LaunchDecision>)
      requires dev.Sized() && observer.watchdog.Valid()
      modifies dev, dev.mem, observer.watchdog, observer.watchdog.io
      ensures observer.watchdog.Valid() && SameOutside(old(dev.Memory()), dev.Memory())
      ensures status in {RUNTIME_OK, RUNTIME_SELECT_FAILED, RUNTIME_RECONCILE} && (decision.Some? <==> status == RUNTIME_OK)
      ensures !dev.fabricatedReads && old(Durable(dev.Memory())) == Some(s) ==>
        && SelectStep(Some(s), Durable(dev.Memory()))
        && (decision.Some? ==>
              && Published(trust, dev.Memory(), images, decision.value) && Durable(dev.Memory()) == Some(decision.value.snapshot)
              && Choice(trust, dev.Memory(), images, s.record) == Some(decision.value.image.manifest.slot))
      ensures dev.faults >= old(dev.faults)
      ensures (&& dev.faults == old(dev.faults) && !old(dev.blocked) && old(Durable(dev.Memory())) == Some(s)
               && !dev.fabricatedReads
               && old(Watched(observer, left + Epochs(images, SLOT_A) + Epochs(images, SLOT_B), 3))) ==>
        (status == RUNTIME_OK <==> Bootable(trust, dev.Memory(), images, s.record))
    {
      if Durable(dev.Memory()) == Some(s) {
        DurableLoads(dev.Memory());
        EpochsBound(images, s.record);
      }
      var selected;
      selected, decision := SelectImage(trust, dev, observer, s, images, left);
      ChoiceKept(trust, old(dev.Memory()), dev.Memory(), images, s.record);
      status := if selected == SELECT_OK then RUNTIME_OK
                else if selected == SELECT_RECONCILE then RUNTIME_RECONCILE else RUNTIME_SELECT_FAILED;
    }
  }

  lemma NothingHappened(now: Option<Snapshot>, captured: Option<u32>)
    ensures now.Some? ==> SelectStep(now, now) && BootStep(now, captured, now, None)
  {
    assert TrialStep(now, now);
  }
}
