/** The boot services behind the FTP core: which names are special, and what begin, feed, eof, step and end do. */
module FtpBoot {
  import opened Bytes
  import opened Format
  import opened Flash
  import opened Store
  import opened Lifecycle
  import opened History
  import opened Truth
  import Diag
  import Status
  import Confirm
  import Text
  import Verify
  import Service
  import opened Receive

  datatype Kind = NONE | STATUS | REPORT | FIRMWARE | CONFIRM

  datatype StepResult = STEP_OK | STEP_WAIT | STEP_ACCEPTED | STEP_ERROR

  /** kind(): an exact name, alone or behind one slash. */
  function KindOf(name: string, upload: bool): Kind {
    var p := if name != "" && name[0] == '/' then name[1..] else name;
    if !upload && p == "boot-status" then STATUS
    else if !upload && p == "boot-report" then REPORT
    else if upload && p == "firmware" then FIRMWARE
    else if upload && p == "confirm" then CONFIRM
    else NONE
  }

  // ---- the report of the running application ----

  /** What the application says of itself. */
  datatype Descriptor = Descriptor(id: string, description: string)

  const ID_MAX: nat := 32
  const DESCRIPTION_MAX: nat := 128
  const PREFIX_CAPACITY: nat := 247

  predicate Printable(s: string, max: nat) { 0 < |s| <= max && forall i :: 0 <= i < |s| ==> ' ' <= s[i] <= '~' }

  function ApplicationOf(slot: u32): string { if slot == SLOT_A then "slot-a-breathing" else "slot-b-blink" }

  /** descriptor_valid(). */
  predicate Describable(d: Descriptor) {
    && Printable(d.id, ID_MAX) && Printable(d.description, DESCRIPTION_MAX)
    && (d.id == ApplicationOf(SLOT_A) || d.id == ApplicationOf(SLOT_B))
  }

  function Heading(d: Descriptor): string {
    "format=1\napplication=" + d.id + "\nmessage=" + d.id + " booted successfully. " + d.description + "\n\n"
  }

  /** Success is reported for the application that runs, in full health and without a fault. */
  predicate Successful(d: Descriptor, s: Status.Captured) {
    && s.context.healthKnown && s.diagnostic.health == HEALTH_REQUIRED && s.diagnostic.fault == 0
    && d.id == ApplicationOf(s.running.manifest.slot)
  }

  /** The text for a capture. */
  function Told(kind: Kind, report: Option<Descriptor>, s: Status.Captured): string {
    if kind == REPORT && report.Some? then Heading(report.value) + Status.Rendering(s) else Status.Rendering(s)
  }

  /** report_render(): the unchanged status behind the message, from one capture. */
  function Report(d: Descriptor, s: Status.Captured): Option<string> {
    if !Successful(d, s) || |Heading(d)| >= PREFIX_CAPACITY then None
    else match Status.Render(s, PREFIX_CAPACITY + Status.STATUS_CAPACITY - |Heading(d)|)
         case None => None
         case Some(text) => Some(Heading(d) + text)
  }

  /** A valid descriptor always fits: a report is refused for what it would have to say, never for its length. */
  lemma ReportFits(d: Descriptor, s: Status.Captured)
    requires Describable(d) && Status.Renderable(s)
    ensures Report(d, s) == if Successful(d, s) then Some(Heading(d) + Status.Rendering(s)) else None
  {
    Status.StatusRoundTrip(s, PREFIX_CAPACITY + Status.STATUS_CAPACITY - |Heading(d)|);
  }

  /** What a download shows was captured from the durable record, and a report only of a success. */
  ghost predicate Shown(kind: Kind, report: Option<Descriptor>, mem: seq<u8>, text: string) {
    exists s: Status.Captured {:trigger Status.Rendering(s)} ::
      && Status.Renderable(s) && (Durable(mem).Some? ==> Durable(mem) == Some(s.metadata))
      && (kind == REPORT ==> report.Some? && Successful(report.value, s))
      && text == Told(kind, report, s)
  }

  // ---- the operation ----

  /** The request that was sent is in force: the slot it names holds, confirmed, the image of that acceptance. */
  ghost predicate Asked(mem: seq<u8>, taken: seq<u8>) {
    && Confirm.ParseConfirm(Text.Chars(taken)).Some? && Durable(mem).Some?
    && Service.ConfirmedAs(Durable(mem).value.record, Confirm.ParseConfirm(Text.Chars(taken)).value)
  }

  class Boot {
    const receiver: Receiver
    const parser: Confirm.Parser
    const confirm: Service.ConfirmService
    const publication: Diag.Publication
    const permitted: u32
    const report: Option<Descriptor>
    var active: Kind
    var quarantine: bool
    var firmwareUsed: bool
    var accepted: bool
    var eof: bool
    var resetRequested: bool
    var acceptance: Option<Acceptance>

    /** How the flags hang together. */
    ghost predicate Coherent()
      reads this, receiver`state
    {
      Coherence() == Yes
    }

    ghost function Coherence(): Verdict
      reads this, receiver`state
    {
      if && (if active == FIRMWARE then firmwareUsed && receiver.state.phase != NEW else receiver.state.phase in {NEW, TERMINAL})
         && (!firmwareUsed ==> receiver.state.phase == NEW)
         && (accepted && active == FIRMWARE ==> receiver.state.phase == TERMINAL && acceptance.Some? && resetRequested)
      then Yes else No
    }

    ghost predicate Valid()
      reads this, receiver, receiver.dev, receiver.dev.mem, receiver.observer.watchdog
      reads receiver.plan, receiver.manifest, receiver.word, parser, publication, publication.words
    {
      && Coherent() && receiver.Valid() && Ready()
    }

    /** What is needed beside the receiver. */
    ghost predicate Ready()
      reads parser, receiver.dev, publication, publication.words
    {
      Readiness() == Yes
    }

    ghost function Readiness(): (v: Verdict)
      reads parser, receiver.dev, publication, publication.words
      ensures v == Yes ==> parser.Valid()
    {
      if && parser.Valid() && publication.Valid() && (report.Some? ==> Describable(report.value))
         && parser.bytes != receiver.dev.mem && parser.bytes != receiver.manifest && parser.bytes != receiver.word
      then Yes else No
    }

    /** The metadata tells the truth, and did so when the upload began. */
    ghost predicate Honest()
      reads receiver, receiver.dev, receiver.dev.mem
    {
      Honesty() == Yes
    }

    ghost function Honesty(): Verdict
      reads receiver, receiver.dev, receiver.dev.mem
    {
      if && Truthful(receiver.trust, receiver.dev.Memory())
         && (receiver.state.phase != NEW ==> Truthful(receiver.trust, receiver.start)) then Yes else No
    }

    /** What acceptance means: what was taken is delivered, or what was asked for is in force. */
    ghost predicate Proved(kind: Kind, taken: seq<u8>)
      reads this, receiver, receiver.plan, receiver.manifest, receiver.word, receiver.dev, receiver.dev.mem
    {
      Proof(kind, taken) == Yes
    }

    ghost function Proof(kind: Kind, taken: seq<u8>): Verdict
      reads this, receiver, receiver.plan, receiver.manifest, receiver.word, receiver.dev, receiver.dev.mem
    {
      if ProofMeaning(kind, taken) then Yes else No
    }

    ghost predicate ProofMeaning(kind: Kind, taken: seq<u8>)
      reads this, receiver, receiver.plan, receiver.manifest, receiver.word, receiver.dev, receiver.dev.mem
    {
      match kind
      case FIRMWARE =>
        && acceptance.Some? && resetRequested && receiver.input == taken
        && Delivered(receiver.trust, receiver.dev.Silent(), receiver.dev.Memory(), receiver.View(), acceptance.value)
        && (Durable(receiver.start).Some? ==> Durable(receiver.dev.Memory()) == Some(acceptance.value.metadata))
      case CONFIRM => Asked(receiver.dev.Memory(), taken)
      case _ => false
    }

    /** What the active upload has taken. */
    ghost function Taken(): seq<u8>
      requires parser.Valid()
      reads this, receiver, parser, parser.bytes
    {
      if active == FIRMWARE then receiver.input else parser.Fed()
    }

    constructor (receiver: Receiver, confirm: Service.ConfirmService, publication: Diag.Publication, permitted: u32,
                 report: Option<Descriptor>)
      requires receiver.Valid() && receiver.state.phase == NEW && publication.Valid()
      requires report.Some? ==> Describable(report.value)
      ensures Valid() && active == NONE && !quarantine && !firmwareUsed && !resetRequested
      ensures this.receiver == receiver && this.confirm == confirm && this.publication == publication
      ensures this.permitted == permitted && this.report == report && fresh(parser) && fresh(parser.bytes)
    {
      this.receiver, this.confirm, this.publication, this.permitted := receiver, confirm, publication, permitted;
      this.report := report;
      parser := new Confirm.Parser();
      active, quarantine, firmwareUsed, accepted, eof, resetRequested := NONE, false, false, false, false, false;
      acceptance := None;
    }

    /** begin(): one operation at a time, none in quarantine, and one firmware upload ever. */
    method Begin(name: string, upload: bool, running: Option<VerifiedImage>) returns (ok: bool, view: Option<string>)
      requires Valid()
      modifies this, receiver, receiver.dev, parser
      ensures Valid() && (old(Honest()) ==> Honest())
      ensures old(active) != NONE || old(quarantine) ==> !ok && active == old(active) && receiver.dev.blocked == old(receiver.dev.blocked)
      ensures ok ==> active == KindOf(name, upload) && active != NONE && !accepted && !eof
      ensures !ok && old(active) == NONE ==> active == NONE
      ensures old(active) == NONE && !old(quarantine) && KindOf(name, upload) == CONFIRM ==> ok
      ensures old(active) == NONE && !old(quarantine) && KindOf(name, upload) == FIRMWARE ==> firmwareUsed
      ensures ok && upload ==> Taken() == []
      ensures ok && active == FIRMWARE ==> !old(firmwareUsed) && receiver.state.phase == HEADER && receiver.state.permitted == permitted
      ensures view.Some? <==> ok && active in {STATUS, REPORT}
      ensures view.Some? ==> Shown(active, report, receiver.dev.Memory(), view.value)
      ensures (old(quarantine) ==> quarantine) && (old(firmwareUsed) ==> firmwareUsed)
      ensures resetRequested == old(resetRequested) && acceptance == old(acceptance)
    {
      if active != NONE || quarantine { return false, None; }
      var kind := KindOf(name, upload);
      if kind == NONE || (kind == FIRMWARE && firmwareUsed) { return false, None; }
      ok, view := BeginKind(kind, running);
    }

    method BeginKind(kind: Kind, running: Option<VerifiedImage>) returns (ok: bool, view: Option<string>)
      requires Valid() && active == NONE && kind != NONE && (kind == FIRMWARE ==> !firmwareUsed)
      modifies this`active, this`quarantine, this`firmwareUsed, this`accepted, this`eof, receiver, receiver.dev, parser
      ensures Valid() && active == (if ok then kind else NONE) && !accepted && !eof && (old(Honest()) ==> Honest())
      ensures kind == CONFIRM ==> ok
      ensures kind == FIRMWARE ==> firmwareUsed
      ensures ok && kind in {FIRMWARE, CONFIRM} ==> Taken() == []
      ensures ok && kind == FIRMWARE ==> receiver.state.phase == HEADER && receiver.state.permitted == permitted
      ensures view.Some? <==> ok && kind in {STATUS, REPORT}
      ensures view.Some? ==> Shown(kind, report, receiver.dev.Memory(), view.value)
      ensures (old(quarantine) ==> quarantine) && (old(firmwareUsed) ==> firmwareUsed)
    {
      Claim();
      view := None;
      if kind in {FIRMWARE, CONFIRM} {
        ok := BeginUpload(kind, running);
      } else {
        view := BeginView(kind, running);
        ok := view.Some?;
      }
      Settle(if ok then kind else NONE);
    }

    method Claim()
      modifies this`accepted, this`eof
      ensures !accepted && !eof
    {
      accepted, eof := false, false;
    }

    /** The operation is there, or not; a blocked flash quarantines either way. */
    method Settle(kind: Kind)
      requires receiver.Valid() && Ready() && !accepted
      requires if kind == FIRMWARE then firmwareUsed && receiver.state.phase != NEW else receiver.state.phase in {NEW, TERMINAL}
      requires !firmwareUsed ==> receiver.state.phase == NEW
      modifies this`active, this`quarantine
      ensures Valid() && active == kind && quarantine == (old(quarantine) || receiver.dev.blocked)
    {
      if receiver.dev.blocked { quarantine := true; }
      active := kind;
    }

    method BeginUpload(kind: Kind, running: Option<VerifiedImage>) returns (ok: bool)
      requires receiver.Valid() && Ready() && kind in {FIRMWARE, CONFIRM}
      requires if kind == FIRMWARE then receiver.state.phase == NEW else receiver.state.phase in {NEW, TERMINAL}
      modifies this`firmwareUsed, this`quarantine, receiver, receiver.dev, parser
      ensures receiver.Valid() && Ready() && (old(quarantine) ==> quarantine) && (old(Honest()) ==> Honest())
      ensures if kind == FIRMWARE
              then firmwareUsed && (if ok then receiver.state.phase == HEADER else receiver.state.phase in {NEW, TERMINAL})
              else ok && firmwareUsed == old(firmwareUsed) && receiver.state == old(receiver.state)
      ensures ok && kind == FIRMWARE ==> receiver.state.permitted == permitted
      ensures ok ==> (if kind == FIRMWARE then receiver.input else parser.Fed()) == []
    {
      if kind == FIRMWARE {
        ok := BeginFirmware(running);
      } else {
        parser.Reset();
        ok := true;
      }
    }

    method BeginView(kind: Kind, running: Option<VerifiedImage>) returns (view: Option<string>)
      requires receiver.Valid() && Ready() && kind in {STATUS, REPORT}
      modifies receiver.dev
      ensures receiver.Valid()
      ensures view.Some? ==> Shown(kind, report, receiver.dev.Memory(), view.value)
    {
      view := None;
      if kind == REPORT && report.None? { return; }
      receiver.ValidOpen();
      var result, s := Service.Capture(publication, receiver.dev, running);
      receiver.ValidOpen();
      if result == Service.CAPTURE_OK { view := Rendered(kind, s.value); }
    }

    /** The text of a capture. */
    function Rendered(kind: Kind, s: Status.Captured): (text: Option<string>)
      requires Status.Renderable(s) && (report.Some? ==> Describable(report.value)) && kind in {STATUS, REPORT}
      requires kind == REPORT ==> report.Some?
      ensures text == if kind == REPORT && !Successful(report.value, s) then None else Some(Told(kind, report, s))
    {
      Status.StatusRoundTrip(s, Status.STATUS_CAPACITY);
      if kind == REPORT then (ReportFits(report.value, s); Report(report.value, s))
      else Status.Render(s, Status.STATUS_CAPACITY)
    }

    method BeginFirmware(running: Option<VerifiedImage>) returns (ok: bool)
      requires receiver.Valid() && receiver.state.phase == NEW
      modifies this`firmwareUsed, this`quarantine, receiver, receiver.dev
      ensures receiver.Valid() && firmwareUsed && (old(quarantine) ==> quarantine)
      ensures if ok then receiver.state.phase == HEADER && receiver.state.permitted == permitted
              else receiver.state.phase in {NEW, TERMINAL}
      ensures ok ==> receiver.input == []
      ensures receiver.state.phase != NEW ==> receiver.start == receiver.dev.Memory()
    {
      firmwareUsed := true;
      receiver.Tally();
      var r := receiver.Begin(permitted, running);
      if r == RX_RECONCILE { quarantine := true; }
      return r == RX_OK;
    }

    /** receive_result. */
    method Noted(r: ReceiveResult) returns (result: StepResult)
      modifies this`quarantine
      ensures quarantine == (old(quarantine) || r == RX_RECONCILE)
      ensures result == if r == RX_OK then STEP_OK else if r == RX_WAIT then STEP_WAIT else STEP_ERROR
    {
      if r == RX_RECONCILE { quarantine := true; }
      return if r == RX_OK then STEP_OK else if r == RX_WAIT then STEP_WAIT else STEP_ERROR;
    }

    /** feed(): nothing is taken after the end or after acceptance. */
    method Feed(bytes: seq<u8>) returns (result: StepResult, taken: nat)
      requires Valid()
      modifies this`quarantine, receiver, receiver.manifest, receiver.word, parser, parser.bytes
      ensures Valid() && taken <= |bytes| && (old(quarantine) ==> quarantine) && (old(Honest()) ==> Honest())
      ensures eof || accepted || active !in {FIRMWARE, CONFIRM} ==> result == STEP_ERROR && taken == 0
      ensures active in {FIRMWARE, CONFIRM} ==> Taken() == old(Taken()) + bytes[..taken]
      ensures active == CONFIRM && !eof && !accepted ==>
        if !old(parser.failed) && !parser.finished && |old(parser.Fed())| + |bytes| <= Confirm.CONFIRM_CAPACITY && Confirm.Plain(bytes)
        then result == STEP_OK && taken == |bytes| else result == STEP_ERROR && taken == 0
      ensures active == FIRMWARE && !eof && !accepted && result == STEP_OK && bytes != [] ==> taken > 0
    {
      result, taken := STEP_ERROR, 0;
      if !eof && !accepted {
        if active == FIRMWARE {
          result, taken := FeedFirmware(bytes);
        } else if active == CONFIRM {
          var ok := parser.Feed(bytes);
          if ok { result, taken := STEP_OK, |bytes|; }
        }
      }
    }

    method FeedFirmware(bytes: seq<u8>) returns (result: StepResult, taken: nat)
      requires receiver.Valid() && receiver.state.phase != NEW
      modifies this`quarantine, receiver, receiver.manifest, receiver.word
      ensures receiver.Valid() && receiver.state.phase != NEW && taken <= |bytes| && (old(quarantine) ==> quarantine)
      ensures receiver.input == old(receiver.input) + bytes[..taken] && receiver.start == old(receiver.start)
      ensures result == STEP_OK && bytes != [] ==> taken > 0
      ensures old(receiver.state.phase) == TERMINAL ==> receiver.state.phase == TERMINAL
    {
      var r;
      r, taken := receiver.Feed(bytes);
      result := Noted(r);
    }

    /** eof(): once. */
    method Eof() returns (ok: bool)
      requires Valid()
      modifies this`eof, this`quarantine, receiver
      ensures Valid() && (old(quarantine) ==> quarantine) && (old(Honest()) ==> Honest()) && Taken() == old(Taken())
      ensures ok ==> !old(eof) && eof && active in {FIRMWARE, CONFIRM}
      ensures old(eof) ==> eof && !ok
      ensures !old(eof) && active == CONFIRM ==> ok
      ensures ok && active == FIRMWARE ==> receiver.state.eof
    {
      if eof || active == NONE { return false; }
      eof := true;
      if active == FIRMWARE {
        ok := EndFirmware();
      } else {
        ok := active == CONFIRM;
      }
    }

    method EndFirmware() returns (ok: bool)
      requires receiver.Valid() && receiver.state.phase != NEW
      modifies this`quarantine, receiver
      ensures receiver.Valid() && receiver.state.phase != NEW && (old(quarantine) ==> quarantine)
      ensures receiver.input == old(receiver.input) && receiver.start == old(receiver.start)
      ensures old(receiver.state.phase) == TERMINAL ==> receiver.state.phase == TERMINAL
      ensures ok ==> receiver.state.eof
    {
      var r := receiver.Eof();
      var noted := Noted(r);
      ok := noted == STEP_OK;
    }

    /** step(): one bounded action. Acceptance means durable success and is repeated, not done again. */
    method Step(running: Option<VerifiedImage>) returns (result: StepResult)
      requires Valid()
      modifies this, receiver, receiver.plan, receiver.dev, receiver.dev.mem
      modifies receiver.observer.watchdog, receiver.observer.watchdog.io, parser, confirm
      ensures Valid() && active == old(active) && Taken() == old(Taken()) && (old(Honest()) ==> Honest())
      ensures (old(quarantine) ==> quarantine) && (old(resetRequested) ==> resetRequested)
      ensures old(quarantine) || active == NONE ==> result == STEP_ERROR
      ensures old(quarantine) || active !in {FIRMWARE, CONFIRM} || old(accepted) ==>
        receiver.dev.Memory() == old(receiver.dev.Memory())
      ensures result == STEP_ACCEPTED <==> accepted && !old(quarantine) && active != NONE
      ensures accepted == (old(accepted) || result == STEP_ACCEPTED)
      ensures result == STEP_ACCEPTED && !old(accepted) && (active == FIRMWARE || old(Durable(receiver.dev.Memory())).Some?) ==>
        Proved(active, Taken())
      ensures result == STEP_ACCEPTED && !old(accepted) && active == CONFIRM ==> eof
      ensures result == STEP_WAIT ==>
        if active == FIRMWARE then old(receiver.state.phase == HEADER || (receiver.state.phase == PAYLOAD && receiver.Starved()))
        else !(active == CONFIRM && eof)
      ensures result == STEP_OK ==> active == FIRMWARE && receiver.Remaining() < old(receiver.Remaining())
    {
      if quarantine || active == NONE {
        result := STEP_ERROR;
      } else if accepted {
        result := STEP_ACCEPTED;
      } else if active == FIRMWARE || (active == CONFIRM && eof) {
        result := Act(running);
      } else {
        result := STEP_WAIT;
      }
    }

    /** The one action. */
    method Act(running: Option<VerifiedImage>) returns (result: StepResult)
      requires Valid() && !accepted && (active == FIRMWARE || (active == CONFIRM && eof))
      modifies this`accepted, this`resetRequested, this`acceptance, this`quarantine, receiver, receiver.plan
      modifies receiver.dev, receiver.dev.mem, receiver.observer.watchdog, receiver.observer.watchdog.io, parser, confirm
      ensures Valid() && Taken() == old(Taken()) && (old(Honest()) ==> Honest())
      ensures (old(quarantine) ==> quarantine) && (old(resetRequested) ==> resetRequested)
      ensures result == STEP_ACCEPTED <==> accepted
      ensures accepted && (active == FIRMWARE || old(Durable(receiver.dev.Memory())).Some?) ==> Proved(active, Taken())
      ensures result == STEP_WAIT ==>
        active == FIRMWARE && old(receiver.state.phase == HEADER || (receiver.state.phase == PAYLOAD && receiver.Starved()))
      ensures result == STEP_OK ==> active == FIRMWARE && receiver.Remaining() < old(receiver.Remaining())
    {
      if active == FIRMWARE {
        result := StepFirmware();
      } else {
        result := StepConfirm(running);
      }
    }

    method StepFirmware() returns (result: StepResult)
      requires receiver.Valid() && receiver.state.phase != NEW && !accepted
      modifies this`accepted, this`resetRequested, this`acceptance, this`quarantine, receiver, receiver.plan
      modifies receiver.dev, receiver.dev.mem, receiver.observer.watchdog, receiver.observer.watchdog.io
      ensures receiver.Valid() && receiver.state.phase != NEW && (old(quarantine) ==> quarantine)
      ensures receiver.input == old(receiver.input) && (old(Honest()) ==> Honest())
      ensures (result == STEP_ACCEPTED <==> accepted) && (old(resetRequested) ==> resetRequested)
      ensures result == STEP_WAIT ==>
        old(receiver.state.phase == HEADER || (receiver.state.phase == PAYLOAD && receiver.Starved()))
      ensures result == STEP_OK ==> receiver.Remaining() < old(receiver.Remaining())
      ensures accepted ==>
        receiver.state.phase == TERMINAL && resetRequested && acceptance.Some? && Proved(FIRMWARE, receiver.input)
    {
      var r, delivered := StepReceiver();
      if r == RX_ACCEPTED {
        Accept(delivered.value);
        result := STEP_ACCEPTED;
      } else {
        result := Noted(r);
      }
    }

    method StepReceiver() returns (r: ReceiveResult, delivered: Option<Acceptance>)
      requires receiver.Valid() && receiver.state.phase != NEW
      modifies receiver, receiver.plan, receiver.dev, receiver.dev.mem, receiver.observer.watchdog, receiver.observer.watchdog.io
      ensures receiver.Valid() && receiver.state.phase != NEW
      ensures receiver.input == old(receiver.input) && (old(Honest()) ==> Honest())
      ensures r == RX_WAIT ==>
        old(receiver.state.phase == HEADER || (receiver.state.phase == PAYLOAD && receiver.Starved()))
      ensures r == RX_OK ==> receiver.Remaining() < old(receiver.Remaining())
      ensures delivered.Some? <==> r == RX_ACCEPTED
      ensures delivered.Some? ==>
        && receiver.state.phase == TERMINAL
        && Delivered(receiver.trust, receiver.dev.Silent(), receiver.dev.Memory(), receiver.View(), delivered.value)
        && (Durable(receiver.start).Some? ==> Durable(receiver.dev.Memory()) == Some(delivered.value.metadata))
    {
      r, delivered := receiver.Step();
      receiver.ValidMeans();
      if delivered.Some? {
        DeliveredDurably(receiver.trust, receiver.dev.Silent(), receiver.dev.Memory(), receiver.View(), delivered.value);
      }
    }

    method Accept(a: Acceptance)
      requires Delivered(receiver.trust, receiver.dev.Silent(), receiver.dev.Memory(), receiver.View(), a)
      requires Durable(receiver.start).Some? ==> Durable(receiver.dev.Memory()) == Some(a.metadata)
      modifies this`accepted, this`resetRequested, this`acceptance
      ensures accepted && resetRequested && acceptance == Some(a) && Proved(FIRMWARE, receiver.input)
    {
      accepted, resetRequested, acceptance := true, true, Some(a);
    }

    method StepConfirm(running: Option<VerifiedImage>) returns (result: StepResult)
      requires receiver.Valid() && receiver.state.phase in {NEW, TERMINAL} && Ready() && !accepted
      modifies this`accepted, this`quarantine, receiver.dev, receiver.dev.mem, parser, confirm
      ensures receiver.Valid() && Ready() && parser.Fed() == old(parser.Fed()) && (old(quarantine) ==> quarantine)
      ensures result in {STEP_ACCEPTED, STEP_ERROR} && (result == STEP_ACCEPTED <==> accepted)
      ensures old(Honest()) ==> Honest()
      ensures accepted && old(Durable(receiver.dev.Memory())).Some? ==> Asked(receiver.dev.Memory(), parser.Fed())
    {
      var request := parser.Finish();
      if request.Some? {
        var r := ApplyRequest(running, request.value);
        if r == Service.CONFIRM_RECONCILE || receiver.dev.blocked { quarantine := true; }
        accepted := r == Service.CONFIRM_OK;
      }
      result := if accepted then STEP_ACCEPTED else STEP_ERROR;
    }

    method ApplyRequest(running: Option<VerifiedImage>, request: ConfirmRequest) returns (r: Service.ConfirmStatus)
      requires receiver.Valid() && receiver.state.phase in {NEW, TERMINAL} && Ready()
      modifies receiver.dev, receiver.dev.mem, confirm
      ensures receiver.Valid() && Ready() && (old(Honest()) ==> Honest())
      ensures r == Service.CONFIRM_OK && old(Durable(receiver.dev.Memory())).Some? ==>
        && Durable(receiver.dev.Memory()).Some?
        && Service.ConfirmedAs(Durable(receiver.dev.Memory()).value.record, request)
    {
      receiver.ValidOpen();
      var committed;
      r, committed := confirm.Apply(publication, receiver.dev, running, request);
      Service.ConfirmKeepsTruth(receiver.trust, old(receiver.dev.Memory()), receiver.dev.Memory(), request);
      OthersMayCommit(receiver.trust, receiver.dev.Silent(), old(receiver.dev.Memory()), receiver.dev.Memory(), receiver.View());
      receiver.ValidOpen();
    }

    /** end(): an upload that was not accepted is aborted; what was accepted stays. */
    method End()
      requires Valid()
      modifies this`active, receiver
      ensures Valid() && active == NONE && (old(Honest()) ==> Honest())
      ensures old(active) == FIRMWARE && !accepted ==> receiver.state.phase == TERMINAL
      ensures accepted || old(active) != FIRMWARE ==>
        && receiver.state == old(receiver.state) && receiver.input == old(receiver.input)
        && receiver.start == old(receiver.start) && receiver.sound == old(receiver.sound)
    {
      if active == FIRMWARE && !accepted {
        var r := receiver.Abort();
      }
      active := NONE;
    }
  }

  lemma DeliveredDurably(trust: Verify.Trust, silent: bool, mem: seq<u8>, job: Job, a: Acceptance)
    requires Delivered(trust, silent, mem, job, a)
    ensures job.sound ==> Durable(mem) == Some(a.metadata)
  {
    DeliveredOpen(trust, silent, mem, job, a, 2 + |job.input|);
  }
}
