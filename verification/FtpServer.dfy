/** The FTP core together with the boot services: what a completion reply means for the flash. */
module FtpServer {
  import opened Bytes
  import opened Format
  import opened Codec
  import opened Flash
  import opened Store
  import opened Lifecycle
  import opened Verify
  import opened Truth
  import opened Receive
  import opened FtpReplies
  import opened FtpCore
  import opened FtpBoot
  import Text

  /** The answer of the boot services, as the core hears it. */
  function Heard(r: StepResult): OperationResult {
    match r
    case STEP_OK => OPERATION_OK
    case STEP_WAIT => OPERATION_WAIT
    case STEP_ACCEPTED => OPERATION_ACCEPTED
    case STEP_ERROR => OPERATION_ERROR
  }

  /** The boot services are as far as the core's record of them says: what was fed was taken, what is shown is what was
      handed over, and what was accepted is proved. */
  ghost predicate Mirrors(boot: Boot, p: Progress)
    reads boot, boot.receiver, boot.receiver.dev, boot.receiver.dev.mem, boot.receiver.observer.watchdog
    reads boot.receiver.plan, boot.receiver.manifest, boot.receiver.word, boot.parser, boot.parser.bytes
    reads boot.publication, boot.publication.words
  {
    && boot.Valid() && boot.Honest()
    && (if p.active
        then && boot.active == KindOf(p.name, p.upload) && boot.active != Kind.NONE && boot.accepted == p.accepted
             && (if p.upload then boot.Taken() == p.taken
                 else Shown(boot.active, boot.report, boot.receiver.dev.Memory(), Text.Chars(p.view)))
        else boot.active == Kind.NONE)
    && (p.accepted ==> boot.Proved(KindOf(p.name, p.upload), p.taken))
  }

  /** What proof means for firmware: the durable record names, as a READY candidate under its own sequence number, the image
      that was received, it is stored whole and is good, and a reset is asked for. */
  lemma FirmwareProved(boot: Boot, taken: seq<u8>)
    requires boot.Valid() && boot.Honest() && boot.Proved(FIRMWARE, taken) && boot.receiver.state.phase != NEW
    ensures boot.resetRequested && |taken| >= MANIFEST_BYTES && SlotValid(boot.receiver.state.permitted)
    ensures var mem, slot := boot.receiver.dev.Memory(), boot.receiver.state.permitted;
      && Durable(mem).Some? && ManifestOf(taken[..MANIFEST_BYTES]).Ok?
      && (var r, m := Durable(mem).value.record, ManifestOf(taken[..MANIFEST_BYTES]).value;
          && |taken| == MANIFEST_BYTES + m.length && m.length <= PAYLOAD_MAX
          && ImageGood(boot.receiver.trust, taken[..MANIFEST_BYTES], slot, Payload(mem, slot, m.length))
          && r.candidate == slot && r.Image(slot) == Entry(m.hash, m.release, m.length, READY_ACCOUNT, r.sequence))
      && (!boot.receiver.dev.Silent() ==> Exact(mem, slot, taken))
  {
    var r := boot.receiver;
    DeliveredOpen(r.trust, r.dev.Silent(), r.dev.Memory(), r.View(), boot.acceptance.value, 2 + |taken|);
  }

  /** What one call on record asks of the boot services, and whether they answer as recorded. */
  method RepeatBegin(boot: Boot, ghost p: Progress, name: string, upload: bool, ok: bool, view: seq<u8>) returns (agrees: bool)
    requires Mirrors(boot, p) && p.Allows(Began(name, upload, ok, view))
    modifies boot, boot.receiver, boot.receiver.dev, boot.parser
    ensures agrees ==> Mirrors(boot, p.After(Began(name, upload, ok, view)))
  {
    var running: Option<VerifiedImage> := *;
    var begun, shown := boot.Begin(name, upload, running);
    agrees := begun == ok && (shown.Some? ==> shown.value == Text.Chars(view));
  }

  method RepeatFeed(boot: Boot, ghost p: Progress, bytes: seq<u8>, result: OperationResult, accepted: nat) returns (agrees: bool)
    requires Mirrors(boot, p) && p.Allows(Fed(bytes, result, accepted))
    modifies boot, boot.receiver, boot.receiver.manifest, boot.receiver.word, boot.parser, boot.parser.bytes
    ensures agrees ==> Mirrors(boot, p.After(Fed(bytes, result, accepted)))
  {
    var r, taken := boot.Feed(bytes);
    agrees := Heard(r) == result && taken == accepted;
  }

  method RepeatEof(boot: Boot, ghost p: Progress, ok: bool) returns (agrees: bool)
    requires Mirrors(boot, p) && p.Allows(Ended(ok))
    modifies boot, boot.receiver
    ensures agrees ==> Mirrors(boot, p.After(Ended(ok)))
  {
    var ended := boot.Eof();
    agrees := ended == ok;
  }

  method RepeatStep(boot: Boot, ghost p: Progress, result: OperationResult) returns (agrees: bool)
    requires Mirrors(boot, p) && p.Allows(Stepped(result))
    modifies boot, boot.receiver, boot.receiver.dev, boot.receiver.dev.mem, boot.receiver.plan
    modifies boot.receiver.observer.watchdog, boot.receiver.observer.watchdog.io, boot.parser, boot.confirm
    ensures agrees ==> Mirrors(boot, p.After(Stepped(result)))
  {
    var running: Option<VerifiedImage> := *;
    var r := boot.Step(running);
    agrees := Heard(r) == result;
  }

  method RepeatEnd(boot: Boot, ghost p: Progress)
    requires Mirrors(boot, p) && p.active
    modifies boot, boot.receiver
    ensures Mirrors(boot, p.After(Closed)) && Left(boot, p)
  {
    boot.End();
  }

  /** What an operation that has come so far leaves behind when it is ended. */
  ghost predicate Left(boot: Boot, p: Progress)
    reads boot, boot.receiver, boot.receiver.dev, boot.receiver.dev.mem, boot.receiver.observer.watchdog
    reads boot.receiver.plan, boot.receiver.manifest, boot.receiver.word, boot.parser, boot.publication, boot.publication.words
  {
    && boot.Valid() && boot.Honest() && boot.active == Kind.NONE
    && (p.accepted ==> boot.Proved(KindOf(p.name, p.upload), p.taken))
    && (!p.upload ==> Shown(KindOf(p.name, false), boot.report, boot.receiver.dev.Memory(), Text.Chars(p.view)))
  }
  method Repeat(boot: Boot, ghost p: Progress, call: Call) returns (agrees: bool)
    requires Mirrors(boot, p) && p.Allows(call)
    modifies boot, boot.receiver, boot.receiver.dev, boot.receiver.dev.mem, boot.receiver.plan, boot.receiver.manifest
    modifies boot.receiver.word, boot.receiver.observer.watchdog, boot.receiver.observer.watchdog.io
    modifies boot.parser, boot.parser.bytes, boot.confirm
    ensures agrees ==> Mirrors(boot, p.After(call))
  {
    match call {
      case Began(name, upload, ok, view) => agrees := RepeatBegin(boot, p, name, upload, ok, view);
      case Fed(bytes, result, accepted) => agrees := RepeatFeed(boot, p, bytes, result, accepted);
      case Ended(ok) => agrees := RepeatEof(boot, p, ok);
      case Stepped(result) => agrees := RepeatStep(boot, p, result);
      case Closed =>
        RepeatEnd(boot, p);
        agrees := true;
    }
  }

  lemma {:induction false} OrderlyPrefix(calls: seq<Call>, n: nat)
    requires Orderly(calls) && n < |calls|
    ensures Orderly(calls[..n]) && Summary(calls[..n]).Allows(calls[n])
    ensures Summary(calls[..n + 1]) == Summary(calls[..n]).After(calls[n])
  {
    if n == |calls| - 1 {
      assert calls[..n + 1] == calls;
    } else {
      var shorter := calls[..|calls| - 1];
      OrderlyPrefix(shorter, n);
      assert shorter[..n] == calls[..n] && shorter[..n + 1] == calls[..n + 1];
    }
    assert calls[..n + 1][..n] == calls[..n];
  }

  /** The calls that the core has made of its operation, made of the boot services one after the other. Whenever those
      answer all of them as the core was answered, they are where the core believes them to be. */
  method Replay(boot: Boot, calls: seq<Call>) returns (agrees: bool)
    requires boot.Valid() && boot.Honest() && boot.active == Kind.NONE && Orderly(calls)
    modifies boot, boot.receiver, boot.receiver.dev, boot.receiver.dev.mem, boot.receiver.plan, boot.receiver.manifest
    modifies boot.receiver.word, boot.receiver.observer.watchdog, boot.receiver.observer.watchdog.io
    modifies boot.parser, boot.parser.bytes, boot.confirm
    ensures agrees ==> Mirrors(boot, Summary(calls))
  {
    agrees := true;
    for i := 0 to |calls|
      invariant agrees && Mirrors(boot, Summary(calls[..i]))
    {
      OrderlyPrefix(calls, i);
      agrees := Repeat(boot, Summary(calls[..i]), calls[i]);
      if !agrees { return; }
    }
    assert calls[..|calls|] == calls;
  }

  /** What the core's own state says of its operation. */
  lemma OperationKnown(core: Core)
    requires core.Valid() && core.operation != null && core.core.operating
    ensures var calls, p := core.operation.log.calls, core.Doing();
      && Orderly(calls) && p == Summary(calls) && p.active
      && (core.core.direction == UPLOAD ==> p.upload && core.received == p.taken && (core.core.closing ==> p.accepted))
      && (core.core.direction != UPLOAD ==> core.core.direction == DOWNLOAD && !p.upload && core.core.download == p.view)
  {
    core.ValidOpen();
    KeptOpen(core.operation.log, 2 + |core.operation.log.calls|);
  }

  /** The boot services catch up with the core and end the operation. */
  method CatchUp(boot: Boot, calls: seq<Call>) returns (agrees: bool)
    requires boot.Valid() && boot.Honest() && boot.active == Kind.NONE && Orderly(calls) && Summary(calls).active
    modifies boot, boot.receiver, boot.receiver.dev, boot.receiver.dev.mem, boot.receiver.plan, boot.receiver.manifest
    modifies boot.receiver.word, boot.receiver.observer.watchdog, boot.receiver.observer.watchdog.io
    modifies boot.parser, boot.parser.bytes, boot.confirm
    ensures agrees ==> Left(boot, Summary(calls))
  {
    agrees := Replay(boot, calls);
    if agrees { RepeatEnd(boot, Summary(calls)); }
  }

  /** The close of a transfer: code 226 for an upload to the boot services is only ever sent once what was received is
      delivered, or the request received is in force; and a download was captured from the durable record. */
  method Complete(core: Core, boot: Boot, now: u32) returns (ok: bool, agrees: bool)
    requires core.Valid() && core.operation != null && core.core.operating
    requires boot.Valid() && boot.Honest() && boot.active == Kind.NONE
    modifies core`core, core`times, core.ring`count, core.ring`queue, core.ring.slots, core.storage, core.operation
    modifies boot, boot.receiver, boot.receiver.dev, boot.receiver.dev.mem, boot.receiver.plan, boot.receiver.manifest
    modifies boot.receiver.word, boot.receiver.observer.watchdog, boot.receiver.observer.watchdog.io
    modifies boot.parser, boot.parser.bytes, boot.confirm
    ensures ok <==> old(core.core.session && core.core.closing)
    ensures ok ==> core.ring.queue == Quieted(old(core.ring.queue)) + [Queued(COMPLETE, false)]
    ensures agrees ==> boot.Valid() && boot.Honest() && boot.active == Kind.NONE
    ensures ok && agrees && old(core.core.direction) == UPLOAD ==>
      boot.Proved(KindOf(old(core.Doing().name), true), old(core.received))
    ensures agrees && old(core.core.direction) == DOWNLOAD ==>
      Shown(KindOf(old(core.Doing().name), false), boot.report, boot.receiver.dev.Memory(), Text.Chars(old(core.core.download)))
  {
    OperationKnown(core);
    var calls := core.operation.log.calls;
    ok := core.DataCloseResult(true, now);
    agrees := CatchUp(boot, calls);
  }
}
