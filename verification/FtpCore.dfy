/** The FTP protocol core: one session, one passive listener, one transfer, and a bounded ring of replies. */
module FtpCore {
  import opened Bytes
  import opened RamFile
  import opened FtpReplies
  import opened Text

  datatype Direction = IDLE | UPLOAD | DOWNLOAD

  datatype Input = INPUT_OK | PARTIAL | BACKPRESSURE | REJECTED

  datatype Action = OPEN_PASSIVE | CLOSE_PASSIVE | ABORT_DATA | CLOSE_DATA | CLOSE_CONTROL | ABORT_CONTROL

  datatype OperationResult = OPERATION_OK | OPERATION_WAIT | OPERATION_ACCEPTED | OPERATION_ERROR

  /** Milliseconds modulo 2^32. */
  predicate Elapsed(now: u32, then_: u32, limit: u32) {
    (now as int - then_ as int) % 0x1_0000_0000 >= limit as int
  }

  /** A deadline is kept across a wrap of the clock, as long as the ticks in between have not wrapped themselves. */
  lemma ElapsedCountsTicks(then_: u32, ticks: nat, limit: u32)
    requires ticks < 0x1_0000_0000
    ensures Elapsed((then_ + ticks) % 0x1_0000_0000, then_, limit) <==> ticks >= limit as int
  {
    if then_ + ticks < 0x1_0000_0000 {
      assert (then_ + ticks) % 0x1_0000_0000 == then_ + ticks;
    } else {
      assert (then_ + ticks) % 0x1_0000_0000 == then_ + ticks - 0x1_0000_0000;
    }
  }

  /** A call of the operation, with its answer. */
  datatype Call =
    | Began(name: string, upload: bool, ok: bool, view: seq<u8>)
    | Fed(bytes: seq<u8>, result: OperationResult, accepted: nat)
    | Ended(ok: bool)
    | Stepped(result: OperationResult)
    | Closed

  /** How far the operation is, by the calls made of it. */
  datatype Progress = Progress(
    active: bool, name: string, upload: bool, view: seq<u8>, taken: seq<u8>, ended: bool, accepted: bool,
    begins: nat, ends: nat, steps: nat)
  {
    function After(call: Call): Progress {
      match call
      case Began(name, upload, ok, view) =>
        Progress(ok, name, upload, view, [], false, false, begins + (if ok then 1 else 0), ends, steps)
      case Fed(bytes, result, accepted) =>
        if accepted <= |bytes| then this.(taken := taken + bytes[..accepted]) else this
      case Ended(_) => this.(ended := true)
      case Stepped(result) => this.(accepted := result == OPERATION_ACCEPTED, steps := steps + 1)
      case Closed => this.(active := false, ends := ends + 1)
    }

    /** What the operation asks of its user: each begin that succeeded is ended once, the end of the input comes at most
        once, and nothing follows an acceptance. */
    predicate Allows(call: Call) {
      match call
      case Began(_, _, _, _) => !active
      case Fed(_, _, _) => active && !ended && !accepted
      case Ended(_) => active && !ended && !accepted
      case Stepped(_) => active && !accepted
      case Closed => active
    }
  }

  const UNUSED := Progress(false, "", false, [], [], false, false, 0, 0, 0)

  /** How far the calls have brought an operation that was not used before. */
  function Summary(calls: seq<Call>): Progress {
    if calls == [] then UNUSED else Summary(calls[..|calls| - 1]).After(calls[|calls| - 1])
  }

  /** Each call was allowed when it was made. */
  predicate Orderly(calls: seq<Call>) {
    calls == [] || (Orderly(calls[..|calls| - 1]) && Summary(calls[..|calls| - 1]).Allows(calls[|calls| - 1]))
  }

  datatype Record = Record(calls: seq<Call>, now: Progress)
  {
    predicate InOrder() {
      now == Summary(calls) && Orderly(calls) && now.begins == now.ends + (if now.active then 1 else 0)
    }

    /** The same, behind a descent that the verifier does not follow (see KeptOpen). */
    predicate Kept() { KeptBehind(this, 2 + |calls|) == Yes }

    function Plus(call: Call): (r: Record)
      requires Kept() && now.Allows(call)
      ensures r.Kept() && r.now == now.After(call)
    {
      assert (calls + [call])[..|calls|] == calls;
      var r := Record(calls + [call], now.After(call));
      KeptOpen(this, 2 + |calls|);
      KeptOpen(r, 2 + |r.calls|);
      r
    }
  }

  function KeptBehind(r: Record, depth: nat): Verdict {
    if depth != 0 then KeptBehind(r, depth - 1) else if r.InOrder() then Yes else No
  }

  lemma {:induction false} KeptOpen(r: Record, depth: nat)
    ensures KeptBehind(r, depth) == Yes <==> r.InOrder()
  {
    if depth != 0 { KeptOpen(r, depth - 1); }
  }

  /** Nothing has been asked yet. */
  function Fresh(): (r: Record)
    ensures r == Record([], UNUSED) && r.Kept()
  {
    KeptOpen(Record([], UNUSED), 2);
    Record([], UNUSED)
  }

  /** The record of an operation: every successful begin but the one that is active has been matched by one end. */
  type Log = r: Record | r.Kept() witness Fresh()

  /** Any foreground operation. Its answers are any; what was asked and answered is on record. */
  class Operation {
    var log: Log

    constructor ()
      ensures log.calls == [] && log.now == UNUSED
    {
      log := Fresh();
    }

    method Matches(name: string, upload: bool) returns (matches: bool) {
      matches := *;
    }

    method Begin(name: string, upload: bool) returns (ok: bool, view: seq<u8>)
      requires !log.now.active
      modifies this
      ensures log == old(log).Plus(Began(name, upload, ok, view))
    {
      ok, view := *, *;
      log := log.Plus(Began(name, upload, ok, view));
    }

    /** The count reported need not be one that is possible. */
    method Feed(bytes: seq<u8>) returns (result: OperationResult, accepted: nat)
      requires log.now.active && !log.now.ended && !log.now.accepted
      modifies this
      ensures log == old(log).Plus(Fed(bytes, result, accepted))
    {
      result, accepted := *, *;
      log := log.Plus(Fed(bytes, result, accepted));
    }

    method Eof() returns (ok: bool)
      requires log.now.active && !log.now.ended && !log.now.accepted
      modifies this
      ensures log == old(log).Plus(Ended(ok))
    {
      ok := *;
      log := log.Plus(Ended(ok));
    }

    method Step() returns (result: OperationResult)
      requires log.now.active && !log.now.accepted
      modifies this
      ensures log == old(log).Plus(Stepped(result))
    {
      result := *;
      log := log.Plus(Stepped(result));
    }

    method End()
      requires log.now.active
      modifies this
      ensures log == old(log).Plus(Closed)
    {
      log := log.Plus(Closed);
    }
  }

  /** Who is there, and in which mode. */
  datatype Standing = Standing(quitting: bool, user: bool, login: bool, binary: bool)

  /** What one command does to the standing of a session; busy means that a transfer is under way. */
  function Commanded(s: Standing, busy: bool, verb: Verb, arg: string): Standing {
    if verb == QUIT && arg == "" then s.(quitting := true)
    else if busy || (verb in {ABOR, NOOP, SYST, FEAT} && arg == "") then s
    else if verb == USER then Standing(s.quitting, arg == "anonymous", false, false)
    else if verb == PASS then s.(login := s.login || s.user)
    else if verb == TYPE && s.login then s.(binary := arg == "I")
    else s
  }

  /** A line as it was heard: whether a transfer was under way, and what it says unless it is malformed. */
  datatype Line = Line(busy: bool, command: Option<Command>)
  {
    predicate Says(v: Verb) { !busy && command.Some? && command.value.verb == v }

    function Effect(s: Standing): Standing {
      if command.None? then s else Commanded(s, busy, command.value.verb, command.value.arg)
    }
  }

  const NOBODY := Standing(false, false, false, false)

  /** The standing after the lines, one by one. */
  function Obeyed(s: Standing, lines: seq<Line>): Standing {
    if lines == [] then s else lines[|lines| - 1].Effect(Obeyed(s, lines[..|lines| - 1]))
  }

  lemma ObeyedOneMore(s: Standing, lines: seq<Line>, line: Line)
    ensures Obeyed(s, lines + [line]) == line.Effect(Obeyed(s, lines))
    ensures CommandsOf(lines + [line]) == CommandsOf(lines) + [line.command]
  {
    assert (lines + [line])[..|lines|] == lines;
  }

  lemma OneSaid<T>(said: seq<T>, rest: seq<T>, all: seq<T>)
    requires rest != [] && said + rest == all
    ensures (said + [rest[0]]) + rest[1..] == all
  {
    assert rest == [rest[0]] + rest[1..];
  }

  function CommandsOf(lines: seq<Line>): (r: seq<Option<Command>>)
    ensures |r| == |lines|
  {
    seq(|lines|, i requires 0 <= i < |lines| => lines[i].command)
  }

  /** The name last given is the anonymous one. */
  predicate Named(lines: seq<Line>, i: nat) {
    && i < |lines| && lines[i].Says(USER) && lines[i].command.value.arg == "anonymous"
    && forall k :: i < k < |lines| ==> !lines[k].Says(USER)
  }

  /** The anonymous name, no other one since, and after it the verb. */
  ghost predicate Earned(lines: seq<Line>, v: Verb) {
    exists i: nat, j: nat :: Named(lines, i) && i < j < |lines| && lines[j].Says(v)
  }

  /** Whoever is logged in gave the anonymous name, no other one since, and then a password; whoever is in binary mode
      asked for it after that name. */
  lemma {:induction false} LoginIsEarned(lines: seq<Line>)
    ensures Obeyed(NOBODY, lines).user <==> exists i: nat :: Named(lines, i)
    ensures Obeyed(NOBODY, lines).login ==> Obeyed(NOBODY, lines).user && Earned(lines, PASS)
    ensures Obeyed(NOBODY, lines).binary ==> Earned(lines, TYPE)
  {
    if lines != [] {
      var before := lines[..|lines| - 1];
      LoginIsEarned(before);
      LoginStep(Obeyed(NOBODY, before), before, lines);
    }
  }

  lemma LoginStep(s: Standing, before: seq<Line>, lines: seq<Line>)
    requires |lines| == |before| + 1 && lines[..|before|] == before
    requires (s.user <==> exists i: nat :: Named(before, i)) && (s.login ==> s.user && Earned(before, PASS))
    requires s.binary ==> Earned(before, TYPE)
    ensures var t := lines[|before|].Effect(s);
      && (t.user <==> exists i: nat :: Named(lines, i)) && (t.login ==> t.user && Earned(lines, PASS))
      && (t.binary ==> Earned(lines, TYPE))
  {
    var last := lines[|before|];
    var t := last.Effect(s);
    if last.Says(USER) {
      if t.user { assert Named(lines, |before|); }
    } else {
      forall i: nat | Named(before, i) ensures Named(lines, i) {}
      forall i: nat | Named(lines, i) ensures Named(before, i) {}
      if t.login { EarnedFurther(before, lines, PASS); }
      if t.binary { EarnedFurther(before, lines, TYPE); }
    }
  }

  lemma EarnedFurther(before: seq<Line>, lines: seq<Line>, v: Verb)
    requires |lines| == |before| + 1 && lines[..|before|] == before && v != USER && !lines[|before|].Says(USER)
    requires Earned(before, v) || (lines[|before|].Says(v) && exists i: nat :: Named(before, i))
    ensures Earned(lines, v)
  {
    if Earned(before, v) {
      var i: nat, j: nat :| Named(before, i) && i < j < |before| && before[j].Says(v);
      assert Named(lines, i) && lines[j].Says(v);
    } else {
      var i: nat :| Named(before, i);
      assert Named(lines, i) && i < |before|;
    }
  }

  /** When the core last saw something happen, in each of its ways. */
  datatype Times = Times(control: u32, output: u32, dataOutput: u32, passive: u32, start: u32, progress: u32, close: u32)

  /** The core structure, without its times. */
  datatype State = State(
    session: bool, quitting: bool, user: bool, login: bool, binary: bool,
    opening: bool, passive: bool, epsv: bool, connected: bool, ready: bool, eof: bool, closing: bool,
    direction: Direction, operating: bool, accepted: bool,
    download: seq<u8>, enqueued: nat, acked: nat, parser: Parser, actions: set<Action>)
  {
    function Who(): Standing { Standing(quitting, user, login, binary) }

    predicate Quiet() {
      !opening && !passive && !connected && !ready && !eof && !closing && direction == IDLE && !operating && !accepted
    }

    /** The transfer and its listener gone; everything else as it was. */
    function TornDown(): State {
      this.(opening := false, passive := false, connected := false, ready := false, eof := false, closing := false,
            direction := IDLE, operating := false, accepted := false, enqueued := 0, acked := 0, download := [],
            actions := actions - {OPEN_PASSIVE, CLOSE_DATA}
                       + (if opening || passive then {CLOSE_PASSIVE} else {})
                       + (if connected || direction != IDLE || closing then {ABORT_DATA} else {}))
    }

    /** The same when the connection has been closed. */
    function Finished(): State {
      var t := this.(connected := false, closing := false).TornDown();
      t.(actions := t.actions - {ABORT_DATA, CLOSE_DATA})
    }

    /** The session gone as well. */
    function Dropped(): State {
      this.(session := false, quitting := false, user := false, login := false, binary := false, parser := IDLE_PARSER,
            actions := actions - {CLOSE_CONTROL} + {ABORT_CONTROL})
    }

    /** A transfer has started. */
    function Opened(upload: bool, special: bool, view: seq<u8>): State {
      this.(operating := special, direction := if upload then UPLOAD else DOWNLOAD,
            download := if upload then download else view, enqueued := 0, acked := 0)
    }

    function Closing(): State { this.(closing := true, actions := actions + {CLOSE_DATA}) }

    /** Part of a reply has gone out: its last part may open the transfer, or let a quitting session close. */
    function Sent(opens: bool, empty: bool): State {
      this.(ready := ready || (opens && direction != IDLE),
            actions := actions + (if quitting && empty then {CLOSE_CONTROL} else {}))
    }

    predicate TransferReady() { direction != IDLE && connected && ready && !closing }

    /** How the flags hang together, with so many replies waiting. Nothing is opened before login and nothing is
        transferred outside binary mode. Room in the ring is kept for every reply that may still have to be sent without
        being asked for: two while a listener is opening, one while a listener or a transfer is there. */
    predicate Hangs(count: nat) {
      && (opening ==> count + 2 <= SLOTS) && (passive ==> count + 1 <= SLOTS)
      && (!session || quitting ==> Quiet()) && (!session ==> count == 0 && !quitting && Who() == NOBODY)
      && (login ==> user)
      && (opening ==> login && !passive && direction == IDLE)
      && (passive ==> login) && (connected ==> passive)
      && (direction != IDLE ==> passive && binary)
      && (ready ==> direction != IDLE)
      && (operating ==> direction != IDLE)
      && (closing ==> direction != IDLE && connected && ready)
      && (eof ==> direction == UPLOAD && connected && ready && (operating || closing))
      && (direction == UPLOAD && closing ==> eof && (operating ==> accepted))
      && (accepted ==> operating && closing && direction == UPLOAD)
      && (OPEN_PASSIVE in actions ==> opening) && (CLOSE_DATA in actions ==> closing)
      && acked <= enqueued <= |download|
      && (direction == DOWNLOAD && closing ==> acked == |download|)
    }

    /** The same, behind a descent that the verifier does not follow (see CoherentOpen). */
    predicate Coherent(count: nat) { CoherentBehind(this, count, 2 + count) == Yes }
  }

  function CoherentBehind(s: State, count: nat, depth: nat): Verdict {
    if depth != 0 then CoherentBehind(s, count, depth - 1) else if s.Hangs(count) then Yes else No
  }

  lemma CoherentOpen(s: State, count: nat)
    ensures s.Coherent(count) == s.Hangs(count)
  {
    CoherentDescent(s, count, 2 + count);
  }

  lemma {:induction false} CoherentDescent(s: State, count: nat, depth: nat)
    ensures CoherentBehind(s, count, depth) == Yes <==> s.Hangs(count)
  {
    if depth != 0 { CoherentDescent(s, count, depth - 1); }
  }

  /** Nothing that was open is forgotten: a listener is closed, a data connection or a transfer aborted, what was to be
      done for the control connection is still done, and who is there stays. */
  lemma NothingForgotten(s: State)
    ensures var t := s.TornDown();
      && t.Quiet() && t.Who() == s.Who() && t.session == s.session
      && (s.opening || s.passive ==> CLOSE_PASSIVE in t.actions)
      && (s.connected || s.direction != IDLE || s.closing ==> ABORT_DATA in t.actions)
      && OPEN_PASSIVE !in t.actions && CLOSE_DATA !in t.actions
      && s.actions - {OPEN_PASSIVE, CLOSE_DATA} <= t.actions
  {}

  /** Tearing down makes everything quiet and leaves room for one more reply. */
  lemma TornDownCoheres(s: State, count: nat)
    requires s.Coherent(count) && s.session
    ensures var t := s.TornDown();
      t.Quiet() && t.Coherent(count + 1) && t.session && t.Coherent(count)
  {
    CoherentOpen(s, count);
    CoherentOpen(s.TornDown(), count);
    CoherentOpen(s.TornDown(), count + 1);
  }

  const INITIAL := State(false, false, false, false, false, false, false, false, false, false, false, false, IDLE, false,
                         false, [], 0, 0, IDLE_PARSER, {})

  class Core {
    const storage: File
    const operation: Operation?
    const ring: Ring
    var core: State
    var times: Times
    /** The spans of the current upload that were accepted, one after the other. */
    ghost var received: seq<u8>

    /** How far the operation is. */
    ghost function Doing(): Progress
      reads operation
    {
      if operation == null then UNUSED else operation.log.now
    }

    /** The operation is active exactly while the core says so, and both have come equally far. */
    ghost predicate Linked()
      reads this`core, this`received, operation
    {
      Linkage() == Yes
    }

    ghost function Linkage(): Verdict
      reads this`core, this`received, operation
    {
      if && (core.operating <==> Doing().active)
         && (core.operating ==>
               && (Doing().ended <==> core.eof) && (Doing().accepted <==> core.accepted)
               && (core.direction == UPLOAD ==> Doing().upload && received == Doing().taken)
               && (core.direction == DOWNLOAD ==> !Doing().upload && core.download == Doing().view)) then Yes else No
    }

    /** What has been moved so far: an upload is staged as received, a download is the file as it was at RETR. */
    ghost predicate Moved()
      requires storage.Valid()
      reads this`core, this`received, storage, storage.bufferA, storage.bufferB
    {
      Movement() == Yes
    }

    ghost function Movement(): Verdict
      requires storage.Valid()
      reads this`core, this`received, storage, storage.bufferA, storage.bufferB
    {
      if && (core.direction == UPLOAD && !core.operating ==> storage.uploading && storage.staging == received)
         && (core.direction == DOWNLOAD && !core.operating ==> storage.contents == Some(core.download)) then Yes else No
    }

    ghost predicate Valid()
      reads this`core, this`received, ring, ring.slots, storage, storage.bufferA, storage.bufferB, operation
    {
      ValidBehind(2 + storage.capacity) == Yes
    }

    /** The invariant, behind a descent that the verifier does not follow (see ValidOpen). */
    ghost function ValidBehind(depth: nat): (v: Verdict)
      reads this`core, this`received, ring, ring.slots, storage, storage.bufferA, storage.bufferB, operation
      decreases depth
      ensures v == Yes ==> ring.Valid() && storage.Valid() && core.acked <= core.enqueued <= |core.download|
    {
      CoherentOpen(core, ring.count);
      if depth != 0 then ValidBehind(depth - 1)
      else if ring.Valid() && storage.Valid() && Linked() && Moved() && core.Coherent(ring.count) then Yes else No
    }

    lemma {:induction false} ValidDescent(depth: nat)
      ensures ValidBehind(depth) == Yes <==>
              ring.Valid() && storage.Valid() && Linked() && Moved() && core.Coherent(ring.count)
    {
      if depth != 0 { ValidDescent(depth - 1); }
    }

    lemma ValidParts()
      ensures Valid() <==> ring.Valid() && storage.Valid() && Linked() && Moved() && core.Coherent(ring.count)
    {
      ValidDescent(2 + storage.capacity);
    }

    /** The same with everything that coherence means. */
    lemma ValidOpen()
      ensures Valid() <==> ring.Valid() && storage.Valid() && Linked() && Moved() && core.Coherent(ring.count)
      ensures core.Coherent(ring.count) <==> core.Hangs(ring.count)
    {
      CoherentOpen(core, ring.count);
      ValidParts();
    }

    /** ftp_core_init and ftp_core_bind_operation. */
    constructor (storage: File, operation: Operation?)
      requires storage.Valid() && (operation != null ==> !operation.log.now.active)
      ensures Valid() && core == INITIAL && this.storage == storage && this.operation == operation
      ensures fresh(ring) && fresh(ring.slots)
    {
      this.storage, this.operation := storage, operation;
      ring := new Ring();
      core, times, received := INITIAL, Times(0, 0, 0, 0, 0, 0, 0), [];
      new;
      ValidOpen();
    }

    // ---- shared pieces ----

    method Teardown()
      requires ring.Valid() && storage.Valid() && (core.operating <==> Doing().active)
      modifies this`core, ring`queue, ring.slots, storage`stagingLength, storage`staging, storage`uploading, operation
      ensures core == old(core).TornDown() && !core.operating && core.direction == IDLE && Linked()
      ensures ring.Valid() && ring.queue == Quieted(old(ring.queue))
      ensures storage.Valid() && storage.contents == old(storage.contents) && !storage.uploading
      ensures Doing() == if old(core.operating) then old(Doing()).After(Closed) else old(Doing())
    {
      if core.operating { operation.End(); }
      core := core.TornDown();
      ring.ClearStarts();
      storage.Abort();
    }

    /** The session is gone, with everything it had. */
    method Lost()
      requires ring.Valid() && storage.Valid() && Linked()
      modifies this`core, this`times, ring, ring.slots, storage`stagingLength, storage`staging, storage`uploading
      modifies operation
      ensures Valid() && core == old(core).TornDown().Dropped()
      ensures storage.contents == old(storage.contents)
    {
      Teardown();
      core := core.Dropped();
      ring.Reset();
      ValidOpen();
    }

    /** Queues a reply. With a full ring the session would be dropped: no caller ever gets there. */
    method Say(answer: Answer, start: bool, now: u32)
      requires ring.Valid() && ring.count < SLOTS && Sayable(answer) && answer != COMPLETE
      modifies this`times, ring`count, ring`queue, ring.slots
      ensures ring.Valid() && ring.queue == old(ring.queue) + [Queued(answer, start)]
      ensures ring.count == old(ring.count) + 1
      ensures times == old(times).(output := if old(ring.count) == 0 then now else old(times.output))
    {
      if ring.count == SLOTS { assert false; }
      Waiting(now);
      ring.Push(answer, start);
    }

    /** If no reply is waiting, the time of the next one starts. */
    method Waiting(now: u32)
      modifies this`times
      ensures times == old(times).(output := if ring.count == 0 then now else old(times.output))
    {
      if ring.count == 0 { times := times.(output := now); }
    }

    /** Everything of the transfer is torn down and the failure reported, in the slot reserved for it. */
    method Failure(answer: Answer, now: u32)
      requires Valid() && core.session && ring.count < SLOTS && Sayable(answer) && answer != COMPLETE
      modifies this`core, this`times, ring`count, ring`queue, ring.slots, storage`stagingLength, storage`staging
      modifies storage`uploading, operation
      ensures Valid() && core == old(core).TornDown()
      ensures times == old(times).(output := if old(ring.count) == 0 then now else old(times.output))
      ensures ring.queue == Quieted(old(ring.queue)) + [Queued(answer, false)]
      ensures storage.contents == old(storage.contents)
      ensures Doing() == if old(core.operating) then old(Doing()).After(Closed) else old(Doing())
    {
      ValidParts();
      Fail(answer, now);
    }

    /** The same where the operation has already come further than the core. */
    method Fail(answer: Answer, now: u32)
      requires ring.Valid() && storage.Valid() && (core.operating <==> Doing().active) && core.Coherent(ring.count)
      requires core.session && ring.count < SLOTS && Sayable(answer) && answer != COMPLETE
      modifies this`core, this`times, ring`count, ring`queue, ring.slots, storage`stagingLength, storage`staging
      modifies storage`uploading, operation
      ensures Valid() && core == old(core).TornDown()
      ensures times == old(times).(output := if old(ring.count) == 0 then now else old(times.output))
      ensures ring.queue == Quieted(old(ring.queue)) + [Queued(answer, false)]
      ensures Doing() == if old(core.operating) then old(Doing()).After(Closed) else old(Doing())
    {
      TornDownCoheres(core, ring.count);
      Down();
      Tell(answer, false, now);
    }

    /** Teardown, after which everything is in order. */
    method Down()
      requires ring.Valid() && storage.Valid() && (core.operating <==> Doing().active)
      requires core.TornDown().Coherent(ring.count)
      modifies this`core, ring`queue, ring.slots, storage`stagingLength, storage`staging, storage`uploading, operation
      ensures Valid() && core == old(core).TornDown() && ring.queue == Quieted(old(ring.queue))
      ensures Doing() == if old(core.operating) then old(Doing()).After(Closed) else old(Doing())
    {
      Teardown();
      ValidParts();
    }

    /** A reply for which there is room. */
    method Tell(answer: Answer, start: bool, now: u32)
      requires Valid() && ring.count < SLOTS && core.Coherent(ring.count + 1) && Sayable(answer) && answer != COMPLETE
      modifies this`times, ring`count, ring`queue, ring.slots
      ensures Valid() && ring.queue == old(ring.queue) + [Queued(answer, start)]
      ensures times == old(times).(output := if old(ring.count) == 0 then now else old(times.output))
    {
      ValidParts();
      Waiting(now);
      ring.Push(answer, start);
      assert storage.Valid() && Linked() && Moved();
      ValidParts();
    }

    // ---- session ----

    method SessionOpen(now: u32) returns (ok: bool)
      requires Valid()
      modifies this`core, this`times, ring, ring.slots
      ensures Valid()
      ensures ok <==> !old(core.session) && !old(core.quitting) && old(core.actions) == {}
      ensures ok ==>
        core.session && times.control == now && core.Who() == NOBODY && ring.queue == [Queued(SERVICE_READY, false)]
    {
      if core.session || core.quitting || core.actions != {} { return false; }
      ValidOpen();
      core, times := core.(session := true), times.(control := now);
      Say(SERVICE_READY, false, now);
      ValidOpen();
      return true;
    }

    method SessionLost()
      requires Valid()
      modifies this`core, this`times, ring, ring.slots, storage`stagingLength, storage`staging, storage`uploading
      modifies operation
      ensures Valid() && !core.session && storage.contents == old(storage.contents)
      ensures ABORT_CONTROL in core.actions && CLOSE_CONTROL !in core.actions
    {
      ValidOpen();
      Lost();
    }

    method ControlClosed()
      requires Valid()
      modifies this`core, this`times, ring, ring.slots, storage`stagingLength, storage`staging, storage`uploading
      modifies operation
      ensures Valid() && !core.session && ABORT_CONTROL !in core.actions && storage.contents == old(storage.contents)
    {
      ValidOpen();
      Lost();
      ValidOpen();
      core := core.(actions := core.actions - {ABORT_CONTROL});
      ValidOpen();
    }

    method TakeActions() returns (taken: set<Action>)
      requires Valid()
      modifies this`core, this`times
      ensures Valid() && taken == old(core.actions) && core == old(core).(actions := {})
    {
      ValidOpen();
      taken := core.actions;
      core := core.(actions := {});
      ValidOpen();
    }

    method Reset()
      requires Valid()
      modifies this`core, this`times, ring, ring.slots, storage, operation
      ensures Valid() && core == INITIAL && storage.contents == None
    {
      ValidOpen();
      if core.operating { operation.End(); }
      storage.Clear();
      core := INITIAL;
      ring.Reset();
      ValidOpen();
    }

    // ---- replies ----

    method ReplyPeek() returns (first: Option<FtpReplies.Reply>, rest: nat)
      requires Valid()
      ensures first == if ring.count == 0 then None else Some(ring.queue[0])
      ensures rest == if ring.count == 0 then 0 else ring.queue[0].Rest()
    {
      first, rest := ring.Peek();
    }

    /** The transfer becomes ready only when the reply that announces it has gone out. */
    method ReplyConsume(length: nat, now: u32) returns (ok: bool)
      requires Valid()
      modifies this`core, this`times, ring, ring.slots
      ensures Valid()
      ensures ok <==> old(ring.count) > 0 && 0 < length <= old(ring.queue)[0].Rest()
      ensures !ok ==> core == old(core) && ring.queue == old(ring.queue)
      ensures ok ==> core.Who() == old(core.Who()) && core.direction == old(core.direction)
      ensures ok ==> var first := old(ring.queue)[0];
        if length == first.Rest() then
          ring.queue == old(ring.queue)[1..] && (core.ready <==> old(core.ready) || (first.start && core.direction != IDLE))
        else ring.queue == old(ring.queue)[0 := first.(offset := first.offset + length)] && core.ready == old(core.ready)
      ensures ok && core.ready && !old(core.ready) ==>
        core.direction != IDLE && old(ring.queue)[0].start && ring.queue == old(ring.queue)[1..]
      ensures CLOSE_CONTROL in core.actions && CLOSE_CONTROL !in old(core.actions) ==> core.quitting && ring.count == 0
    {
      ValidOpen();
      var done, opens;
      ok, done, opens := ring.Consume(length);
      if !ok {
        ValidOpen();
        return;
      }
      var empty := ring.count == 0;
      SentCoheres(core, old(ring.count), ring.count, done && opens, empty);
      times := times.(output := now, dataOutput := if done && opens && core.direction != IDLE then now else times.dataOutput,
                      close := if core.quitting && empty then now else times.close);
      core := core.Sent(done && opens, empty);
      ValidParts();
    }

    // ---- control input ----

    /** Lines are handled in order. No line is begun whose reply might not fit beside the reserved ones: the count of
        complete lines made beforehand on a copy of the parser is exactly the number the second pass completes. */
    method ControlSpan(bytes: seq<u8>, now: u32) returns (result: Input, taken: nat, ghost heard: seq<Line>)
      requires Valid()
      modifies this, ring`count, ring`queue, ring.slots, storage`stagingLength, storage`staging, storage`uploading
      modifies operation
      ensures Valid() && taken <= |bytes| && storage.contents == old(storage.contents)
      ensures core.session == old(core.session)
      ensures result == REJECTED <==> !old(core.session) || old(core.quitting) || |bytes| > CONTROL_CAPACITY
      ensures result == BACKPRESSURE <==>
        && old(core.session) && !old(core.quitting) && |bytes| <= CONTROL_CAPACITY
        && (old(core.opening) || (var lines := |Spoken(old(core.parser), bytes, now)|;
                                  lines > 0 && old(ring.count) + lines + 1 > SLOTS))
      ensures result in {REJECTED, BACKPRESSURE} ==> taken == 0 && core == old(core) && ring.queue == old(ring.queue)
      ensures result == INPUT_OK ==> taken == |bytes|
      ensures result == PARTIAL ==> core.opening && taken < |bytes|
      ensures taken != 0 ==> times.control == now
      ensures core.Who() == Obeyed(old(core.Who()), heard)
      ensures result == INPUT_OK ==> CommandsOf(heard) <= Spoken(old(core.parser), bytes, now)
      ensures result == INPUT_OK && !core.quitting ==> CommandsOf(heard) == Spoken(old(core.parser), bytes, now)
      ensures result == PARTIAL ==>
        CommandsOf(heard) + Spoken(core.parser, bytes[taken..], now) == Spoken(old(core.parser), bytes, now)
    {
      heard := [];
      if !core.session || core.quitting || |bytes| > CONTROL_CAPACITY { return REJECTED, 0, []; }
      if core.opening { return BACKPRESSURE, 0, []; }
      var lines := CountLines(bytes, now);
      if lines != 0 && (ring.count >= SLOTS - 1 || lines > SLOTS - 1 - ring.count) { return BACKPRESSURE, 0, []; }
      taken, heard := HandleSpan(bytes, now);
      result := if taken == |bytes| then INPUT_OK else PARTIAL;
    }

    /** The second pass. It stops behind a command that opens a listener; what follows QUIT is dropped. */
    method HandleSpan(bytes: seq<u8>, now: u32) returns (taken: nat, ghost heard: seq<Line>)
      requires Valid() && core.session && !core.quitting && !core.opening
      requires var lines := |Spoken(core.parser, bytes, now)|; lines > 0 ==> ring.count + lines + 1 <= SLOTS
      modifies this, ring`count, ring`queue, ring.slots, storage`stagingLength, storage`staging, storage`uploading
      modifies operation
      ensures Valid() && taken <= |bytes| && storage.contents == old(storage.contents)
      ensures core.session && (taken < |bytes| ==> core.opening && !core.quitting) && (taken != 0 ==> times.control == now)
      ensures ring.count <= old(ring.count) + |Spoken(old(core.parser), bytes, now)|
      ensures core.Who() == Obeyed(old(core.Who()), heard)
      ensures core.quitting ==> CommandsOf(heard) <= Spoken(old(core.parser), bytes, now)
      ensures !core.quitting ==>
        CommandsOf(heard) + Spoken(core.parser, bytes[taken..], now) == Spoken(old(core.parser), bytes, now)
    {
      taken, heard := 0, [];
      ghost var spoken := Spoken(core.parser, bytes, now);
      ghost var rest := spoken;
      assert bytes[0..] == bytes;
      while taken < |bytes| && !core.quitting && !core.opening
        invariant taken <= |bytes| && Valid() && core.session
        invariant storage.contents == old(storage.contents)
        invariant old(ring.count) <= ring.count <= old(ring.count) + |heard|
        invariant core.Who() == Obeyed(old(core.Who()), heard)
        invariant rest == Spoken(core.parser, bytes[taken..], now) && CommandsOf(heard) + rest == spoken
      {
        SpokenAt(core.parser, bytes, taken, now);
        ghost var line := HandleByte(bytes[taken], now);
        if line.Some? {
          ObeyedOneMore(old(core.Who()), heard, line.value);
          OneSaid(CommandsOf(heard), rest, spoken);
          heard, rest := heard + [line.value], rest[1..];
        }
        taken := taken + 1;
      }
      if core.quitting { taken := |bytes|; }
      if taken != 0 { times := times.(control := now); }
    }

    method HandleByte(b: u8, now: u32) returns (ghost line: Option<Line>)
      requires Valid() && core.session && !core.quitting && !core.opening
      requires ParseByte(core.parser, b, now).1 ==> ring.count + 2 <= SLOTS
      modifies this, ring`count, ring`queue, ring.slots, storage`stagingLength, storage`staging, storage`uploading
      modifies operation
      ensures Valid() && core.session && storage.contents == old(storage.contents)
      ensures var (parser, complete) := ParseByte(old(core.parser), b, now);
        && core.parser == (if complete then IDLE_PARSER else parser)
        && old(ring.count) <= ring.count <= old(ring.count) + (if complete && !core.opening then 1 else 0)
        && (!complete ==> !core.quitting && !core.opening)
        && line == (if complete then Some(Line(old(core.direction) != IDLE, Said(parser))) else None)
      ensures core.Who() == if line.None? then old(core.Who()) else line.value.Effect(old(core.Who()))
    {
      var (parser, complete) := ParseByte(core.parser, b, now);
      Parsed(parser);
      line := None;
      if complete {
        line := Some(Line(core.direction != IDLE, Said(parser)));
        HandleLine(now);
      }
    }

    /** The first pass, on a copy of the parser. */
    method CountLines(bytes: seq<u8>, now: u32) returns (lines: nat)
      ensures lines == |Spoken(core.parser, bytes, now)|
    {
      var probe := core.parser;
      lines := 0;
      assert bytes[0..] == bytes;
      for i := 0 to |bytes|
        invariant lines + |Spoken(probe, bytes[i..], now)| == |Spoken(core.parser, bytes, now)|
      {
        SpokenAt(probe, bytes, i, now);
        var (next, complete) := ParseByte(probe, bytes[i], now);
        probe := next;
        if complete { lines, probe := lines + 1, IDLE_PARSER; }
      }
    }

    /** One complete line, malformed or not: at most one reply, and none for a listener that is still to be opened. */
    method HandleLine(now: u32)
      requires Valid() && core.session && !core.quitting && !core.opening && ring.count + 2 <= SLOTS
      modifies this, ring`count, ring`queue, ring.slots, storage`stagingLength, storage`staging, storage`uploading
      modifies operation
      ensures Valid() && core.session && core.parser == IDLE_PARSER && storage.contents == old(storage.contents)
      ensures old(ring.count) <= ring.count <= old(ring.count) + (if core.opening then 0 else 1)
      ensures var text := old(core.parser.text);
        core.Who() == if old(core.parser.bad) then old(core.Who())
                      else Commanded(old(core.Who()), old(core.direction) != IDLE, VerbOf(text), Argument(text))
    {
      if core.parser.bad {
        Reply(MALFORMED, now);
      } else {
        Command(core.parser.text, now);
      }
      Parsed(IDLE_PARSER);
    }

    method Parsed(parser: Parser)
      requires Valid()
      modifies this`core, this`times
      ensures Valid() && core == old(core).(parser := parser)
    {
      ValidOpen();
      core := core.(parser := parser);
      ValidOpen();
    }

    /** An answer to a command, while the reserved slots stay free. */
    method Reply(answer: Answer, now: u32)
      requires Valid() && core.session && !core.opening && ring.count + 2 <= SLOTS && Sayable(answer)
      requires answer != COMPLETE
      modifies this`times, ring`count, ring`queue, ring.slots
      ensures Valid()
      ensures times == old(times).(output := if old(ring.count) == 0 then now else old(times.output))
      ensures ring.queue == old(ring.queue) + [Queued(answer, false)]
    {
      ValidOpen();
      Say(answer, false, now);
      ValidOpen();
    }

    method Command(line: string, now: u32)
      requires Valid() && core.session && !core.quitting && !core.opening && ring.count + 2 <= SLOTS
      modifies this, ring`count, ring`queue, ring.slots, storage`stagingLength, storage`staging, storage`uploading
      modifies operation
      ensures Valid() && core.session && core.parser == old(core.parser) && storage.contents == old(storage.contents)
      ensures old(ring.count) <= ring.count <= old(ring.count) + (if core.opening then 0 else 1)
      ensures core.Who() == Commanded(old(core.Who()), old(core.direction) != IDLE, VerbOf(line), Argument(line))
      ensures core.opening ==> VerbOf(line) == (if core.epsv then EPSV else PASV) && old(core.login)
      ensures core.direction != IDLE && old(core.direction) == IDLE ==>
        && VerbOf(line) == (if core.direction == UPLOAD then STOR else RETR)
        && old(core.login) && old(core.binary) && old(core.passive)
      ensures old(core.direction) != IDLE && core.direction != IDLE ==> core == old(core)
    {
      var verb, arg := VerbOf(line), Argument(line);
      if verb in {QUIT, ABOR, NOOP, SYST, FEAT} && arg == "" {
        var answer := AnyTime(verb);
        Reply(answer, now);
      } else if core.direction != IDLE || core.opening {
        Reply(IN_PROGRESS, now);
      } else {
        WhenIdle(verb, arg, now);
      }
    }

    /** The commands that are obeyed even during a transfer. */
    method AnyTime(verb: Verb) returns (answer: Answer)
      requires Valid() && core.session && !core.quitting && !core.opening && verb in {QUIT, ABOR, NOOP, SYST, FEAT}
      modifies this`core, this`times, ring`queue, ring.slots, storage`stagingLength, storage`staging
      modifies storage`uploading, operation
      ensures Valid() && core.session && !core.opening && core.parser == old(core.parser)
      ensures verb == QUIT ==> core == old(core).TornDown().(quitting := true)
      ensures verb == ABOR ==> core == old(core).TornDown()
      ensures verb !in {QUIT, ABOR} ==> core == old(core)
      ensures storage.contents == old(storage.contents)
      ensures ring.queue == if verb in {QUIT, ABOR} then Quieted(old(ring.queue)) else old(ring.queue)
      ensures verb == ABOR ==> (answer == ALREADY_ACCEPTED <==> old(core.accepted))
      ensures Code(answer) == match verb { case QUIT => 221 case NOOP => 200 case SYST => 215 case FEAT => 211
                                           case _ => if answer == TRANSFER_ABORTED then 426 else 225 }
      ensures !answer.LISTENING? && answer != COMPLETE
    {
      ValidOpen();
      match verb {
        case QUIT => answer := Quit();
        case ABOR => answer := Abor();
        case NOOP => answer := NOTHING_DONE;
        case SYST => answer := SYSTEM;
        case FEAT => answer := FEATURES;
      }
    }

    method WhenIdle(verb: Verb, arg: string, now: u32)
      requires Valid() && core.session && !core.quitting && !core.opening && core.direction == IDLE
      requires ring.count + 2 <= SLOTS
      modifies this, ring`count, ring`queue, ring.slots, storage`stagingLength, storage`staging, storage`uploading
      modifies operation
      ensures Valid() && core.session && core.parser == old(core.parser) && storage.contents == old(storage.contents)
      ensures old(ring.count) <= ring.count <= old(ring.count) + (if core.opening then 0 else 1)
      requires !(verb in {QUIT, ABOR, NOOP, SYST, FEAT} && arg == "")
      ensures core.Who() == Commanded(old(core.Who()), false, verb, arg)
      ensures core.opening ==> verb == (if core.epsv then EPSV else PASV) && old(core.login)
      ensures core.direction != IDLE ==>
        && verb == (if core.direction == UPLOAD then STOR else RETR)
        && old(core.login) && old(core.binary) && old(core.passive)
    {
      if core.login && verb != USER && verb != PASS {
        LoggedIn(verb, arg, now);
      } else {
        Greet(verb, arg, now);
      }
    }

    method Greet(verb: Verb, arg: string, now: u32)
      requires Valid() && core.session && !core.quitting && !core.opening && core.direction == IDLE
      requires ring.count + 2 <= SLOTS
      requires (!core.login || verb in {USER, PASS}) && !(verb in {QUIT, ABOR, NOOP, SYST, FEAT} && arg == "")
      modifies this`core, this`times, ring`count, ring`queue, ring.slots, storage`stagingLength, storage`staging
      modifies storage`uploading, operation
      ensures Valid() && core.session && core.parser == old(core.parser) && !core.opening && core.direction == IDLE
      ensures storage.contents == old(storage.contents) && ring.count == old(ring.count) + 1
      ensures core.Who() == Commanded(old(core.Who()), false, verb, arg)
    {
      var answer := Login(verb, arg);
      Reply(answer, now);
    }

    /** USER, PASS and everything that is refused before them. */
    method Login(verb: Verb, arg: string) returns (answer: Answer)
      requires Valid() && core.session && !core.quitting && !core.opening && core.direction == IDLE
      requires (!core.login || verb in {USER, PASS}) && !(verb in {QUIT, ABOR, NOOP, SYST, FEAT} && arg == "")
      modifies this`core, this`times, ring`queue, ring.slots, storage`stagingLength, storage`staging
      modifies storage`uploading, operation
      ensures Valid() && core.session && core.parser == old(core.parser) && storage.contents == old(storage.contents)
      ensures core.Who() == Commanded(old(core.Who()), false, verb, arg) && !core.opening && core.direction == IDLE
      ensures |ring.queue| == |old(ring.queue)|
      ensures answer in {LOGGED_IN, USER_FIRST, LOGIN_FIRST, SEND_PASSWORD, ANONYMOUS_ONLY}
      ensures answer == LOGGED_IN <==> verb == PASS && core.login
      ensures answer == SEND_PASSWORD <==> verb == USER && core.user
    {
      ValidOpen();
      match verb {
        case USER => answer := User(arg);
        case PASS =>
          answer := if core.user then LOGGED_IN else USER_FIRST;
          if core.user {
            core := core.(login := true);
            ValidOpen();
          }
        case _ => answer := LOGIN_FIRST;
      }
    }

    method Quit() returns (answer: Answer)
      requires Valid() && core.session && !core.quitting
      modifies this`core, this`times, ring`queue, ring.slots, storage`stagingLength, storage`staging
      modifies storage`uploading, operation
      ensures Valid() && core == old(core).TornDown().(quitting := true)
      ensures ring.queue == Quieted(old(ring.queue)) && storage.contents == old(storage.contents)
      ensures answer == GOODBYE
    {
      ValidOpen();
      Teardown();
      core := core.(quitting := true);
      ValidOpen();
      return GOODBYE;
    }

    /** An accepted operation is not revoked, and the answer says so. */
    method Abor() returns (answer: Answer)
      requires Valid() && core.session
      modifies this`core, this`times, ring`queue, ring.slots, storage`stagingLength, storage`staging
      modifies storage`uploading, operation
      ensures Valid() && core == old(core).TornDown()
      ensures ring.queue == Quieted(old(ring.queue)) && storage.contents == old(storage.contents)
      ensures answer == if old(core.operating) && old(core.accepted) then ALREADY_ACCEPTED
                        else if old(core.direction) != IDLE then TRANSFER_ABORTED else NO_TRANSFER
      ensures answer == ALREADY_ACCEPTED ==> Doing().accepted
    {
      ValidOpen();
      answer := if core.operating && core.accepted then ALREADY_ACCEPTED
                else if core.direction != IDLE then TRANSFER_ABORTED else NO_TRANSFER;
      Teardown();
      ValidOpen();
    }

    method User(arg: string) returns (answer: Answer)
      requires Valid() && core.session && !core.quitting
      modifies this`core, this`times, ring`queue, ring.slots, storage`stagingLength, storage`staging
      modifies storage`uploading, operation
      ensures Valid() && core == old(core).TornDown().(user := arg == "anonymous", login := false, binary := false)
      ensures ring.queue == Quieted(old(ring.queue)) && storage.contents == old(storage.contents)
      ensures answer == if core.user then SEND_PASSWORD else ANONYMOUS_ONLY
    {
      ValidOpen();
      Teardown();
      core := core.(user := arg == "anonymous", login := false, binary := false);
      ValidOpen();
      return if core.user then SEND_PASSWORD else ANONYMOUS_ONLY;
    }

    /** The commands that need a login. */
    method LoggedIn(verb: Verb, arg: string, now: u32)
      requires Valid() && core.session && core.login && !core.quitting && !core.opening && core.direction == IDLE
      requires ring.count + 2 <= SLOTS
      modifies this, ring`count, ring`queue, ring.slots, storage`stagingLength, storage`staging, storage`uploading
      modifies operation
      ensures Valid() && core.session && core.login && core.parser == old(core.parser) && !core.quitting
      ensures storage.contents == old(storage.contents)
      ensures old(ring.count) <= ring.count <= old(ring.count) + (if core.opening then 0 else 1)
      ensures core.Who() == if verb == TYPE then old(core.Who()).(binary := arg == "I") else old(core.Who())
      ensures core.opening ==> verb == if core.epsv then EPSV else PASV
      ensures core.direction != IDLE ==>
        verb == (if core.direction == UPLOAD then STOR else RETR) && old(core.binary) && old(core.passive)
    {
      if (verb == EPSV || verb == PASV) && arg == "" {
        Listen(verb == EPSV, now);
      } else if verb == STOR || verb == RETR {
        Transfer(arg, verb == STOR, now);
      } else {
        var answer := Simple(verb, arg);
        Reply(answer, now);
      }
    }

    /** The commands that are done as soon as they are answered. */
    method Simple(verb: Verb, arg: string) returns (answer: Answer)
      requires Valid() && core.session && core.direction == IDLE
      modifies this`core, this`times
      ensures Valid() && core == old(core).(binary := if verb == TYPE then arg == "I" else old(core.binary))
      ensures Sayable(answer) && answer != COMPLETE
      ensures verb == TYPE ==> (answer == BINARY_MODE <==> core.binary)
      ensures answer == WORKING_DIRECTORY <==> verb == PWD && arg == ""
      ensures answer == ROOT_DIRECTORY <==> (verb == CWD && arg == "/") || (verb == CDUP && arg == "")
      ensures answer.FILE_SIZE? <==> verb == SIZE && storage.MatchesName(arg) && storage.contents.Some?
      ensures answer.FILE_SIZE? ==> answer.size as int == |storage.contents.value|
      ensures answer == UNSUPPORTED <==> verb !in {TYPE, CWD, SIZE} && !(verb in {PWD, CDUP} && arg == "")
    {
      if verb == TYPE { Mode(arg == "I"); }
      match verb {
        case PWD => answer := if arg == "" then WORKING_DIRECTORY else UNSUPPORTED;
        case CWD => answer := if arg == "/" then ROOT_DIRECTORY else ROOT_ONLY;
        case CDUP => answer := if arg == "" then ROOT_DIRECTORY else UNSUPPORTED;
        case TYPE => answer := if core.binary then BINARY_MODE else BINARY_ONLY;
        case SIZE => answer := Size(arg);
        case _ => answer := UNSUPPORTED;
      }
    }

    method Mode(binary: bool)
      requires Valid() && core.direction == IDLE && core.session
      modifies this`core, this`times
      ensures Valid() && core == old(core).(binary := binary)
    {
      ValidOpen();
      core := core.(binary := binary);
      ValidOpen();
    }

    /** The port is announced later, when the listener is there. */
    method Listen(extended: bool, now: u32)
      requires Valid() && core.session && core.login && !core.quitting && ring.count + 2 <= SLOTS
      modifies this`core, this`times, ring`queue, ring.slots, storage`stagingLength, storage`staging
      modifies storage`uploading, operation
      ensures Valid() && core.opening && core.session && core.login && !core.quitting && core.parser == old(core.parser)
      ensures ring.queue == Quieted(old(ring.queue)) && storage.contents == old(storage.contents)
      ensures core.epsv == extended && OPEN_PASSIVE in core.actions && core.direction == IDLE && times.passive == now
      ensures core.Who() == old(core.Who())
    {
      ValidOpen();
      Teardown();
      core := core.(opening := true, epsv := extended, actions := core.actions + {OPEN_PASSIVE});
      times := times.(passive := now);
      ValidOpen();
    }

    method Size(arg: string) returns (answer: Answer)
      requires Valid()
      ensures answer == if storage.MatchesName(arg) && storage.contents.Some? then FILE_SIZE(|storage.contents.value|)
                        else UNAVAILABLE
    {
      var view := storage.Inspect();
      return if !storage.MatchesName(arg) || view.None? then UNAVAILABLE else FILE_SIZE(|view.value|);
    }

    /** STOR and RETR. */
    method Transfer(arg: string, upload: bool, now: u32)
      requires Valid() && core.session && core.login && !core.quitting && !core.opening && core.direction == IDLE
      requires ring.count + 2 <= SLOTS
      modifies this, ring`count, ring`queue, ring.slots, storage`stagingLength, storage`staging, storage`uploading
      modifies operation
      ensures Valid() && core.session && core.Who() == old(core.Who()) && core.parser == old(core.parser)
      ensures !core.opening
      ensures storage.contents == old(storage.contents) && ring.count == old(ring.count) + 1
      ensures core.direction != IDLE ==>
        && core.direction == (if upload then UPLOAD else DOWNLOAD) && old(core.binary) && old(core.passive)
        && ring.queue == old(ring.queue) + [Queued(OPENING, true)]
        && received == [] && core.enqueued == core.acked == 0 && times.start == times.progress == now
        && (core.operating || storage.MatchesName(arg))
      ensures core.direction != IDLE && core.operating ==>
        Doing().begins == old(Doing().begins) + 1 && Doing().name == arg
    {
      var special := false;
      if operation != null { special := operation.Matches(arg, upload); }
      var view: Option<seq<u8>> := None;
      if !special { view := storage.Inspect(); }
      var refusal := if !special && (!storage.MatchesName(arg) || (!upload && view.None?)) then Some(UNAVAILABLE)
                     else if !core.binary then Some(SELECT_BINARY)
                     else if !core.passive then Some(PASSIVE_FIRST) else None;
      if refusal.Some? {
        Reply(refusal.value, now);
      } else if special {
        BeginOperation(arg, upload, now);
      } else {
        BeginFile(upload, view.GetOr([]), now);
      }
    }

    method BeginOperation(arg: string, upload: bool, now: u32)
      requires Valid() && core.session && core.login && !core.quitting && core.direction == IDLE
      requires core.binary && core.passive && operation != null && ring.count + 2 <= SLOTS
      modifies this, ring`count, ring`queue, ring.slots, storage`stagingLength, storage`staging, storage`uploading
      modifies operation
      ensures Valid() && core.session && core.Who() == old(core.Who()) && core.parser == old(core.parser)
      ensures !core.opening
      ensures storage.contents == old(storage.contents) && ring.count == old(ring.count) + 1
      ensures core.direction != IDLE ==>
        && core.operating && core.direction == (if upload then UPLOAD else DOWNLOAD)
        && ring.queue == old(ring.queue) + [Queued(OPENING, true)]
        && received == [] && core.enqueued == core.acked == 0 && times.start == times.progress == now
        && Doing().begins == old(Doing().begins) + 1 && Doing().name == arg
    {
      ValidOpen();
      var ok, shown := operation.Begin(arg, upload);
      if ok {
        Open(upload, true, shown, now);
      } else {
        ValidOpen();
        Failure(OPERATION_UNAVAILABLE, now);
      }
    }

    method BeginFile(upload: bool, view: seq<u8>, now: u32)
      requires Valid() && core.session && core.login && !core.quitting && core.direction == IDLE
      requires core.binary && core.passive && ring.count + 2 <= SLOTS
      requires !upload ==> storage.contents == Some(view)
      modifies this, ring`count, ring`queue, ring.slots, storage`stagingLength, storage`staging, storage`uploading
      modifies operation
      ensures Valid() && core.session && core.Who() == old(core.Who()) && core.parser == old(core.parser)
      ensures !core.opening
      ensures storage.contents == old(storage.contents) && ring.count == old(ring.count) + 1
      ensures core.direction != IDLE ==>
        && !core.operating && core.direction == (if upload then UPLOAD else DOWNLOAD)
        && ring.queue == old(ring.queue) + [Queued(OPENING, true)]
        && received == [] && core.enqueued == core.acked == 0 && times.start == times.progress == now
    {
      ValidOpen();
      var ok := true;
      if upload { ok := storage.Begin(); }
      if ok {
        Open(upload, false, view, now);
      } else {
        ValidOpen();
        Failure(STORAGE_FAILED, now);
      }
    }

    method Open(upload: bool, special: bool, view: seq<u8>, now: u32)
      requires ring.Valid() && storage.Valid() && core.Coherent(ring.count) && ring.count + 2 <= SLOTS
      requires core.session && core.login && !core.quitting && core.direction == IDLE && core.binary && core.passive
      requires Doing().active == special
      requires if special then !Doing().ended && !Doing().accepted && Doing().upload == upload
        && Doing().view == view && Doing().taken == []
               else if upload then storage.uploading && storage.staging == [] else storage.contents == Some(view)
      modifies this, ring`count, ring`queue, ring.slots
      ensures Valid() && core.operating == special && core.direction == (if upload then UPLOAD else DOWNLOAD)
      ensures core.session && core.Who() == old(core.Who()) && core.parser == old(core.parser) && !core.opening
      ensures ring.queue == old(ring.queue) + [Queued(OPENING, true)]
      ensures received == [] && core.enqueued == core.acked == 0 && times.start == times.progress == now
    {
      OpenedCoheres(core, ring.count, upload, special, view);
      core := core.Opened(upload, special, view);
      times := times.(start := now, progress := now);
      received := [];
      assert Linked() && Moved();
      ValidParts();
      Tell(OPENING, true, now);
    }

    // ---- the data connection ----

    /** The listener is there, or could not be opened; either way the answer takes the first reserved slot. */
    method PassiveResult(success: bool, address: Option<seq<u8>>, port: u32, now: u32) returns (ok: bool)
      requires Valid() && port < 0x1_0000 && (address.Some? ==> |address.value| == 4)
      modifies this`core, this`times, ring`count, ring`queue, ring.slots, storage`stagingLength, storage`staging
      modifies storage`uploading, operation
      ensures Valid() && storage.contents == old(storage.contents) && core.session == old(core.session)
      ensures ok <==> old(core.session) && old(core.opening)
      ensures !ok ==> core == old(core) && ring.queue == old(ring.queue)
      ensures ok ==> (core.passive <==> success && port != 0 && (core.epsv || address.Some?))
      ensures ok && core.passive ==>
        ring.queue == old(ring.queue) + [Queued(LISTENING(core.epsv, address.GetOr([]), port), false)]
      ensures ok && !core.passive ==>
        core.Quiet() && ring.queue == Quieted(old(ring.queue)) + [Queued(CANNOT_LISTEN, false)]
    {
      ValidOpen();
      if !core.session || !core.opening { return false; }
      if !success || port == 0 || (!core.epsv && address.None?) {
        Failure(CANNOT_LISTEN, now);
      } else {
        Announce(LISTENING(core.epsv, address.GetOr([]), port), now);
      }
      return true;
    }

    method Announce(listening: Answer, now: u32)
      requires Valid() && core.session && core.opening && listening.LISTENING? && Sayable(listening)
      modifies this`core, this`times, ring`count, ring`queue, ring.slots
      ensures Valid() && core.passive && core.session && core.epsv == old(core.epsv)
      ensures ring.queue == old(ring.queue) + [Queued(listening, false)]
    {
      ValidOpen();
      core := core.(opening := false, passive := true, actions := core.actions - {OPEN_PASSIVE});
      Say(listening, false, now);
      ValidOpen();
    }

    method DataConnected(now: u32) returns (ok: bool)
      requires Valid()
      modifies this`core, this`times
      ensures Valid()
      ensures ok <==> old(core.session) && old(core.passive) && !old(core.connected) && !old(core.closing)
      ensures ok ==> core == old(core).(connected := true, actions := old(core.actions) + {CLOSE_PASSIVE})
      ensures ok ==> times == old(times).(progress := now, dataOutput := now)
      ensures !ok ==> core == old(core) && times == old(times)
    {
      ValidOpen();
      if !core.session || !core.passive || core.connected || core.closing { return false; }
      core := core.(connected := true, actions := core.actions + {CLOSE_PASSIVE});
      times := times.(progress := now, dataOutput := now);
      ValidOpen();
      return true;
    }

    // ---- upload ----

    /** What is accepted is staged, or handed to the operation, and nothing else is. */
    method UploadSpan(bytes: seq<u8>, now: u32) returns (result: Input, taken: nat)
      requires Valid()
      modifies this, ring`count, ring`queue, ring.slots, storage`stagingLength, storage`staging, storage`uploading
      modifies operation
      modifies storage.bufferA, storage.bufferB
      ensures Valid() && storage.contents == old(storage.contents) && core.session == old(core.session)
      ensures old(core.TransferReady() && core.direction == UPLOAD && !core.eof) || result == REJECTED
      ensures result in {INPUT_OK, PARTIAL, BACKPRESSURE} ==>
        && taken <= |bytes| && received == old(received) + bytes[..taken]
        && core == old(core) && times == old(times).(progress := if taken != 0 then now else old(times.progress))
        && ring.queue == old(ring.queue)
        && (result == INPUT_OK <==> taken == |bytes|) && (result == BACKPRESSURE ==> taken == 0)
      ensures result == REJECTED && old(core.TransferReady() && core.direction == UPLOAD && !core.eof) ==>
        core.Quiet() && |ring.queue| == |old(ring.queue)| + 1
    {
      if !core.TransferReady() || core.direction != UPLOAD || core.eof { return REJECTED, 0; }
      ValidOpen();
      if core.operating {
        result, taken := FeedOperation(bytes, now);
      } else {
        result, taken := FeedFile(bytes, now);
      }
    }

    method FeedOperation(bytes: seq<u8>, now: u32) returns (result: Input, taken: nat)
      requires Valid() && core.TransferReady() && core.direction == UPLOAD && !core.eof && core.operating
      modifies this, ring`count, ring`queue, ring.slots, storage`stagingLength, storage`staging, storage`uploading
      modifies operation
      ensures Valid() && storage.contents == old(storage.contents) && core.session == old(core.session)
      ensures result in {INPUT_OK, PARTIAL, BACKPRESSURE} ==>
        && taken <= |bytes| && received == old(received) + bytes[..taken]
        && core == old(core) && times == old(times).(progress := if taken != 0 then now else old(times.progress))
        && ring.queue == old(ring.queue)
        && (result == INPUT_OK <==> taken == |bytes|) && (result == BACKPRESSURE ==> taken == 0)
      ensures result == REJECTED ==> core.Quiet() && |ring.queue| == |old(ring.queue)| + 1
    {
      ValidOpen();
      var r;
      r, taken := operation.Feed(bytes);
      if taken > |bytes| { r, taken := OPERATION_ERROR, 0; }
      received := received + bytes[..taken];
      if taken != 0 { times := times.(progress := now); }
      ValidOpen();
      if r == OPERATION_ERROR || r == OPERATION_ACCEPTED {
        Failure(OPERATION_FAILED, now);
        return REJECTED, taken;
      }
      return if taken == |bytes| then INPUT_OK else if taken > 0 then PARTIAL else BACKPRESSURE, taken;
    }

    method FeedFile(bytes: seq<u8>, now: u32) returns (result: Input, taken: nat)
      requires Valid() && core.TransferReady() && core.direction == UPLOAD && !core.eof && !core.operating
      modifies this, ring`count, ring`queue, ring.slots, storage`stagingLength, storage`staging, storage`uploading
      modifies operation
      modifies storage.bufferA, storage.bufferB
      ensures Valid() && storage.contents == old(storage.contents) && core.session == old(core.session)
      ensures result == INPUT_OK <==> |old(storage.staging)| + |bytes| <= storage.capacity
      ensures result == INPUT_OK ==>
        && taken == |bytes| && received == old(received) + bytes && ring.queue == old(ring.queue)
        && core == old(core) && times == old(times).(progress := if taken != 0 then now else old(times.progress))
      ensures result != INPUT_OK ==> result == REJECTED && core.Quiet() && |ring.queue| == |old(ring.queue)| + 1
    {
      ValidOpen();
      var stored := storage.Append(bytes);
      if stored != STORED {
        ValidOpen();
        Failure(if stored == CAPACITY_EXCEEDED then OVER_CAPACITY else STORAGE_FAILED, now);
        return REJECTED, 0;
      }
      received := received + bytes;
      if |bytes| != 0 { times := times.(progress := now); }
      ValidOpen();
      return INPUT_OK, |bytes|;
    }

    /** The end of the upload: the file closes at once, an operation first has to accept. */
    method UploadEof(now: u32) returns (ok: bool)
      requires Valid()
      modifies this`core, this`times, ring`count, ring`queue, ring.slots, storage`stagingLength, storage`staging
      modifies storage`uploading, operation
      ensures Valid() && storage.contents == old(storage.contents) && core.session == old(core.session)
      ensures ok ==>
        && old(core.TransferReady() && core.direction == UPLOAD && !core.eof)
        && (old(core.operating) ==> core == old(core).(eof := true))
        && (!old(core.operating) ==> core == old(core).(eof := true).Closing() && times.close == now)
      ensures !old(core.TransferReady() && core.direction == UPLOAD && !core.eof) ==>
        core == old(core) && ring.queue == old(ring.queue)
      ensures !ok && old(core.TransferReady() && core.direction == UPLOAD && !core.eof) ==>
        old(core.operating) && core.Quiet() && ring.queue == Quieted(old(ring.queue)) + [Queued(OPERATION_FAILED, false)]
    {
      if !core.TransferReady() || core.direction != UPLOAD || core.eof { return false; }
      ValidOpen();
      if core.operating {
        ok := operation.Eof();
        core := core.(eof := true);
        ValidOpen();
        if !ok { Failure(OPERATION_FAILED, now); }
        return;
      }
      core := core.(eof := true).Closing();
      times := times.(close := now);
      ValidOpen();
      return true;
    }

    /** One step of the operation. Success is durable before the connection is closed, and never before the end. */
    method Foreground(now: u32)
      requires Valid()
      modifies this`core, this`times, ring`count, ring`queue, ring.slots, storage`stagingLength, storage`staging
      modifies storage`uploading, operation
      ensures Valid() && storage.contents == old(storage.contents) && core.session == old(core.session)
      ensures core == old(core) || core == old(core).(accepted := true).Closing() || core.Quiet()
      ensures core.closing && !old(core.closing) ==> times.close == now
      ensures core.accepted && !old(core.accepted) ==> old(core.eof) && Doing().accepted
      ensures Doing().steps ==
        old(Doing().steps) + if old(core.operating && core.direction == UPLOAD && !core.accepted) then 1 else 0
      ensures Doing().accepted && !old(Doing().accepted) ==> core.accepted || core.Quiet()
    {
      if core.operating && core.direction == UPLOAD && !core.accepted { StepOperation(now); }
    }

    method StepOperation(now: u32)
      requires Valid() && core.operating && core.direction == UPLOAD && !core.accepted
      modifies this`core, this`times, ring`count, ring`queue, ring.slots, storage`stagingLength, storage`staging
      modifies storage`uploading, operation
      ensures Valid() && core.session == old(core.session) && Doing().steps == old(Doing().steps) + 1
      ensures core == old(core) || core.Quiet()
              || (old(core.eof) && core == old(core).(accepted := true).Closing() && times.close == now && Doing().accepted)
      ensures Doing().accepted ==> core.accepted || core.Quiet()
    {
      ValidOpen();
      var r := operation.Step();
      if r == OPERATION_ACCEPTED {
        Succeed(now);
      } else {
        ValidOpen();
        if r == OPERATION_ERROR { Failure(OPERATION_FAILED, now); }
      }
    }

    /** The operation has succeeded; before the end of its input that fails the transfer, but what it accepted stays. */
    method Succeed(now: u32)
      requires ring.Valid() && storage.Valid() && Moved() && core.Coherent(ring.count) && core.session
      requires ring.count < SLOTS
      requires core.operating && core.direction == UPLOAD && !core.accepted && (Doing().ended <==> core.eof)
      requires Doing().active && Doing().accepted && Doing().upload && received == Doing().taken
      modifies this`core, this`times, ring`count, ring`queue, ring.slots, storage`stagingLength, storage`staging
      modifies storage`uploading, operation
      ensures Valid() && core.session && Doing().steps == old(Doing().steps)
      ensures if old(core.eof) then core == old(core).(accepted := true).Closing() && times.close == now
        && Doing().accepted
              else core.Quiet()
    {
      if core.eof {
        Conclude(now);
      } else {
        TornDownCoheres(core, ring.count);
        Fail(PREMATURE, now);
      }
    }

    /** The operation has succeeded after the end of its input. */
    method Conclude(now: u32)
      requires ring.Valid() && storage.Valid() && Moved() && core.Coherent(ring.count)
      requires core.operating && core.direction == UPLOAD && core.eof && !core.accepted
      requires Doing().active && Doing().ended && Doing().accepted && Doing().upload && received == Doing().taken
      modifies this`core, this`times
      ensures Valid() && core == old(core).(accepted := true).Closing() && times.close == now
    {
      CoherentOpen(core, ring.count);
      core := core.(accepted := true).Closing();
      times := times.(close := now);
      ValidOpen();
    }

    // ---- download ----

    /** What is left of the view taken at RETR. */
    method DownloadSpan() returns (rest: Option<seq<u8>>)
      requires Valid()
      ensures rest.Some? <==> core.TransferReady() && core.direction == DOWNLOAD
      ensures rest.Some? && !core.operating ==>
        storage.contents.Some? && storage.contents.value == core.download[..core.enqueued] + rest.value
      ensures rest.Some? && core.operating ==> Doing().view == core.download[..core.enqueued] + rest.value
    {
      ValidOpen();
      if !core.TransferReady() || core.direction != DOWNLOAD { return None; }
      return Some(core.download[core.enqueued..]);
    }

    method DownloadEnqueued(length: nat, now: u32) returns (ok: bool)
      requires Valid()
      modifies this`core, this`times
      ensures Valid()
      ensures ok <==> old(core.TransferReady() && core.direction == DOWNLOAD)
                      && old(core.enqueued) + length <= |old(core.download)|
      ensures ok ==> core.enqueued == old(core.enqueued) + length && core.acked == old(core.acked)
                     && core.download == old(core.download) && (core.closing <==> core.acked == |core.download|)
      ensures ok && length != 0 ==> times.progress == times.dataOutput == now
      ensures !ok ==> core == old(core)
    {
      ValidOpen();
      if !core.TransferReady() || core.direction != DOWNLOAD || length > |core.download| - core.enqueued { return false; }
      ValidOpen();
      core := core.(enqueued := core.enqueued + length);
      if length != 0 { times := times.(progress := now, dataOutput := now); }
      if core.enqueued == |core.download| && core.acked == |core.download| {
        core := core.Closing();
        times := times.(close := now);
      }
      ValidOpen();
      return true;
    }

    method DownloadAcked(length: nat, now: u32) returns (ok: bool)
      requires Valid()
      modifies this`core, this`times
      ensures Valid()
      ensures ok <==> old(core.TransferReady() && core.direction == DOWNLOAD)
                      && old(core.acked) + length <= old(core.enqueued)
      ensures ok ==> core.acked == old(core.acked) + length && core.enqueued == old(core.enqueued)
                     && core.download == old(core.download) && (core.closing <==> core.acked == |core.download|)
      ensures !ok ==> core == old(core)
    {
      if !core.TransferReady() || core.direction != DOWNLOAD || length > core.enqueued - core.acked { return false; }
      ValidOpen();
      core := core.(acked := core.acked + length);
      if length != 0 { times := times.(progress := now); }
      if core.enqueued == |core.download| && core.acked == |core.download| {
        core := core.Closing();
        times := times.(close := now);
      }
      ValidOpen();
      return true;
    }

    // ---- completion ----

    /** The only reply with code 226, and what it means: the file is everything that was accepted, or the operation has
        succeeded durably, or every byte of the view was handed over and acknowledged. */
    method DataCloseResult(closed: bool, now: u32) returns (ok: bool)
      requires Valid()
      modifies this`core, this`times, ring`count, ring`queue, ring.slots, storage, operation
      ensures Valid() && core.session == old(core.session)
      ensures ok <==> old(core.session) && old(core.closing)
      ensures !ok || !closed ==>
        core == old(core) && ring.queue == old(ring.queue) && storage.contents == old(storage.contents)
      ensures ok && closed ==>
        && core.Quiet() && ABORT_DATA !in core.actions
        && ring.queue == Quieted(old(ring.queue)) + [Queued(COMPLETE, false)]
      ensures ok && closed && old(core.direction) == UPLOAD && !old(core.operating) ==>
        storage.contents == Some(old(received))
      ensures ok && closed && old(core.direction) == UPLOAD && old(core.operating) ==>
        && Doing() == old(Doing()).After(Closed) && Doing().upload && Doing().ended && Doing().accepted
        && Doing().taken == old(received) && storage.contents == old(storage.contents)
      ensures ok && closed && old(core.direction) == DOWNLOAD ==>
        && (old(core.operating) ==> old(Doing().view) == old(core.download))
        && old(core.enqueued) == old(core.acked) == |old(core.download)| && storage.contents == old(storage.contents)
    {
      ValidOpen();
      if !core.session || !core.closing { return false; }
      if !closed { return true; }
      if ring.count == SLOTS { assert false; }
      var committed := true;
      if core.direction == UPLOAD {
        if core.operating { committed := core.eof && core.accepted; }
        else { committed := Publish(); }
      }
      if !committed { assert false; }
      Finish(now);
      return true;
    }

    method Publish() returns (committed: bool)
      requires storage.Valid() && storage.uploading
      modifies storage
      ensures storage.Valid() && committed && !storage.uploading && storage.contents == Some(old(storage.staging))
    {
      committed := storage.Commit();
    }

    method Finish(now: u32)
      requires ring.Valid() && storage.Valid() && Linked() && core.Coherent(ring.count) && core.session && core.closing
      modifies this`core, this`times, ring`count, ring`queue, ring.slots, storage`stagingLength, storage`staging
      modifies storage`uploading, operation
      ensures Valid() && core.Quiet() && core.session && ABORT_DATA !in core.actions
      ensures ring.queue == Quieted(old(ring.queue)) + [Queued(COMPLETE, false)]
      ensures storage.contents == old(storage.contents)
      ensures Doing() == if old(core.operating) then old(Doing()).After(Closed) else old(Doing())
    {
      FinishedCoheres(core, ring.count);
      TearFinished();
      ValidParts();
      Waiting(now);
      ring.Push(COMPLETE, false);
      ValidParts();
    }

    /** The connection is closed already: nothing is aborted. */
    method TearFinished()
      requires ring.Valid() && storage.Valid() && (core.operating <==> Doing().active) && core.closing
      requires core.Finished().Coherent(ring.count)
      modifies this`core, ring`queue, ring.slots, storage`stagingLength, storage`staging, storage`uploading, operation
      ensures Valid() && core == old(core).Finished() && ring.queue == Quieted(old(ring.queue))
      ensures Doing() == if old(core.operating) then old(Doing()).After(Closed) else old(Doing())
    {
      core := core.(connected := false, closing := false);
      Teardown();
      core := core.(actions := core.actions - {ABORT_DATA, CLOSE_DATA});
      ValidParts();
    }

    // ---- failures ----

    method DataError(now: u32)
      requires Valid()
      modifies this`core, this`times, ring`count, ring`queue, ring.slots, storage`stagingLength, storage`staging
      modifies storage`uploading, operation
      ensures Valid() && core.Quiet() && storage.contents == old(storage.contents) && core.session == old(core.session)
      ensures ring.queue ==
        if old(core.direction) != IDLE then Quieted(old(ring.queue)) + [Queued(DATA_FAILED, false)]
        else if old(core.passive) || old(core.opening) then Quieted(old(ring.queue)) + [Queued(CONNECTION_FAILED, false)]
        else old(ring.queue)
    {
      ValidOpen();
      if core.direction != IDLE { Failure(DATA_FAILED, now); }
      else if core.passive || core.opening { Failure(CONNECTION_FAILED, now); }
    }

    /** The deadlines. A session is dropped for its own silence only: never because the ring is full. */
    method Tick(now: u32)
      requires Valid()
      modifies this`core, this`times, ring, ring.slots, storage`stagingLength, storage`staging, storage`uploading
      modifies operation
      ensures Valid() && storage.contents == old(storage.contents)
      ensures core.session <==> old(core.session) && !old(Silent(now))
      ensures !old(core.session) || (core.session && !old(Stalled(now))) ==>
        core == old(core) && ring.queue == old(ring.queue)
      ensures core.session && old(Stalled(now)) ==>
        core.Quiet() && ring.queue == Quieted(old(ring.queue)) + [Queued(old(Overdue(now)), false)]
    {
      if !core.session { return; }
      ValidOpen();
      if Silent(now) {
        Lost();
      } else {
        Expire(now);
      }
    }

    method Expire(now: u32)
      requires Valid() && core.session
      modifies this`core, this`times, ring`count, ring`queue, ring.slots, storage`stagingLength, storage`staging
      modifies storage`uploading, operation
      ensures Valid() && core.session && storage.contents == old(storage.contents)
      ensures !old(Stalled(now)) ==> core == old(core) && ring.queue == old(ring.queue)
      ensures old(Stalled(now)) ==>
        core.Quiet() && ring.queue == Quieted(old(ring.queue)) + [Queued(old(Overdue(now)), false)]
    {
      ValidOpen();
      var answer := COMPLETE;
      if core.closing && Elapsed(now, times.close, 5000) {
        answer := CLOSE_TIMEOUT;
      } else if core.direction == DOWNLOAD && core.connected && core.ready && !core.closing
                && core.enqueued < |core.download| && Elapsed(now, times.dataOutput, 5000) {
        answer := OUTPUT_TIMEOUT;
      } else if core.direction != IDLE && (Elapsed(now, times.start, 60000) || Elapsed(now, times.progress, 15000)) {
        answer := TRANSFER_TIMEOUT;
      } else if (core.opening || (core.passive && core.direction == IDLE) || (core.passive && !core.connected))
                && Elapsed(now, times.passive, 15000) {
        answer := PASSIVE_TIMEOUT;
      }
      if answer != COMPLETE { Failure(answer, now); }
    }

    /** The control connection has been silent for too long, in one of four ways. */
    predicate Silent(now: u32)
      reads this`core, this`times, ring`count
    {
      || Elapsed(now, times.control, 60000)
      || (core.parser.active && Elapsed(now, core.parser.since, 10000))
      || (ring.count != 0 && Elapsed(now, times.output, 5000))
      || (core.quitting && ring.count == 0 && Elapsed(now, times.close, 5000))
    }

    /** What is complained of: a close that does not end, output that is not taken, a transfer, or a listener, in this order. */
    function Overdue(now: u32): Answer
      reads this`core, this`times
    {
      if core.closing && Elapsed(now, times.close, 5000) then CLOSE_TIMEOUT
      else if core.TransferReady() && core.direction == DOWNLOAD && core.enqueued < |core.download|
              && Elapsed(now, times.dataOutput, 5000) then OUTPUT_TIMEOUT
      else if core.direction != IDLE && (Elapsed(now, times.start, 60000) || Elapsed(now, times.progress, 15000))
      then TRANSFER_TIMEOUT
      else PASSIVE_TIMEOUT
    }

    /** The transfer, or the listener for it, has made no progress for too long. */
    predicate Stalled(now: u32)
      reads this`core, this`times
    {
      || (core.closing && Elapsed(now, times.close, 5000))
      || (core.TransferReady() && core.direction == DOWNLOAD && core.enqueued < |core.download|
          && Elapsed(now, times.dataOutput, 5000))
      || (core.direction != IDLE && (Elapsed(now, times.start, 60000) || Elapsed(now, times.progress, 15000)))
      || ((core.opening || (core.passive && !(core.connected && core.direction != IDLE)))
          && Elapsed(now, times.passive, 15000))
    }
  }

  lemma FinishedCoheres(s: State, count: nat)
    requires s.Coherent(count) && s.session && s.closing
    ensures var t := s.Finished();
      && t.Quiet() && t.Coherent(count) && t.Coherent(count + 1) && t.session && ABORT_DATA !in t.actions && count < SLOTS
  {
    CoherentOpen(s, count);
    CoherentOpen(s.Finished(), count);
    CoherentOpen(s.Finished(), count + 1);
  }

  lemma OpenedCoheres(s: State, count: nat, upload: bool, special: bool, view: seq<u8>)
    requires s.Coherent(count) && count + 2 <= SLOTS && s.direction == IDLE && s.session && s.binary && s.passive
    requires !s.quitting
    ensures s.Opened(upload, special, view).Coherent(count) && s.Opened(upload, special, view).Coherent(count + 1)
    ensures !s.opening && !s.eof && !s.accepted
  {
    CoherentOpen(s, count);
    CoherentOpen(s.Opened(upload, special, view), count);
    CoherentOpen(s.Opened(upload, special, view), count + 1);
  }

  lemma SentCoheres(s: State, before: nat, after: nat, opens: bool, empty: bool)
    requires s.Coherent(before) && after <= before && (empty <==> after == 0) && before > 0
    ensures s.Sent(opens, empty).Coherent(after)
  {
    CoherentOpen(s, before);
    CoherentOpen(s.Sent(opens, empty), after);
  }
}
