/** The stored-image verifier, its event stream, and the bridge that turns events into watchdog feeds.
    Hashing and signature checking are parameters. */
module Verify {
  import opened Bytes
  import opened Format
  import opened Codec
  import opened Flash
  import opened Lifecycle
  import opened Watchdog

  const SIGNED_BYTES: nat := 96

  /** The cryptography of one build: a digest, and the signatures that its public key accepts. */
  datatype Trust = Trust(digest: seq<u8> -> Hash, authentic: (seq<u8>, Signature) -> bool)

  /** The progress callback: bridged to a watchdog, or any other callback that may cancel. */
  class Observer {
    const watchdog: Watchdog
    const bridged: bool

    constructor (watchdog: Watchdog, bridged: bool)
      ensures this.watchdog == watchdog && this.bridged == bridged
    {
      this.watchdog := watchdog;
      this.bridged := bridged;
    }

    /** A boot-owned, running watchdog with at least n epochs left. */
    ghost predicate Healthy(n: nat)
      reads this, watchdog, watchdog.io
    {
      Health(n) == Yes
    }

    ghost function Health(n: nat): Verdict
      reads this, watchdog, watchdog.io
    {
      var w := watchdog;
      if && bridged && w.configured && !w.blocked && w.owner == BOOT && w.io.Running(w.reload)
         && w.epoch as int + n <= UINT32_MAX as int then Yes else No
    }

    /** progress: report the event, then feed, except for the begin event, which only opens a stream. */
    method Notify(event: Phase, done: u32, whole: u32, ghost left: nat) returns (go: bool)
      requires watchdog.Valid()
      modifies watchdog, watchdog.io
      ensures watchdog.Valid()
      ensures bridged && go ==> watchdog.bootFeeds == old(watchdog.bootFeeds) + (if event == MANIFEST_BEGIN then 0 else 1)
      ensures (&& old(Healthy(left)) && event == MANIFEST_BEGIN && old(watchdog.verification) < UINT32_MAX
               && done == 0 && PAYLOAD_MIN <= whole <= PAYLOAD_MAX && whole % 4 == 0) ==>
        && go && Healthy(left) && watchdog.phase == 1 && watchdog.total == whole && watchdog.completed == 0
        && watchdog.epoch == old(watchdog.epoch) && watchdog.verification == old(watchdog.verification) + 1
      ensures (&& old(Healthy(left + 1)) && event != MANIFEST_BEGIN
               && old(watchdog.Expected(watchdog.verification, event, done, whole))) ==>
        && go && Healthy(left) && watchdog.phase == 2 && watchdog.total == whole && watchdog.completed == done
        && watchdog.epoch == old(watchdog.epoch) + 1 && watchdog.verification == old(watchdog.verification)
    {
      if !bridged { go := *; return; }
      var id := watchdog.verification;
      if event == MANIFEST_BEGIN {
        if id == UINT32_MAX { return false; }
        id := id + 1;
      }
      var status := watchdog.Report(watchdog.epoch, id, event, done, whole);
      if status != WD_OK { return false; }
      if event == MANIFEST_BEGIN { return true; }
      status := watchdog.Service(BOOT, watchdog.epoch);
      return status == WD_OK;
    }
  }

  // ---- what a verification says ----

  predicate ManifestGood(trust: Trust, wire: seq<u8>, slot: u32) {
    && ManifestOf(wire).Ok? && ManifestOf(wire).value.slot == slot
    && |wire| >= SIGNED_BYTES && trust.authentic(wire[..SIGNED_BYTES], ManifestOf(wire).value.signature)
  }

  /** An image whose payload is the one its authentic manifest names, with usable vectors. */
  predicate ImageGood(trust: Trust, wire: seq<u8>, slot: u32, payload: seq<u8>) {
    && ManifestGood(trust, wire, slot)
    && var m := ManifestOf(wire).value;
    && |payload| == m.length && trust.digest(payload) == m.hash && |payload| >= 8
    && VectorsValidate(m, payload) == OK
  }

  function Verified(wire: seq<u8>, payload: seq<u8>): VerifiedImage
    requires ManifestOf(wire).Ok? && |payload| >= 8
  {
    VerifiedImage(ManifestOf(wire).value, Get32(payload, 0), Get32(payload, 4))
  }

  /** The payload bytes of a slot. */
  function Payload(mem: seq<u8>, slot: u32, length: u32): seq<u8>
    requires |mem| == FLASH_BYTES && SlotValid(slot) && length <= PAYLOAD_MAX
  {
    mem[SlotBase(slot) - FLASH_FIRST..SlotBase(slot) - FLASH_FIRST + length]
  }

  /** The slot holds a good image of the manifest. */
  ghost predicate GoodMeaning(trust: Trust, mem: seq<u8>, wire: seq<u8>, slot: u32) {
    && |mem| == FLASH_BYTES && SlotValid(slot) && ManifestGood(trust, wire, slot)
    && ImageGood(trust, wire, slot, Payload(mem, slot, ManifestOf(wire).value.length))
  }

  /** The same, behind a descent that the verifier does not follow (see GoodOpen). */
  ghost predicate GoodAt(trust: Trust, mem: seq<u8>, wire: seq<u8>, slot: u32) {
    GoodBehind(trust, mem, wire, slot, 2 + |wire|) == Yes
  }

  ghost function GoodBehind(trust: Trust, mem: seq<u8>, wire: seq<u8>, slot: u32, depth: nat): (v: Verdict)
    ensures v == Yes ==>
      |mem| == FLASH_BYTES && SlotValid(slot) && ManifestOf(wire).Ok? && ManifestOf(wire).value.slot == slot
  {
    if depth != 0 then GoodBehind(trust, mem, wire, slot, depth - 1)
    else if GoodMeaning(trust, mem, wire, slot) then Yes else No
  }

  lemma GoodOpen(trust: Trust, mem: seq<u8>, wire: seq<u8>, slot: u32)
    ensures GoodAt(trust, mem, wire, slot) == GoodMeaning(trust, mem, wire, slot)
  {
    GoodDescent(trust, mem, wire, slot, 2 + |wire|);
  }

  lemma {:induction false} GoodDescent(trust: Trust, mem: seq<u8>, wire: seq<u8>, slot: u32, depth: nat)
    ensures GoodBehind(trust, mem, wire, slot, depth) == Yes <==> GoodMeaning(trust, mem, wire, slot)
  {
    if depth != 0 { GoodDescent(trust, mem, wire, slot, depth - 1); }
  }

  /** The record names the image of the manifest. */
  predicate Named(r: Metadata, wire: seq<u8>) {
    ManifestOf(wire).Ok? && ImageMatches(r, ManifestOf(wire).value) == OK
  }

  lemma NamedMeaning(r: Metadata, wire: seq<u8>)
    requires Valid(r) && ManifestOf(wire).Ok?
    ensures var m := ManifestOf(wire).value;
      Named(r, wire) <==> r.Image(m.slot).length == m.length && r.Image(m.slot).release == m.release && r.Image(m.slot).hash == m.hash
  {
    ManifestFacts(wire);
  }

  /** A good image passes every check of the lifecycle but that of its name. */
  lemma GoodIsAdmissible(trust: Trust, wire: seq<u8>, slot: u32, payload: seq<u8>, r: Metadata)
    requires ImageGood(trust, wire, slot, payload) && Valid(r)
    ensures ImageAdmissible(Verified(wire, payload))
    ensures Execution(r, Verified(wire, payload)).None? <==> Named(r, wire)
  {
    ManifestFacts(wire);
  }

  /** The lifecycle's check of a verified image and the format's check of its payload are the same. */
  lemma AdmissibleIsVectors(wire: seq<u8>, payload: seq<u8>)
    requires ManifestOf(wire).Ok? && |payload| == ManifestOf(wire).value.length
    ensures ImageAdmissible(Verified(wire, payload)) <==> VectorsValidate(ManifestOf(wire).value, payload) == OK
  {
    ManifestFacts(wire);
  }

  lemma ManifestFacts(wire: seq<u8>)
    requires ManifestOf(wire).Ok?
    ensures ManifestValidate(ManifestOf(wire).value) == OK
  {
    ManifestOpen(wire);
  }

  predicate Located(m: Manifest) {
    SlotValid(m.slot) && m.base == SlotBase(m.slot) && PAYLOAD_MIN <= m.length <= PAYLOAD_MAX
  }

  /** boot_verify_manifest. */
  method VerifyManifest(trust: Trust, observer: Observer, wire: seq<u8>, slot: u32, ghost left: nat)
    returns (status: VerifyStatus, manifest: Option<Manifest>)
    requires observer.watchdog.Valid()
    modifies observer.watchdog, observer.watchdog.io
    ensures observer.watchdog.Valid()
    ensures status == VERIFY_OK ==>
      SlotValid(slot) && ManifestGood(trust, wire, slot) && manifest == Some(ManifestOf(wire).value)
    ensures status != VERIFY_OK ==> manifest == None
    ensures status == VERIFY_ARGUMENT <==> !SlotValid(slot)
    ensures status !in {VERIFY_HASH, VERIFY_MSP, VERIFY_THUMB, VERIFY_VECTOR_RANGE, VERIFY_READ}
    ensures InvalidImage(status) ==> !ManifestGood(trust, wire, slot)
    ensures ManifestOf(wire).Err? ==>
      status in {VERIFY_ARGUMENT, VERIFY_FORMAT} && unchanged(observer.watchdog, observer.watchdog.io)
    ensures (old(observer.Healthy(left + 1)) && old(observer.watchdog.verification) < UINT32_MAX) ==>
      && status != VERIFY_ABORTED && observer.watchdog.verification <= old(observer.watchdog.verification) + 1
      && (InvalidImage(status) ==> observer.Healthy(left + 1))
      && (status == VERIFY_OK ==> observer.Healthy(left) && Following(observer.watchdog, manifest.value.length, 0)
                                  && observer.watchdog.epoch == old(observer.watchdog.epoch) + 1
                                  && observer.watchdog.bootFeeds == old(observer.watchdog.bootFeeds) + 1)
  {
    manifest := None;
    if !SlotValid(slot) { return VERIFY_ARGUMENT, None; }
    var decoded := ManifestOf(wire);
    if decoded.Err? { return VERIFY_FORMAT, None; }
    ManifestFacts(wire);
    var m := decoded.value;
    if m.slot != slot { return VERIFY_TARGET, None; }
    var go := observer.Notify(MANIFEST_BEGIN, 0, m.length, left + 1);
    if !go { return VERIFY_ABORTED, None; }
    var fault: bool := *;
    if fault { return VERIFY_CRYPTO, None; }
    if !trust.authentic(wire[..SIGNED_BYTES], m.signature) { return VERIFY_SIGNATURE, None; }
    go := observer.Notify(MANIFEST_AUTHENTICATED, 0, m.length, left);
    if !go { return VERIFY_ABORTED, None; }
    return VERIFY_OK, Some(m);
  }

  ghost predicate Following(w: Watchdog, whole: u32, done: nat)
    reads w
  {
    w.phase == 2 && w.total == whole && w.completed == done
  }

  function Chunks(done: nat): nat { (done + CHUNK_BYTES - 1) / CHUNK_BYTES }

  /** How far a stream's watchdog had come when the payload began, and what must remain afterwards. */
  datatype StreamPlan = StreamPlan(left: nat, id: u32, epoch: u32, feeds: nat)

  /** The watchdog follows the stream, fed once for each chunk done, with epochs for the rest and more. */
  ghost predicate Streaming(observer: Observer, whole: u32, done: nat, plan: StreamPlan)
    requires done <= whole
    reads observer, observer.watchdog, observer.watchdog.io
  {
    StreamState(observer, whole, done, plan) == Yes
  }

  ghost function StreamState(observer: Observer, whole: u32, done: nat, plan: StreamPlan): Verdict
    requires done <= whole
    reads observer, observer.watchdog, observer.watchdog.io
  {
    if && Chunks(done) <= Chunks(whole)
       && observer.Healthy(plan.left + (Chunks(whole) - Chunks(done)))
       && Following(observer.watchdog, whole, done) && observer.watchdog.verification == plan.id
       && observer.watchdog.epoch as int == plan.epoch as int + Chunks(done)
       && observer.watchdog.bootFeeds == plan.feeds + Chunks(done) then Yes else No
  }

  lemma ChunkStep(done: nat, whole: nat)
    requires done < whole && done % CHUNK_BYTES == 0
    ensures var next := done + Min(whole - done, CHUNK_BYTES);
      && Chunks(next) == Chunks(done) + 1 && (next % CHUNK_BYTES == 0 || next == whole)
  {}

  lemma ChunksLeft(done: nat, whole: nat)
    requires done < whole && done % CHUNK_BYTES == 0
    ensures Chunks(done) < Chunks(whole)
  {}

  /** The feeds of one complete verification: one for the signature, one for each chunk of payload. */
  function Feeds(wire: seq<u8>): nat {
    if ManifestOf(wire).Ok? then 1 + Chunks(ManifestOf(wire).value.length) else 0
  }

  /** A boot-owned watchdog with epochs for one verification and more. */
  ghost predicate Attended(observer: Observer, wire: seq<u8>, left: nat)
    reads observer, observer.watchdog, observer.watchdog.io
  {
    observer.Healthy(left + Feeds(wire)) && observer.watchdog.verification < UINT32_MAX
  }

  lemma GoodIsAuthentic(trust: Trust, mem: seq<u8>, wire: seq<u8>, slot: u32)
    ensures GoodAt(trust, mem, wire, slot) ==> ManifestGood(trust, wire, slot)
  {
    GoodOpen(trust, mem, wire, slot);
  }

  /** boot_verify_stored: the payload is read, hashed and reported in chunks; the image is published only at the end.
      A call into the cryptography that fails counts as a fault like one of the device. */
  method VerifyStored(trust: Trust, dev: Device, observer: Observer, wire: seq<u8>, slot: u32, ghost left: nat)
    returns (status: VerifyStatus, image: Option<VerifiedImage>, ghost payload: seq<u8>)
    requires dev.Sized() && observer.watchdog.Valid()
    modifies dev, observer.watchdog, observer.watchdog.io
    ensures observer.watchdog.Valid()
    ensures status == VERIFY_OK ==>
      SlotValid(slot) && ImageGood(trust, wire, slot, payload) && image == Some(Verified(wire, payload))
    ensures status == VERIFY_OK && !dev.fabricatedReads ==>
      payload == Payload(dev.Memory(), slot, ManifestOf(wire).value.length)
    ensures status == VERIFY_OK && !dev.fabricatedReads ==> GoodAt(trust, dev.Memory(), wire, slot)
    ensures status != VERIFY_OK ==> image == None
    ensures status == VERIFY_ARGUMENT <==> !SlotValid(slot)
    ensures InvalidImage(status) ==> !ManifestGood(trust, wire, slot) || !ImageGood(trust, wire, slot, payload)
    ensures InvalidImage(status) && !dev.fabricatedReads ==> !GoodAt(trust, dev.Memory(), wire, slot)
    ensures old(dev.blocked) ==> dev.blocked
    ensures dev.faults >= old(dev.faults) && (dev.faults == old(dev.faults) ==> dev.blocked == old(dev.blocked))
    ensures dev.faults == old(dev.faults) && !old(dev.blocked) ==> status !in {VERIFY_READ, VERIFY_CRYPTO}
    ensures old(Attended(observer, wire, left)) ==>
      && status != VERIFY_ABORTED
      && (status == VERIFY_OK || InvalidImage(status) ==>
            observer.Healthy(left) && observer.watchdog.verification <= old(observer.watchdog.verification) + 1)
      && (WholeSeen(status) ==>
            && observer.watchdog.epoch as int == old(observer.watchdog.epoch) as int + Feeds(wire)
            && observer.watchdog.bootFeeds == old(observer.watchdog.bootFeeds) + Feeds(wire))
  {
    image, payload := None, [];
    GoodIsAuthentic(trust, dev.Memory(), wire, slot);
    var manifest;
    status, manifest := VerifyManifest(trust, observer, wire, slot,
      if ManifestOf(wire).Ok? then left + Chunks(ManifestOf(wire).value.length) else 0);
    if status == VERIFY_CRYPTO { dev.faults := dev.faults + 1; }
    if status == VERIFY_OK {
      status, image, payload := VerifyPayload(trust, dev, observer, wire, slot, manifest.value,
        StreamPlan(left, observer.watchdog.verification, observer.watchdog.epoch, observer.watchdog.bootFeeds));
    }
  }

  /** The payload of an authentic manifest is read and judged. */
  method VerifyPayload(trust: Trust, dev: Device, observer: Observer, wire: seq<u8>, slot: u32, m: Manifest,
                       ghost plan: StreamPlan)
    returns (status: VerifyStatus, image: Option<VerifiedImage>, ghost payload: seq<u8>)
    requires dev.Sized() && observer.watchdog.Valid() && ManifestGood(trust, wire, slot) && m == ManifestOf(wire).value
    modifies dev, observer.watchdog, observer.watchdog.io
    ensures observer.watchdog.Valid()
    ensures status in {VERIFY_READ, VERIFY_CRYPTO, VERIFY_ABORTED} || WholeSeen(status)
    ensures WholeSeen(status) ==> |payload| == m.length && (status == VERIFY_OK <==> ImageGood(trust, wire, slot, payload))
    ensures image == if status == VERIFY_OK then Some(Verified(wire, payload)) else None
    ensures WholeSeen(status) && !dev.fabricatedReads ==>
      && m.slot == slot && payload == Payload(dev.Memory(), slot, m.length)
      && (status == VERIFY_OK <==> GoodAt(trust, dev.Memory(), wire, slot))
    ensures old(dev.blocked) ==> dev.blocked
    ensures dev.faults >= old(dev.faults) && (dev.faults == old(dev.faults) ==> dev.blocked == old(dev.blocked))
    ensures dev.faults == old(dev.faults) && !old(dev.blocked) ==> WholeSeen(status) || status == VERIFY_ABORTED
    ensures old(Streaming(observer, m.length, 0, plan)) ==>
      status != VERIFY_ABORTED && (WholeSeen(status) ==> Streaming(observer, m.length, m.length, plan))
  {
    ManifestFacts(wire);
    GoodOpen(trust, dev.Memory(), wire, slot);
    var absorbed: seq<u8>;
    status, absorbed := ReadPayload(dev, observer, m, plan);
    image, payload := None, absorbed;
    if status != VERIFY_OK { return; }
    var fault: bool := *;
    if fault {
      dev.faults := dev.faults + 1;
      status := VERIFY_CRYPTO;
    } else {
      JudgementMeaning(trust, wire, slot, absorbed);
      status := Judgement(trust, m, absorbed);
      if status == VERIFY_OK { image := Some(Verified(wire, absorbed)); }
    }
  }

  /** The whole payload has been seen. */
  predicate WholeSeen(status: VerifyStatus) {
    status in {VERIFY_OK, VERIFY_HASH, VERIFY_MSP, VERIFY_THUMB, VERIFY_VECTOR_RANGE}
  }

  /** The checks after the last chunk: hash, initial stack pointer, Thumb bit and vector range. */
  function Judgement(trust: Trust, m: Manifest, payload: seq<u8>): (status: VerifyStatus)
    requires |payload| >= 8 && Located(m)
    ensures WholeSeen(status)
  {
    var reset := Get32(payload, 4);
    if trust.digest(payload) != m.hash then VERIFY_HASH
    else if Get32(payload, 0) != INITIAL_MSP then VERIFY_MSP
    else if reset % 2 == 0 then VERIFY_THUMB
    else if reset - 1 < m.base || reset - 1 >= m.base as int + m.length as int then VERIFY_VECTOR_RANGE
    else VERIFY_OK
  }

  lemma JudgementMeaning(trust: Trust, wire: seq<u8>, slot: u32, payload: seq<u8>)
    requires ManifestGood(trust, wire, slot) && |payload| == ManifestOf(wire).value.length
    ensures Judgement(trust, ManifestOf(wire).value, payload) == VERIFY_OK <==> ImageGood(trust, wire, slot, payload)
  {
    ManifestFacts(wire);
  }

  /** The chunk loop; the hash context is the bytes absorbed so far. */
  method ReadPayload(dev: Device, observer: Observer, m: Manifest, ghost plan: StreamPlan)
    returns (status: VerifyStatus, absorbed: seq<u8>)
    requires dev.Sized() && observer.watchdog.Valid() && Located(m)
    modifies dev, observer.watchdog, observer.watchdog.io
    ensures observer.watchdog.Valid()
    ensures status in {VERIFY_OK, VERIFY_READ, VERIFY_CRYPTO, VERIFY_ABORTED}
    ensures status == VERIFY_OK ==> |absorbed| == m.length
    ensures status == VERIFY_OK && !dev.fabricatedReads ==> absorbed == Payload(dev.Memory(), m.slot, m.length)
    ensures old(dev.blocked) ==> dev.blocked
    ensures dev.faults >= old(dev.faults) && (dev.faults == old(dev.faults) ==> dev.blocked == old(dev.blocked))
    ensures dev.faults == old(dev.faults) && !old(dev.blocked) ==> status !in {VERIFY_READ, VERIFY_CRYPTO}
    ensures old(Streaming(observer, m.length, 0, plan)) ==>
      status != VERIFY_ABORTED && (status == VERIFY_OK ==> Streaming(observer, m.length, m.length, plan))
  {
    absorbed := [];
    var completed: nat := 0;
    while completed < m.length
      decreases m.length - completed
      invariant 0 <= completed <= m.length && |absorbed| == completed
      invariant completed < m.length ==> completed % CHUNK_BYTES == 0
      invariant observer.watchdog.Valid()
      invariant !dev.fabricatedReads ==> absorbed == Payload(dev.Memory(), m.slot, completed)
      invariant old(dev.blocked) ==> dev.blocked
      invariant dev.faults >= old(dev.faults) && (dev.faults == old(dev.faults) ==> dev.blocked == old(dev.blocked))
      invariant old(Streaming(observer, m.length, 0, plan)) ==> Streaming(observer, m.length, completed, plan)
    {
      var buffer;
      status, buffer := ReadChunk(dev, observer, m, completed, plan);
      if status != VERIFY_OK { return; }
      if !dev.fabricatedReads { PayloadGrows(dev.Memory(), m.slot, completed, |buffer|); }
      absorbed := absorbed + buffer;
      completed := completed + |buffer|;
    }
    return VERIFY_OK, absorbed;
  }

  lemma PayloadGrows(mem: seq<u8>, slot: u32, done: nat, more: nat)
    requires |mem| == FLASH_BYTES && SlotValid(slot) && done + more <= PAYLOAD_MAX
    ensures var at := SlotBase(slot) - FLASH_FIRST + done;
      Payload(mem, slot, done + more) == Payload(mem, slot, done) + mem[at..at + more]
  {}

  /** One chunk: read, hashed, then reported. */
  method ReadChunk(dev: Device, observer: Observer, m: Manifest, completed: nat, ghost plan: StreamPlan)
    returns (status: VerifyStatus, buffer: seq<u8>)
    requires dev.Sized() && observer.watchdog.Valid() && Located(m)
    requires completed < m.length && completed % CHUNK_BYTES == 0
    modifies dev, observer.watchdog, observer.watchdog.io
    ensures observer.watchdog.Valid()
    ensures status in {VERIFY_OK, VERIFY_READ, VERIFY_CRYPTO, VERIFY_ABORTED}
    ensures status == VERIFY_OK ==> 0 < |buffer| <= m.length - completed
    ensures status == VERIFY_OK && completed + |buffer| < m.length ==> (completed + |buffer|) % CHUNK_BYTES == 0
    ensures status == VERIFY_OK && !dev.fabricatedReads ==>
      var at := SlotBase(m.slot) - FLASH_FIRST + completed; buffer == dev.Memory()[at..at + |buffer|]
    ensures old(dev.blocked) ==> dev.blocked
    ensures dev.faults >= old(dev.faults) && (dev.faults == old(dev.faults) ==> dev.blocked == old(dev.blocked))
    ensures dev.faults == old(dev.faults) && !old(dev.blocked) ==> status !in {VERIFY_READ, VERIFY_CRYPTO}
    ensures old(Streaming(observer, m.length, completed, plan)) ==>
      status != VERIFY_ABORTED && (status == VERIFY_OK ==> Streaming(observer, m.length, completed + |buffer|, plan))
  {
    var requested := Min(m.length - completed, CHUNK_BYTES);
    var ok; ghost var lie;
    ok, buffer, lie := dev.Read(m.base + completed, requested);
    if !ok { return VERIFY_READ, []; }
    var fault: bool := *;
    if fault {
      dev.faults := dev.faults + 1;
      return VERIFY_CRYPTO, [];
    }
    ChunkStep(completed, m.length);
    ChunksLeft(completed, m.length);
    ghost var left := plan.left + (Chunks(m.length) - Chunks(completed)) - 1;
    var go := observer.Notify(PAYLOAD_PROGRESS, completed + requested, m.length, left);
    return if go then VERIFY_OK else VERIFY_ABORTED, buffer;
  }
}
