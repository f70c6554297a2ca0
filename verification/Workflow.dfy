/** The client: one upload, then resolution by status only; and what its verdicts say about the device. */
module Workflow {
  import opened Bytes
  import opened Format
  import opened Codec
  import opened Lifecycle
  import opened History
  import opened Verify
  import opened Text
  import opened Confirm
  import opened Status
  import Service

  // ---- artifacts ----

  datatype Artifact = Artifact(slot: u32, hash: Hash, release: u32, body: seq<u8>)

  /** Artifact.from_bytes: shape and identity of a package, not its signature. */
  function Parsed(digest: seq<u8> -> Hash, body: seq<u8>): (a: Option<Artifact>)
    ensures a.Some? ==> SlotValid(a.value.slot)
  {
    if |body| < MANIFEST_BYTES || body[..16] != MANIFEST_DOMAIN then None
    else if Get32(body, 16) != 1 || Get32(body, 20) != 160 || Get32(body, 24) != 1 || Get32(body, 44) != 0
         || !SlotValid(Get32(body, 28)) then None
    else ArtifactBody(digest, body, Get32(body, 28), Get32(body, 32), Get32(body, 36), Get32(body, 40))
  }

  function ArtifactBody(digest: seq<u8> -> Hash, body: seq<u8>, slot: u32, base: u32, length: u32, release: u32): Option<Artifact>
    requires |body| >= MANIFEST_BYTES
  {
    if base != SlotBase(slot) || !(236 <= length <= 111616) || length % 4 != 0 then None
    else if |body| != 160 + length || body[80..96] != Zeros(16) then None
    else if digest(body[160..]) != body[48..80] then None
    else
      var msp, reset := Get32(body, 160), Get32(body, 164);
      if msp != 0x2001_0000 || reset % 2 == 0 || !(base as int <= reset as int - 1 < base as int + length as int) then None
      else Some(Artifact(slot, body[48..80], release, body))
  }

  /** The same, behind a descent that the verifier does not follow (see ArtifactOpen). */
  function ArtifactOf(digest: seq<u8> -> Hash, body: seq<u8>): Option<Artifact> { ArtifactBehind(digest, body, 2 + |body|) }

  function ArtifactBehind(digest: seq<u8> -> Hash, body: seq<u8>, depth: nat): (a: Option<Artifact>)
    ensures a.Some? ==> SlotValid(a.value.slot)
  {
    if depth != 0 then ArtifactBehind(digest, body, depth - 1) else Parsed(digest, body)
  }

  lemma {:induction false} ArtifactOpen(digest: seq<u8> -> Hash, body: seq<u8>, depth: nat)
    ensures ArtifactBehind(digest, body, depth) == Parsed(digest, body)
  {
    if depth != 0 { ArtifactOpen(digest, body, depth - 1); }
  }

  lemma SlotEnds(slot: u32, length: u32)
    requires SlotValid(slot)
    ensures ImageSpan(slot, SlotBase(slot), length).Ok? <==> 236 <= length <= 111616 && length % 4 == 0
  {}

  /** The client accepts exactly the packages that the device's verifier would, but for the signature. */
  lemma ArtifactAgrees(trust: Trust, body: seq<u8>, slot: u32)
    requires |body| >= MANIFEST_BYTES && SlotValid(slot)
    ensures ImageGood(trust, body[..MANIFEST_BYTES], slot, body[MANIFEST_BYTES..]) <==>
      && ArtifactOf(trust.digest, body).Some? && ArtifactOf(trust.digest, body).value.slot == slot
      && trust.authentic(body[..SIGNED_BYTES], body[SIGNED_BYTES..MANIFEST_BYTES])
  {
    var wire, payload := body[..MANIFEST_BYTES], body[MANIFEST_BYTES..];
    ManifestOpen(wire);
    SamePrefix(wire, body, MANIFEST_BYTES);
    assert wire[..16] == body[..16] && wire[..SIGNED_BYTES] == body[..SIGNED_BYTES];
    assert wire[48..80] == body[48..80] && wire[80..96] == body[80..96] && wire[96..160] == body[96..160];
    assert forall at {:trigger Get32(wire, at)} :: 0 <= at && at + 4 <= MANIFEST_BYTES ==> Get32(wire, at) == Get32(body, at);
    if |body| >= MANIFEST_BYTES + 8 {
      assert payload == body[MANIFEST_BYTES..|body|];
      GetInSlice(body, MANIFEST_BYTES, |body|, 0);
      GetInSlice(body, MANIFEST_BYTES, |body|, 4);
    }
    SlotEnds(slot, Get32(body, 36));
    ArtifactManifest(trust, body, slot);
    ArtifactOpen(trust.digest, body, 2 + |body|);
  }

  lemma ArtifactManifest(trust: Trust, body: seq<u8>, slot: u32)
    requires |body| >= MANIFEST_BYTES && SlotValid(slot)
    ensures ManifestOf(body[..MANIFEST_BYTES]).Ok? && ManifestOf(body[..MANIFEST_BYTES]).value.slot == slot <==>
      && body[..16] == MANIFEST_DOMAIN && Get32(body, 16) == 1 && Get32(body, 20) == 160 && Get32(body, 24) == 1
      && Get32(body, 44) == 0 && body[80..96] == Zeros(16) && Get32(body, 28) == slot
      && Get32(body, 32) == SlotBase(slot) && 236 <= Get32(body, 36) <= 111616 && Get32(body, 36) % 4 == 0
    ensures ManifestOf(body[..MANIFEST_BYTES]).Ok? ==>
      ManifestOf(body[..MANIFEST_BYTES]).value == Manifest(Get32(body, 28), Get32(body, 32), Get32(body, 36), Get32(body, 40),
                                                           body[48..80], body[96..160])
  {
    var wire := body[..MANIFEST_BYTES];
    ManifestOpen(wire);
    SamePrefix(wire, body, MANIFEST_BYTES);
    assert forall at {:trigger Get32(wire, at)} :: 0 <= at && at + 4 <= MANIFEST_BYTES ==> Get32(wire, at) == Get32(body, at);
    assert wire[..16] == body[..16];
    assert wire[48..80] == body[48..80] && wire[80..96] == body[80..96] && wire[96..160] == body[96..160];
    SlotEnds(slot, Get32(body, 36));
  }

  // ---- where an entry comes from ----

  /** An entry that appears is one that was just accepted. */
  lemma NewEntryIsAccepted(r: Metadata, a: Action, slot: u32)
    requires Valid(r) && Apply(r, a).Change? && SlotValid(slot)
    ensures var e, f := r.Image(slot), Apply(r, a).record.Image(slot);
      f.length != 0 && f != e && !SameLife(e, f) ==>
        && a.DoAccept? && a.evidence.incoming.slot == slot
        && f.hash == a.evidence.incoming.hash && f.release == a.evidence.incoming.release
        && f.trialId == Apply(r, a).record.sequence
  {
    ValidMeaning(r);
    match a
    case DoInvalidate(e) => InvalidateCloses(r, e);
    case DoAccept(e, stored) => AcceptReadyCloses(r, e, stored);
    case DoBeginTrial(image) => BeginTrialCloses(r, image);
    case DoConfirm(request, running, health) => ConfirmCloses(r, request, running, health);
    case DoFailure(f) => CountedFailureCloses(r, f);
    case DoPromote(invalid, previous) => PromotePreviousCloses(r, invalid, previous);
    case DoDeadline(request, running) => DeadlineIntentCloses(r, request, running);
  }

  /** The acceptance in the run that the entry of a slot goes back to. */
  predicate AcceptedAt(run: seq<Metadata>, actions: seq<Action>, k: nat, slot: u32, e: Entry)
    requires |run| == |actions| + 1
  {
    && k < |actions| && actions[k].DoAccept? && actions[k].evidence.incoming.slot == slot
    && actions[k].evidence.incoming.hash == e.hash && actions[k].evidence.incoming.release == e.release
    && run[k + 1].sequence == e.trialId
  }

  predicate NamedAlike(e: Entry, f: Entry) {
    e.length != 0 && e.hash == f.hash && e.release == f.release && e.trialId == f.trialId
  }

  /** The entry was there one record earlier, or the action in between accepted it. */
  predicate Descends(run: seq<Metadata>, actions: seq<Action>, j: nat, slot: u32)
    requires |run| == |actions| + 1
  {
    0 < j < |run| && run[j].Image(slot).length != 0 ==>
      || NamedAlike(run[j - 1].Image(slot), run[j].Image(slot))
      || AcceptedAt(run, actions, j - 1, slot, run[j].Image(slot))
  }

  lemma StepDescends(run: seq<Metadata>, actions: seq<Action>, j: nat, slot: u32)
    requires IsRun(run, actions) && SlotValid(slot)
    ensures Descends(run, actions, j, slot)
  {
    if 0 < j < |run| {
      RunKeeps(run, actions, j - 1);
      RunStepAccepts(run, actions, j - 1, slot);
    }
  }

  lemma RunStepAccepts(run: seq<Metadata>, actions: seq<Action>, n: nat, slot: u32)
    requires IsRun(run, actions) && n < |actions| && Valid(run[n]) && SlotValid(slot)
    ensures run[n + 1].Image(slot).length != 0 ==>
      || NamedAlike(run[n].Image(slot), run[n + 1].Image(slot))
      || AcceptedAt(run, actions, n, slot, run[n + 1].Image(slot))
  {
    RunStep(run, actions, n);
    NewEntryIsAccepted(run[n], actions[n], slot);
  }

  lemma NoIdAhead(r: Metadata, slot: u32)
    requires Valid(r) && SlotValid(slot) && r.Image(slot).length != 0
    ensures r.Image(slot).trialId <= r.sequence
  {
    ValidMeaning(r);
  }

  /** An entry whose id is above a sequence number was accepted after the record with that number. */
  lemma Origin(run: seq<Metadata>, actions: seq<Action>, i: nat, j: nat, slot: u32) returns (k: nat)
    requires IsRun(run, actions) && i <= j < |run| && SlotValid(slot)
    requires run[j].Image(slot).length != 0 && run[j].Image(slot).trialId > run[i].sequence
    ensures i <= k < j && AcceptedAt(run, actions, k, slot, run[j].Image(slot))
  {
    forall n: nat ensures Descends(run, actions, n, slot) { StepDescends(run, actions, n, slot); }
    RunKeeps(run, actions, i);
    if run[i].Image(slot).length != 0 { NoIdAhead(run[i], slot); }
    k := OriginIn(run, actions, i, j, slot);
  }

  lemma {:induction false} OriginIn(run: seq<Metadata>, actions: seq<Action>, i: nat, j: nat, slot: u32) returns (k: nat)
    requires |run| == |actions| + 1 && i <= j < |run| && forall n: nat :: Descends(run, actions, n, slot)
    requires run[i].Image(slot).length != 0 ==> run[i].Image(slot).trialId <= run[i].sequence
    requires run[j].Image(slot).length != 0 && run[j].Image(slot).trialId > run[i].sequence
    ensures i <= k < j && AcceptedAt(run, actions, k, slot, run[j].Image(slot))
    decreases j - i
  {
    assert i < j && Descends(run, actions, j, slot);
    if NamedAlike(run[j - 1].Image(slot), run[j].Image(slot)) {
      k := OriginIn(run, actions, i, j - 1, slot);
    } else {
      k := j - 1;
    }
  }

  // ---- verdicts ----

  datatype Finding = UNKNOWN | MISMATCH | CONFIRMED | TRIAL | UNHEALTHY

  /** The status is about this artifact running. */
  predicate About(o: Observed, a: Artifact) {
    o.running == Some(a.slot) && o.hash == Some(a.hash) && o.release == Some(a.release as nat)
  }

  /** The status reports an acceptance made after the one before. */
  predicate Fresh(before: Option<Observed>, o: Observed) {
    && before.Some? && before.value.sequence.Some? && o.sequence.Some? && o.trialId.Some?
    && before.value.sequence.value < o.trialId.value <= o.sequence.value
  }

  predicate ShowsConfirmed(o: Observed, a: Artifact) {
    o.confirmed == Some(a.slot) && o.candidate == None && o.trialState == STATE_NONE
  }

  /** The status shows the artifact as a healthy or unhealthy trial. */
  predicate ShowsTrial(o: Observed, a: Artifact) {
    o.candidate == Some(a.slot) && o.trialState == STATE_TRIAL && o.permitted == None && !ShowsConfirmed(o, a)
  }

  /** The same image runs as before the upload, and the upload has at most invalidated its slot or become ready. */
  predicate Pending(before: Option<Observed>, o: Observed, a: Artifact) {
    && before.Some? && before.value.release.Some? && o.running == before.value.running && o.hash == before.value.hash
    && o.confirmed == before.value.confirmed && o.release == before.value.release
    && ((o.candidate == None && o.trialState == STATE_NONE && o.permitted == Some(a.slot))
        || (o.candidate == Some(a.slot) && o.trialState == STATE_READY && o.permitted == None))
  }

  predicate Known(o: Observed) { o.running.Some? && o.hash.Some? && o.release.Some? }

  /** The verdict on one status, given the id retained so far. */
  function Judged(a: Artifact, before: Option<Observed>, trialId: Option<nat>, o: Observed): Finding {
    if !Known(o) then UNKNOWN
    else if !About(o, a) then if trialId.None? && Pending(before, o, a) then UNKNOWN else MISMATCH
    else if trialId.Some? && o.trialId.Some? && o.trialId != trialId then MISMATCH
    else if !Fresh(before, o) then UNKNOWN
    else if ShowsConfirmed(o, a) then CONFIRMED
    else if ShowsTrial(o, a) then if o.healthy then TRIAL else UNHEALTHY
    else UNKNOWN
  }

  /** While the upload is on its way into the slot and the old image still runs, no truthful status is a mismatch. */
  lemma UploadIsPending(r: Metadata, e: UploadEvidence, stored: VerifiedImage, s: Captured, t: Captured, a: Artifact)
    requires Renderable(s) && Renderable(t) && s.metadata.record == r && s.running.manifest == t.running.manifest
    requires e.running.manifest == s.running.manifest && e.permitted == a.slot && Invalidate(r, e).Change?
    requires var invalidated := Invalidate(r, e).record;
      t.metadata.record == invalidated || AcceptReady(invalidated, e, stored) == Change(t.metadata.record)
    requires !About(Reported(t), a)
    ensures Pending(Some(Reported(s)), Reported(t), a)
    ensures Judged(a, Some(Reported(s)), None, Reported(t)) == UNKNOWN
  {
    InvalidateCloses(r, e);
    ValidMeaning(r);
    var invalidated := Invalidate(r, e).record;
    ValidMeaning(invalidated);
    AcceptReadyCloses(invalidated, e, stored);
  }

  /** A truthful status that the client takes for success: the record has this artifact as confirmed current, and it was
      accepted after the upload was admitted, however old or repeated the status message is. */
  lemma ConfirmedIsSound(run: seq<Metadata>, actions: seq<Action>, i: nat, j: nat, s: Captured, before: Observed, a: Artifact)
    returns (k: nat)
    requires IsRun(run, actions) && i < |run| && j < |run|
    requires Renderable(s) && s.metadata.record == run[j] && before.sequence == Some(run[i].sequence as nat)
    requires About(Reported(s), a) && Fresh(Some(before), Reported(s)) && ShowsConfirmed(Reported(s), a)
    ensures i <= k < j && AcceptedAt(run, actions, k, a.slot, run[j].Image(a.slot))
    ensures run[j].current == a.slot && run[j].Confirmed(a.slot)
    ensures run[j].Image(a.slot).hash == a.hash && run[j].Image(a.slot).release == a.release
  {
    RunKeeps(run, actions, i);
    RunKeeps(run, actions, j);
    ValidMeaning(run[j]);
    k := Origin(run, actions, i, j, a.slot);
  }

  /** The device confirms only the acceptance that the request names. */
  lemma ConfirmsItsAcceptance(run: seq<Metadata>, actions: seq<Action>, n: nat) returns (k: nat)
    requires IsRun(run, actions) && n < |actions| && actions[n].DoConfirm?
    requires run[n].Image(actions[n].request.slot).trialId > run[0].sequence
    ensures k < n && AcceptedAt(run, actions, k, actions[n].request.slot, run[n].Image(actions[n].request.slot))
    ensures run[k + 1].sequence == actions[n].request.trialId
    ensures forall m: nat :: AcceptedAt(run, actions, m, actions[n].request.slot, run[n].Image(actions[n].request.slot)) ==> m == k
  {
    var slot := actions[n].request.slot;
    RunKeeps(run, actions, n);
    RunStep(run, actions, n);
    ConfirmCloses(run[n], actions[n].request, actions[n].running, actions[n].health);
    ValidMeaning(run[n]);
    k := Origin(run, actions, 0, n, slot);
    forall m: nat | AcceptedAt(run, actions, m, slot, run[n].Image(slot)) ensures m == k {
      AcceptedOnce(run, actions, m, k, slot, run[n].Image(slot));
    }
  }

  /** No two acceptances give the same id. */
  lemma AcceptedOnce(run: seq<Metadata>, actions: seq<Action>, k: nat, m: nat, slot: u32, e: Entry)
    requires IsRun(run, actions) && AcceptedAt(run, actions, k, slot, e) && AcceptedAt(run, actions, m, slot, e)
    ensures k == m
  {
    SequenceCounts(run, actions, m + 1);
    SequenceCounts(run, actions, k + 1);
  }

  lemma SequenceCounts(run: seq<Metadata>, actions: seq<Action>, n: nat)
    requires IsRun(run, actions) && n < |run|
    ensures run[n].sequence == run[0].sequence + n
  {
    RunKeeps(run, actions, n);
  }

  // ---- the client ----

  datatype Sent = Firmware(body: seq<u8>) | Confirmation(text: string)

  /** What the transport will deliver, one entry for each status request: a body, or silence. */
  class Link {
    var inbox: seq<Option<string>>
    /** Everything stored, whether or not it arrived. */
    var sent: seq<Sent>

    constructor (inbox: seq<Option<string>>)
      ensures this.inbox == inbox && sent == []
    {
      this.inbox, sent := inbox, [];
    }

    method Retrieve() returns (body: Option<string>)
      modifies this`inbox
      ensures old(inbox) == [] ==> body == None && inbox == []
      ensures old(inbox) != [] ==> body == old(inbox)[0] && inbox == old(inbox)[1..]
    {
      if inbox == [] { return None; }
      body := inbox[0];
      inbox := inbox[1..];
    }

    /** The reply may be lost, and so may the request. */
    method Store(item: Sent) returns (ok: bool)
      modifies this`sent
      ensures sent == old(sent) + [item]
    {
      sent := sent + [item];
      ok := *;
    }
  }

  /** A body that the device rendered from one of these records, at any time. */
  ghost predicate Genuine(body: string, records: set<Metadata>) {
    exists s: Captured :: Renderable(s) && s.metadata.record in records && body == Rendering(s)
  }

  ghost predicate Honest(inbox: seq<Option<string>>, records: set<Metadata>) { Honesty(inbox, records) == Yes }

  ghost function Honesty(inbox: seq<Option<string>>, records: set<Metadata>): Verdict {
    if forall k :: 0 <= k < |inbox| && inbox[k].Some? ==> Genuine(inbox[k].value, records) then Yes else No
  }

  /** A report of one of the records. */
  ghost predicate Reports(o: Observed, records: set<Metadata>) { Reporting(o, records) == Yes }

  ghost function Reporting(o: Observed, records: set<Metadata>): Verdict {
    if exists s: Captured :: Renderable(s) && s.metadata.record in records && o == Reported(s) then Yes else No
  }

  lemma GenuineReports(body: string, records: set<Metadata>)
    requires Genuine(body, records) && ParseStatus(body).Some?
    ensures Reports(Typed(ParseStatus(body).value), records)
  {
    var s: Captured :| Renderable(s) && s.metadata.record in records && body == Rendering(s);
    ReportArrives(s);
  }

  /** An accepted status has a trial id of 32 bits. */
  lemma TrialIdFits(body: string)
    requires ParseStatus(body).Some?
    ensures var o := Typed(ParseStatus(body).value); o.trialId.Some? ==> o.trialId.value <= UINT32_MAX
  {
    var v := ParseStatus(body).value;
    var lines := Split(body[..|body| - 1], '\n');
    assert v[8] == RowValue(lines[8]) && ValueValid(8, v[8]);
    ValueOpen(8, v[8]);
  }

  /** What the next read shows: nothing if the next reply is lost or malformed. */
  function Shown(inbox: seq<Option<string>>): Option<Observed> {
    if inbox == [] || inbox[0].None? || ParseStatus(inbox[0].value).None? then None
    else Some(Typed(ParseStatus(inbox[0].value).value))
  }

  /** A status that admits an upload: nothing is pending, and what runs is confirmed and is not the destination. */
  predicate Admits(o: Observed) {
    o.permitted.Some? && o.candidate.None? && o.running.Some? && o.running == o.confirmed && o.running != o.permitted
  }

  /** What is offered to a status: the package for the slot that it permits, if it admits an upload at all. */
  function Offered(digest: seq<u8> -> Hash, status: Option<Observed>, packageA: seq<u8>, packageB: seq<u8>)
    : (offered: Option<Artifact>)
    ensures offered.Some? ==>
      && status.Some? && Admits(status.value) && status.value.permitted == Some(offered.value.slot)
      && offered == ArtifactOf(digest, if offered.value.slot == SLOT_A then packageA else packageB)
    ensures status.Some? && Admits(status.value) && offered.None? ==>
      var a := ArtifactOf(digest, if status.value.permitted == Some(SLOT_A) then packageA else packageB);
      a.None? || Some(a.value.slot) != status.value.permitted
  {
    if status.None? || !Admits(status.value) then None
    else
      var chosen := ArtifactOf(digest, if status.value.permitted == Some(SLOT_A) then packageA else packageB);
      if chosen.Some? && Some(chosen.value.slot) == status.value.permitted then chosen else None
  }

  /** Of the next statuses, none settles the upload: each is lost, or shows neither success nor a healthy trial of it. */
  predicate Undecided(a: Artifact, before: Option<Observed>, inbox: seq<Option<string>>, attempts: nat)
    decreases attempts
  {
    attempts == 0
    || ((Shown(inbox).Some? ==>
           var o := Shown(inbox).value;
           !(About(o, a) && Fresh(before, o) && (ShowsConfirmed(o, a) || (ShowsTrial(o, a) && o.healthy))))
        && Undecided(a, before, Later(inbox), attempts - 1))
  }

  function Later(inbox: seq<Option<string>>): seq<Option<string>> { if inbox == [] then [] else inbox[1..] }

  class Client {
    const link: Link
    const digest: seq<u8> -> Hash
    var artifact: Option<Artifact>
    var trialId: Option<nat>
    var before: Option<Observed>
    var uploadAttempted: bool
    var confirmAttempted: bool

    constructor (link: Link, digest: seq<u8> -> Hash)
      ensures Valid() && this.link == link && this.digest == digest
      ensures !uploadAttempted && artifact == None && trialId == None && before == None
    {
      this.link, this.digest := link, digest;
      artifact, trialId, before, uploadAttempted, confirmAttempted := None, None, None, false, false;
    }

    ghost predicate Valid()
      reads this
    {
      && (artifact.Some? <==> uploadAttempted) && (before.Some? <==> uploadAttempted)
      && (artifact.Some? ==> SlotValid(artifact.value.slot))
      && (trialId.Some? ==> artifact.Some? && trialId.value <= UINT32_MAX)
    }

    /** Connect, retrieve and parse; anything wrong is silence. */
    method Read() returns (observed: Option<Observed>)
      modifies link`inbox
      ensures observed == Shown(old(link.inbox)) && link.inbox == Later(old(link.inbox))
      ensures forall records :: old(Honest(link.inbox, records)) ==> Honest(link.inbox, records)
      ensures observed.Some? ==> observed.value.trialId.Some? ==> observed.value.trialId.value <= UINT32_MAX
      ensures observed.Some? ==>
        forall records :: old(Honest(link.inbox, records)) ==> Reports(observed.value, records)
    {
      var body := link.Retrieve();
      if body.None? || ParseStatus(body.value).None? { return None; }
      TrialIdFits(body.value);
      forall records | old(Honest(link.inbox, records)) ensures Reports(Typed(ParseStatus(body.value).value), records) {
        GenuineReports(body.value, records);
      }
      return Some(Typed(ParseStatus(body.value).value));
    }

    /** upload(): admitted by a status, attempted once in the client's life, resolved later. */
    method Upload(packageA: seq<u8>, packageB: seq<u8>) returns (attempted: bool)
      requires Valid()
      modifies this, link
      ensures Valid() && trialId == old(trialId)
      ensures attempted <==> !old(uploadAttempted) && old(Offered(digest, Shown(link.inbox), packageA, packageB)).Some?
      ensures uploadAttempted == (old(uploadAttempted) || attempted)
      ensures !attempted ==> link.sent == old(link.sent) && artifact == old(artifact) && before == old(before)
      ensures attempted ==>
        && link.sent == old(link.sent) + [Firmware(artifact.value.body)]
        && artifact == old(Offered(digest, Shown(link.inbox), packageA, packageB)) && before == old(Shown(link.inbox))
      ensures attempted ==> forall records :: old(Honest(link.inbox, records)) ==> Reports(before.value, records)
    {
      attempted := false;
      if uploadAttempted { return; }
      var current := Read();
      var chosen := Offered(digest, current, packageA, packageB);
      if chosen.Some? {
        artifact, before, uploadAttempted := chosen, current, true;
        var arrived := link.Store(Firmware(chosen.value.body));
        attempted := true;
      }
    }

    /** classify(): the retained trial id is set once and then never changes. */
    method Classify(o: Observed) returns (finding: Finding)
      requires Valid() && artifact.Some? && (o.trialId.Some? ==> o.trialId.value <= UINT32_MAX)
      modifies this`trialId
      ensures Valid()
      ensures finding == Judged(artifact.value, before, old(trialId), o)
      ensures trialId == if finding in {CONFIRMED, TRIAL, UNHEALTHY} then o.trialId else old(trialId)
      ensures old(trialId).Some? ==> trialId == old(trialId)
    {
      var a := artifact.value;
      if o.running.None? || o.hash.None? || o.release.None? { return UNKNOWN; }
      if !About(o, a) {
        var b := before.value;
        if trialId.None? && o.running == b.running && o.hash == b.hash && o.confirmed == b.confirmed
           && b.release.Some? && o.release == b.release
           && ((o.candidate.None? && o.trialState == STATE_NONE && o.permitted == Some(a.slot))
               || (o.candidate == Some(a.slot) && o.trialState == STATE_READY && o.permitted.None?)) {
          return UNKNOWN;
        }
        return MISMATCH;
      }
      if o.trialId.None? { return UNKNOWN; }
      if trialId.Some? && o.trialId != trialId { return MISMATCH; }
      if !Fresh(before, o) { return UNKNOWN; }
      if ShowsConfirmed(o, a) {
        trialId := o.trialId;
        return CONFIRMED;
      }
      if o.candidate != Some(a.slot) || o.trialState != STATE_TRIAL || o.permitted.Some? { return UNKNOWN; }
      trialId := o.trialId;
      return if o.healthy then TRIAL else UNHEALTHY;
    }

    /** Some status delivered shows success, after the upload, under the retained id. */
    ghost predicate Concluded(records: set<Metadata>)
      reads this
    {
      && artifact.Some? && before.Some? && trialId.Some?
      && exists o :: Reports(o, records) && About(o, artifact.value) && Fresh(before, o) && ShowsConfirmed(o, artifact.value)
                     && o.trialId == trialId
    }

    /** poll(): bounded, and it sends nothing. */
    method Poll(attempts: nat) returns (finding: Finding)
      requires Valid() && artifact.Some? && attempts >= 1
      modifies this`trialId, link`inbox
      ensures Valid() && (old(trialId).Some? ==> trialId == old(trialId))
      ensures finding == CONFIRMED ==> forall records :: old(Honest(link.inbox, records)) ==> Concluded(records)
      ensures finding !in {TRIAL, CONFIRMED, MISMATCH} ==> Undecided(artifact.value, before, old(link.inbox), attempts)
    {
      finding := UNKNOWN;
      for index := 0 to attempts
        invariant Valid() && artifact.Some? && (old(trialId).Some? ==> trialId == old(trialId))
        invariant forall records :: old(Honest(link.inbox, records)) ==> Honest(link.inbox, records)
        invariant finding !in {TRIAL, CONFIRMED, MISMATCH}
        invariant Undecided(artifact.value, before, link.inbox, attempts - index) ==>
          Undecided(artifact.value, before, old(link.inbox), attempts)
      {
        finding := PollOnce();
        if finding in {TRIAL, CONFIRMED, MISMATCH} { return; }
      }
    }

    /** One read and its verdict; what cannot be read is unknown. */
    method PollOnce() returns (finding: Finding)
      requires Valid() && artifact.Some?
      modifies this`trialId, link`inbox
      ensures Valid() && (old(trialId).Some? ==> trialId == old(trialId)) && link.inbox == Later(old(link.inbox))
      ensures forall records :: old(Honest(link.inbox, records)) ==> Honest(link.inbox, records)
      ensures finding == CONFIRMED ==> forall records :: old(Honest(link.inbox, records)) ==> Concluded(records)
      ensures finding !in {TRIAL, CONFIRMED, MISMATCH} ==> Undecided(artifact.value, before, old(link.inbox), 1)
    {
      var observed := Read();
      if observed.None? { return UNKNOWN; }
      finding := Classify(observed.value);
    }

    /** confirm(): a fresh look first; only a healthy trial of this upload is confirmed, and only under its own id. */
    method Confirm() returns (finding: Finding)
      requires Valid() && artifact.Some?
      modifies this`trialId, this`confirmAttempted, link
      ensures Valid() && (old(trialId).Some? ==> trialId == old(trialId))
      ensures finding == CONFIRMED ==>
        link.sent == old(link.sent) && forall records :: old(Honest(link.inbox, records)) ==> Concluded(records)
      ensures link.sent == old(link.sent) || (trialId.Some? && confirmAttempted && link.sent == old(link.sent)
              + [Confirmation(Body(ConfirmRequest(artifact.value.slot, artifact.value.hash, trialId.value)))])
      ensures var shown := old(Shown(link.inbox));
        && (confirmAttempted <==> link.sent != old(link.sent))
        && (confirmAttempted <==> shown.Some? && Judged(artifact.value, before, old(trialId), shown.value) == TRIAL)
        && (!confirmAttempted ==>
              finding == if shown.None? then UNKNOWN else Judged(artifact.value, before, old(trialId), shown.value))
    {
      confirmAttempted := false;
      var observed := Read();
      if observed.None? { return UNKNOWN; }
      finding := Classify(observed.value);
      if finding != TRIAL { return; }
      var body := Body(ConfirmRequest(artifact.value.slot, artifact.value.hash, trialId.value));
      confirmAttempted := true;
      var arrived := link.Store(Confirmation(body));
      return UNKNOWN;
    }
  }

  lemma ConfirmedShowsId(s: Captured, a: Artifact)
    requires Renderable(s) && About(Reported(s), a) && ShowsConfirmed(Reported(s), a)
    ensures Reported(s).trialId == Some(s.metadata.record.Image(a.slot).trialId as nat)
  {
    ValidMeaning(s.metadata.record);
  }

  /** What a conclusion means for the device: a record of its run has this artifact as confirmed current, and it was accepted,
      under the retained id, after the record that admitted the upload. */
  lemma ConclusionIsSound(client: Client, run: seq<Metadata>, actions: seq<Action>, i: nat, records: set<Metadata>)
    returns (j: nat, k: nat)
    requires IsRun(run, actions) && i < |run| && client.Valid()
    requires records == set n | 0 <= n < |run| :: run[n]
    requires client.Concluded(records) && client.before.value.sequence == Some(run[i].sequence as nat)
    ensures j < |run| && i <= k < j && AcceptedAt(run, actions, k, client.artifact.value.slot, run[j].Image(client.artifact.value.slot))
    ensures run[j].current == client.artifact.value.slot && run[j].Confirmed(run[j].current)
    ensures run[j].Image(run[j].current).hash == client.artifact.value.hash
    ensures Some(run[j].Image(run[j].current).trialId as nat) == client.trialId
  {
    var a := client.artifact.value;
    var o :| Reports(o, records) && About(o, a) && Fresh(client.before, o) && ShowsConfirmed(o, a) && o.trialId == client.trialId;
    var s: Captured :| Renderable(s) && s.metadata.record in records && o == Reported(s);
    j :| 0 <= j < |run| && run[j] == s.metadata.record;
    ConfirmedShowsId(s, a);
    k := ConfirmedIsSound(run, actions, i, j, s, client.before.value, a);
  }

  // ---- resolving an identity that was confirmed before ----

  /** ConfirmedIdentity.classify: read only, for an artifact and an id given from outside. */
  function IdentityFinding(a: Artifact, trialId: u32, o: Observed): Finding {
    if o.running.None? || o.hash.None? || o.release.None? || o.trialId.None? || o.sequence.None? then UNKNOWN
    else if !About(o, a) || o.trialId.value != trialId then MISMATCH
    else if o.sequence.value < trialId then UNKNOWN
    else if ShowsConfirmed(o, a) then CONFIRMED
    else UNKNOWN
  }

  /** For a truthful status the verdict is exact: this artifact runs as the confirmed current image under this id, and no
      candidate waits. */
  lemma IdentityIsExact(s: Captured, a: Artifact, trialId: u32)
    requires Renderable(s)
    ensures IdentityFinding(a, trialId, Reported(s)) == CONFIRMED <==>
      var r, m := s.metadata.record, s.running.manifest;
      && m.slot == a.slot && m.hash == a.hash && m.release == a.release
      && r.current == a.slot && r.candidate == SLOT_NONE && r.Image(a.slot).trialId == trialId
  {
    ValidMeaning(s.metadata.record);
  }
}
