/** What every run of committed transitions keeps: a confirmed current image, fresh trial ids, growing histories. */
module History {
  import opened Bytes
  import opened Format
  import opened Lifecycle
  import opened Reset

  datatype Action =
    | DoInvalidate(evidence: UploadEvidence)
    | DoAccept(evidence: UploadEvidence, stored: VerifiedImage)
    | DoBeginTrial(image: VerifiedImage)
    | DoConfirm(request: ConfirmRequest, running: VerifiedImage, health: u32)
    | DoFailure(failure: CountedFailure)
    | DoPromote(invalid: InvalidCurrent, previous: VerifiedImage)
    | DoDeadline(deadline: DeadlineRequest, running: VerifiedImage)

  function Apply(r: Metadata, a: Action): Result {
    match a
    case DoInvalidate(e) => Invalidate(r, e)
    case DoAccept(e, stored) => AcceptReady(r, e, stored)
    case DoBeginTrial(image) => BeginTrial(r, image)
    case DoConfirm(request, running, health) => Confirm(r, request, running, health)
    case DoFailure(f) => ApplyCountedFailure(r, f)
    case DoPromote(invalid, previous) => PromotePrevious(r, invalid, previous)
    case DoDeadline(request, running) => DeadlineIntent(r, request, running)
  }

  predicate HasCurrent(r: Metadata) { SlotValid(r.current) && r.Confirmed(r.current) }

  /** The history of a is a prefix of the history of b. */
  predicate Extends(a: Accounting, b: Accounting) {
    a.count <= b.count && forall i :: 0 <= i < a.count ==> a.Reason(i) == b.Reason(i)
  }

  predicate SameLife(e: Entry, f: Entry) {
    && e.length != 0 && f.length == e.length && f.hash == e.hash && f.release == e.release && f.trialId == e.trialId
    && Extends(e.accounting, f.accounting)
  }

  /** What one committed transition can do to a slot: leave it, carry its life on, end it, or begin a new one. */
  predicate SlotStep(r: Metadata, after: Metadata, slot: u32) {
    var e, f := r.Image(slot), after.Image(slot);
    || e == f
    || SameLife(e, f)
    || f == EMPTY_ENTRY
    || (e == EMPTY_ENTRY && f.accounting == READY_ACCOUNT && f.trialId == after.sequence && after.candidate == slot)
  }

  lemma StepKeeps(r: Metadata, a: Action)
    requires Valid(r) && Apply(r, a).Change?
    ensures var after := Apply(r, a).record;
      && Valid(after) && after.sequence == r.sequence + 1
      && (HasCurrent(r) ==> HasCurrent(after))
      && SlotStep(r, after, SLOT_A) && SlotStep(r, after, SLOT_B)
  {
    ValidMeaning(r);
    match a
    case DoInvalidate(e) => InvalidateCloses(r, e);
    case DoAccept(e, stored) => AcceptReadyCloses(r, e, stored);
    case DoBeginTrial(image) => BeginTrialCloses(r, image);
    case DoConfirm(request, running, health) => ConfirmCloses(r, request, running, health);
    case DoFailure(f) => CountedFailureCloses(r, f);
    case DoPromote(invalid, previous) => PromotePreviousCloses(r, invalid, previous);
    case DoDeadline(request, running) => DeadlineIntentCloses(r, request, running);
  }

  /** Successive durable records, each the committed result of the action beside it. */
  predicate Follows(run: seq<Metadata>, actions: seq<Action>) {
    && |run| == |actions| + 1 && Valid(run[0])
    && forall i {:trigger actions[i]} :: 0 <= i < |actions| ==> Apply(run[i], actions[i]) == Change(run[i + 1])
  }

  /** The same, behind a descent that the verifier does not follow (see RunOpen). */
  predicate IsRun(run: seq<Metadata>, actions: seq<Action>) { FollowsBehind(run, actions, 2 + |run|) == Yes }

  function FollowsBehind(run: seq<Metadata>, actions: seq<Action>, depth: nat): (v: Verdict)
    ensures v == Yes ==> |run| == |actions| + 1
  {
    if depth != 0 then FollowsBehind(run, actions, depth - 1) else if Follows(run, actions) then Yes else No
  }

  lemma {:induction false} RunOpen(run: seq<Metadata>, actions: seq<Action>, depth: nat)
    ensures FollowsBehind(run, actions, depth) == Yes <==> Follows(run, actions)
  {
    if depth != 0 { RunOpen(run, actions, depth - 1); }
  }

  lemma RunStep(run: seq<Metadata>, actions: seq<Action>, n: nat)
    requires IsRun(run, actions)
    ensures Valid(run[0]) && (n < |actions| ==> Apply(run[n], actions[n]) == Change(run[n + 1]))
  {
    RunOpen(run, actions, 2 + |run|);
    if n < |actions| { assert actions[n] == actions[n]; }
  }

  /** What one step of a run keeps. */
  lemma RunStepKeeps(run: seq<Metadata>, actions: seq<Action>, n: nat)
    requires IsRun(run, actions) && n < |actions| && Valid(run[n])
    ensures Valid(run[n + 1]) && run[n + 1].sequence == run[n].sequence + 1
    ensures HasCurrent(run[n]) ==> HasCurrent(run[n + 1])
    ensures SlotStep(run[n], run[n + 1], SLOT_A) && SlotStep(run[n], run[n + 1], SLOT_B)
  {
    RunStep(run, actions, n);
    StepKeeps(run[n], actions[n]);
  }

  lemma {:induction false} RunKeeps(run: seq<Metadata>, actions: seq<Action>, n: nat)
    requires IsRun(run, actions) && n < |run|
    ensures Valid(run[n]) && run[n].sequence == run[0].sequence + n
    ensures HasCurrent(run[0]) ==> HasCurrent(run[n])
  {
    if n == 0 {
      RunStep(run, actions, 0);
    } else {
      RunKeeps(run, actions, n - 1);
      RunStepKeeps(run, actions, n - 1);
    }
  }

  /** Trial ids given out by acceptance strictly increase, and each is above every id retained before it. */
  lemma AcceptedIdsIncrease(run: seq<Metadata>, actions: seq<Action>, i: nat, j: nat)
    requires IsRun(run, actions) && i < j < |actions| && actions[i].DoAccept? && actions[j].DoAccept?
    ensures var first, second := run[i + 1].Image(run[i + 1].candidate), run[j + 1].Image(run[j + 1].candidate);
      && first.trialId < second.trialId == run[j + 1].sequence
      && run[j].imageA.trialId < second.trialId && run[j].imageB.trialId < second.trialId
  {
    RunKeeps(run, actions, i);
    RunKeeps(run, actions, j);
    RunStep(run, actions, i);
    RunStep(run, actions, j);
    AcceptReadyCloses(run[i], actions[i].evidence, actions[i].stored);
    AcceptReadyCloses(run[j], actions[j].evidence, actions[j].stored);
    ValidMeaning(run[j]);
  }

  /** While a slot is never emptied, its failure count never drops and its recorded reasons never change. */
  lemma {:induction false} HistoriesGrow(run: seq<Metadata>, actions: seq<Action>, slot: u32, i: nat, j: nat)
    requires IsRun(run, actions) && i <= j < |run| && SlotValid(slot) && run[i].Image(slot).length != 0
    requires forall k :: i <= k <= j ==> run[k].Image(slot).length != 0
    ensures SameLife(run[i].Image(slot), run[j].Image(slot))
  {
    if i < j {
      HistoriesGrow(run, actions, slot, i, j - 1);
      RunKeeps(run, actions, j - 1);
      var e, f, g := run[i].Image(slot), run[j - 1].Image(slot), run[j].Image(slot);
      RunStepKeeps(run, actions, j - 1);
      assert f.length != 0 && g.length != 0;
      LivesOn(e, f, g);
    }
  }

  lemma LivesOn(e: Entry, f: Entry, g: Entry)
    requires SameLife(e, f) && f.length != 0 && (g == f || SameLife(f, g))
    ensures SameLife(e, g)
  {
    assert forall i :: 0 <= i < e.accounting.count ==> e.accounting.Reason(i) == f.accounting.Reason(i);
  }

  // ---- deadline intents ----

  /** A counted reset that was due to the deadline intent. */
  predicate UsesIntent(r: Metadata, a: Action) {
    r.intentKind == INTENT_DEADLINE && a.DoFailure? && a.failure.consumeIntent == 1
  }

  function Uses(run: seq<Metadata>, actions: seq<Action>, n: nat): nat
    requires |run| == |actions| + 1 && n <= |actions|
  {
    if n == 0 then 0
    else Uses(run, actions, n - 1) + if UsesIntent(run[n - 1], actions[n - 1]) then 1 else 0
  }

  function Installs(actions: seq<Action>, n: nat): nat
    requires n <= |actions|
  {
    if n == 0 then 0 else Installs(actions, n - 1) + if actions[n - 1].DoDeadline? then 1 else 0
  }

  /** Each installed intent is used at most once, a pending one not yet. */
  lemma {:induction false} IntentUsedOnce(run: seq<Metadata>, actions: seq<Action>, n: nat)
    requires IsRun(run, actions) && n <= |actions| && run[0].intentKind == INTENT_NONE
    ensures Uses(run, actions, n) + (if run[n].intentKind == INTENT_DEADLINE then 1 else 0) <= Installs(actions, n)
  {
    if n != 0 {
      IntentUsedOnce(run, actions, n - 1);
      IntentAt(run, actions, n - 1);
    }
  }

  lemma IntentAt(run: seq<Metadata>, actions: seq<Action>, n: nat)
    requires IsRun(run, actions) && n < |actions|
    ensures (if UsesIntent(run[n], actions[n]) then 1 else 0) + (if run[n + 1].intentKind == INTENT_DEADLINE then 1 else 0)
            <= (if run[n].intentKind == INTENT_DEADLINE then 1 else 0) + (if actions[n].DoDeadline? then 1 else 0)
  {
    RunKeeps(run, actions, n);
    RunStep(run, actions, n);
    IntentPaid(run[n], actions[n]);
  }

  lemma IntentPaid(r: Metadata, a: Action)
    requires Valid(r) && Apply(r, a).Change?
    ensures var after := Apply(r, a).record;
      (if UsesIntent(r, a) then 1 else 0) + (if after.intentKind == INTENT_DEADLINE then 1 else 0)
      <= (if r.intentKind == INTENT_DEADLINE then 1 else 0) + (if a.DoDeadline? then 1 else 0)
  {
    IntentStep(r, a);
  }

  lemma IntentStep(r: Metadata, a: Action)
    requires Valid(r) && Apply(r, a).Change?
    ensures var after := Apply(r, a).record;
      && (a.DoDeadline? ==> r.intentKind == INTENT_NONE)
      && (UsesIntent(r, a) ==> after.intentKind == INTENT_NONE)
      && (!a.DoDeadline? && after.intentKind == INTENT_DEADLINE ==> r.intentKind == INTENT_DEADLINE)
  {
    ValidMeaning(r);
    match a
    case DoInvalidate(e) => InvalidateCloses(r, e);
    case DoAccept(e, stored) => AcceptReadyCloses(r, e, stored);
    case DoBeginTrial(image) => BeginTrialCloses(r, image);
    case DoConfirm(request, running, health) => ConfirmCloses(r, request, running, health);
    case DoFailure(f) => CountedFailureCloses(r, f);
    case DoPromote(invalid, previous) => PromotePreviousCloses(r, invalid, previous);
    case DoDeadline(request, running) => DeadlineIntentCloses(r, request, running);
  }
}
