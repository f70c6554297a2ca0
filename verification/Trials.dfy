/** Runs of boots, uploads and confirmations: how often one accepted candidate can be started. */
module Trials {
  import opened Bytes
  import opened Format
  import opened Store
  import opened Lifecycle
  import opened Reset
  import opened Launch
  import opened Select
  import opened Runtime
  import opened History

  /** A boot, whatever it captured and published, or anything else that the application commits. */
  datatype Event =
    | Boot(captured: Option<u32>, decision: Option<LaunchDecision>)
    | Commit(action: Action)
    | Nothing

  ghost predicate Step(before: Snapshot, e: Event, after: Snapshot) {
    match e
    case Boot(captured, decision) => BootStep(Some(before), captured, Some(after), decision)
    case Commit(action) => after == before || Apply(before.record, action) == Change(after.record)
    case Nothing => after == before
  }

  /** Durable snapshots before and after each event, whatever faults the store met. */
  ghost predicate IsHistory(states: seq<Snapshot>, events: seq<Event>) {
    && |states| == |events| + 1 && Valid(states[0].record)
    && forall i :: 0 <= i < |events| ==> Step(states[i], events[i], states[i + 1])
  }

  /** The record's candidate was accepted under this id. */
  predicate IsCandidate(r: Metadata, id: u32) {
    SlotValid(r.candidate) && r.Image(r.candidate).trialId == id
  }

  /** The decision starts the candidate accepted under this id. */
  predicate Starts(d: LaunchDecision, id: u32) {
    var r := d.snapshot.record;
    && IsCandidate(r, id) && r.Image(r.candidate).accounting.state == STATE_TRIAL
  }

  predicate HasCause(r: Metadata, flags: u32) {
    Has(flags, RESET_WATCHDOG) || Has(flags, RESET_EXTERNAL) || Has(flags, RESET_BROWNOUT)
    || (Has(flags, RESET_SW) && IntentMatches(r))
  }

  /** A boot that captured a counted cause and still started the candidate. */
  predicate CountedStart(before: Snapshot, e: Event, id: u32) {
    e.Boot? && e.captured.Some? && HasCause(before.record, e.captured.value)
    && e.decision.Some? && Starts(e.decision.value, id)
  }

  /** Counted starts still possible from READY, and from TRIAL. */
  function ReadyLeft(r: Metadata, id: u32): nat {
    if r.sequence < id || (IsCandidate(r, id) && r.Image(r.candidate).accounting.state == STATE_READY) then 1 else 0
  }

  function TrialLeft(r: Metadata, id: u32): nat
    requires Valid(r)
  {
    if ReadyLeft(r, id) == 1 then 2
    else if IsCandidate(r, id) then (CandidateCount(r); 2 - r.Image(r.candidate).accounting.count)
    else 0
  }

  lemma CandidateCount(r: Metadata)
    requires Valid(r) && SlotValid(r.candidate)
    ensures r.Image(r.candidate).accounting.count <= 2 && r.Image(r.candidate).length != 0
    ensures r.Image(r.candidate).accounting.state in {STATE_READY, STATE_TRIAL}
    ensures r.Image(r.candidate).trialId <= r.sequence
  {
    ValidMeaning(r);
  }

  lemma ActionKeeps(r: Metadata, a: Action, id: u32)
    requires Valid(r) && Apply(r, a).Change?
    ensures var after := Apply(r, a).record;
      && Valid(after) && after.sequence == r.sequence + 1
      && ReadyLeft(after, id) <= ReadyLeft(r, id) && TrialLeft(after, id) <= TrialLeft(r, id)
  {
    ValidMeaning(r);
    StepKeeps(r, a);
    var after := Apply(r, a).record;
    if SlotValid(r.candidate) { CandidateCount(r); }
    if SlotValid(after.candidate) { CandidateCount(after); }
    match a
    case DoInvalidate(e) => InvalidateCloses(r, e);
    case DoAccept(e, stored) => AcceptReadyCloses(r, e, stored);
    case DoBeginTrial(image) => BeginTrialCloses(r, image);
    case DoConfirm(request, running, health) => ConfirmCloses(r, request, running, health);
    case DoFailure(f) => CountedFailureCloses(r, f);
    case DoPromote(invalid, previous) => PromotePreviousCloses(r, invalid, previous);
    case DoDeadline(request, running) => DeadlineIntentCloses(r, request, running);
  }

  /** What selection commits is one of two actions, if anything. */
  lemma SelectionKeeps(mid: Snapshot, after: Snapshot, id: u32)
    requires Valid(mid.record) && SelectStep(Some(mid), Some(after))
    ensures Valid(after.record) && after.record.sequence >= mid.record.sequence
    ensures ReadyLeft(after.record, id) <= ReadyLeft(mid.record, id)
    ensures TrialLeft(after.record, id) <= TrialLeft(mid.record, id)
    ensures IsCandidate(after.record, id) ==> IsCandidate(mid.record, id)
    ensures IsCandidate(after.record, id) && after.record.Image(after.record.candidate).accounting.state == STATE_TRIAL ==>
      mid.record.sequence >= id && ReadyLeft(after.record, id) == 0
  {
    var r := mid.record;
    if SlotValid(after.record.candidate) && after == mid { CandidateCount(r); }
    if after != mid {
      if image :| BeginTrial(r, image) == Change(after.record) {
        ActionKeeps(r, DoBeginTrial(image), id);
        BeginTrialCloses(r, image);
        CandidateCount(r);
      } else {
        var invalid, previous :| PromotePrevious(r, invalid, previous) == Change(after.record);
        ActionKeeps(r, DoPromote(invalid, previous), id);
        PromotePreviousCloses(r, invalid, previous);
      }
    }
  }

  lemma AccountingKeeps(before: Metadata, captured: u32, mid: Metadata, id: u32)
    requires Valid(before) && Accounted(before, captured, mid)
    ensures Valid(mid) && mid.sequence >= before.sequence
    ensures ReadyLeft(mid, id) <= ReadyLeft(before, id) && TrialLeft(mid, id) <= TrialLeft(before, id)
    ensures IsCandidate(mid, id) ==> IsCandidate(before, id)
    ensures IsCandidate(mid, id) && HasCause(before, captured) && before.Image(before.candidate).accounting.state == STATE_TRIAL ==>
      TrialLeft(mid, id) + 1 <= TrialLeft(before, id)
  {
    ProposeCounts(before, captured);
    ValidMeaning(before);
    if Counted(before, captured) {
      var f := CountedFailure(CandidateIdentity(before), Propose(before, captured).decision.reason,
                              if before.intentKind == INTENT_DEADLINE then 1 else 0);
      ActionKeeps(before, DoFailure(f), id);
      CountedFailureCloses(before, f);
    }
    if SlotValid(before.candidate) { CandidateCount(before); }
  }

  lemma EventKeeps(before: Snapshot, e: Event, after: Snapshot, id: u32)
    requires Valid(before.record) && Step(before, e, after)
    ensures Valid(after.record) && after.record.sequence >= before.record.sequence
    ensures ReadyLeft(after.record, id) <= ReadyLeft(before.record, id)
    ensures TrialLeft(after.record, id) <= TrialLeft(before.record, id)
    ensures CountedStart(before, e, id) ==>
      if before.record.Image(before.record.candidate).accounting.state == STATE_READY
      then ReadyLeft(after.record, id) + 1 <= ReadyLeft(before.record, id)
      else TrialLeft(after.record, id) + 1 <= TrialLeft(before.record, id)
  {
    match e
    case Nothing =>
    case Commit(action) =>
      if after != before { ActionKeeps(before.record, action, id); }
    case Boot(captured, decision) =>
      var mid: Option<Snapshot> :|
        && mid.Some? && SelectStep(mid, Some(after))
        && (mid == Some(before) || (captured.Some? && Counted(before.record, captured.value)
                                    && Accounted(before.record, captured.value, mid.value.record)))
        && (decision.Some? ==>
              && captured.Some? && Accounted(before.record, captured.value, mid.value.record)
              && Some(after) == Some(decision.value.snapshot));
      if captured.Some? && Accounted(before.record, captured.value, mid.value.record) {
        AccountingKeeps(before.record, captured.value, mid.value.record, id);
      }
      SelectionKeeps(mid.value, after, id);
      if CountedStart(before, e, id) { CandidateCount(before.record); }
  }

  /** 1 for a counted start from READY, or from TRIAL. */
  function StartAt(before: Snapshot, e: Event, id: u32, ready: bool): nat {
    var r := before.record;
    if CountedStart(before, e, id) && (r.Image(r.candidate).accounting.state == STATE_READY) == ready then 1 else 0
  }

  function StartsFrom(states: seq<Snapshot>, events: seq<Event>, id: u32, ready: bool, n: nat): nat
    requires |states| == |events| + 1 && n <= |events|
  {
    if n == 0 then 0
    else StartsFrom(states, events, id, ready, n - 1) + StartAt(states[n - 1], events[n - 1], id, ready)
  }

  lemma StartIsPaidFor(before: Snapshot, e: Event, after: Snapshot, id: u32)
    requires Valid(before.record) && Step(before, e, after)
    ensures Valid(after.record)
    ensures StartAt(before, e, id, true) + ReadyLeft(after.record, id) <= ReadyLeft(before.record, id)
    ensures StartAt(before, e, id, false) + TrialLeft(after.record, id) <= TrialLeft(before.record, id)
  {
    EventKeeps(before, e, after, id);
  }

  lemma {:induction false} StartsArePaidFor(states: seq<Snapshot>, events: seq<Event>, id: u32, n: nat)
    requires IsHistory(states, events) && n <= |events|
    ensures Valid(states[n].record)
    ensures StartsFrom(states, events, id, true, n) + ReadyLeft(states[n].record, id) <= 1
    ensures StartsFrom(states, events, id, false, n) + TrialLeft(states[n].record, id) <= 2
  {
    if n != 0 {
      StartsArePaidFor(states, events, id, n - 1);
      assert Step(states[n - 1], events[n - 1], states[n - 1 + 1]);
      StartIsPaidFor(states[n - 1], events[n - 1], states[n], id);
    }
  }

  /** At most three boots with a counted cause start one accepted candidate: one from READY, two from TRIAL. */
  lemma BoundedTrial(states: seq<Snapshot>, events: seq<Event>, id: u32)
    requires IsHistory(states, events)
    ensures StartsFrom(states, events, id, true, |events|) <= 1
    ensures StartsFrom(states, events, id, false, |events|) <= 2
  {
    StartsArePaidFor(states, events, id, |events|);
  }

  /** No acceptance of the id is still to come, and its candidate is gone. */
  predicate Over(r: Metadata, id: u32) { r.sequence >= id && !IsCandidate(r, id) }

  lemma OverStays(before: Snapshot, e: Event, after: Snapshot, id: u32)
    requires Valid(before.record) && Step(before, e, after) && Over(before.record, id)
    ensures Valid(after.record) && Over(after.record, id)
    ensures e.Boot? && e.decision.Some? ==> !Starts(e.decision.value, id)
  {
    EventKeeps(before, e, after, id);
    match e
    case Nothing =>
    case Commit(action) =>
      if after != before {
        ActionKeeps(before.record, action, id);
        NoCandidateAppears(before.record, action, id);
      }
    case Boot(captured, decision) =>
      var mid: Option<Snapshot> :|
        && mid.Some? && SelectStep(mid, Some(after))
        && (mid == Some(before) || (captured.Some? && Counted(before.record, captured.value)
                                    && Accounted(before.record, captured.value, mid.value.record)))
        && (decision.Some? ==>
              && captured.Some? && Accounted(before.record, captured.value, mid.value.record)
              && Some(after) == Some(decision.value.snapshot));
      if mid != Some(before) { AccountingKeeps(before.record, captured.value, mid.value.record, id); }
      SelectionKeeps(mid.value, after, id);
  }

  lemma NoCandidateAppears(r: Metadata, a: Action, id: u32)
    requires Valid(r) && Apply(r, a).Change? && Over(r, id)
    ensures Over(Apply(r, a).record, id)
  {
    match a
    case DoInvalidate(e) => InvalidateCloses(r, e);
    case DoAccept(e, stored) => AcceptReadyCloses(r, e, stored);
    case DoBeginTrial(image) => BeginTrialCloses(r, image);
    case DoConfirm(request, running, health) => ConfirmCloses(r, request, running, health);
    case DoFailure(f) => CountedFailureCloses(r, f);
    case DoPromote(invalid, previous) => PromotePreviousCloses(r, invalid, previous);
    case DoDeadline(request, running) => DeadlineIntentCloses(r, request, running);
  }

  /** The candidate's id is its own. */
  predicate OwnId(r: Metadata) {
    SlotValid(r.candidate) ==> r.Image(r.candidate).trialId != r.Image(Other(r.candidate)).trialId
  }

  lemma OwnIdKept(r: Metadata, a: Action)
    requires Valid(r) && Apply(r, a).Change? && OwnId(r)
    ensures OwnId(Apply(r, a).record)
  {
    ValidMeaning(r);
    match a
    case DoInvalidate(e) => InvalidateCloses(r, e);
    case DoAccept(e, stored) => AcceptReadyCloses(r, e, stored);
    case DoBeginTrial(image) => BeginTrialCloses(r, image);
    case DoConfirm(request, running, health) => ConfirmCloses(r, request, running, health);
    case DoFailure(f) => CountedFailureCloses(r, f);
    case DoPromote(invalid, previous) => PromotePreviousCloses(r, invalid, previous);
    case DoDeadline(request, running) => DeadlineIntentCloses(r, request, running);
  }

  lemma OwnIdStep(before: Snapshot, e: Event, after: Snapshot)
    requires Valid(before.record) && Step(before, e, after) && OwnId(before.record)
    ensures OwnId(after.record)
  {
    match e
    case Nothing =>
    case Commit(action) => if after != before { OwnIdKept(before.record, action); }
    case Boot(captured, decision) =>
      var mid, counting, selecting := BootCommits(before, captured, after, decision);
      if counting.Some? {
        OwnIdKept(before.record, counting.value);
        StepKeeps(before.record, counting.value);
      }
      if selecting.Some? { OwnIdKept(mid.record, selecting.value); }
  }

  /** A boot commits at most two actions: the count, then the trial or the promotion. */
  lemma BootCommits(before: Snapshot, captured: Option<u32>, after: Snapshot, decision: Option<LaunchDecision>)
    returns (mid: Snapshot, counting: Option<Action>, selecting: Option<Action>)
    requires Valid(before.record) && BootStep(Some(before), captured, Some(after), decision)
    ensures if counting.None? then mid == before else Apply(before.record, counting.value) == Change(mid.record)
    ensures if selecting.None? then after == mid else Apply(mid.record, selecting.value) == Change(after.record)
  {
    counting, selecting := None, None;
    var m: Option<Snapshot> :|
      && m.Some? && SelectStep(m, Some(after))
      && (m == Some(before) || (captured.Some? && Counted(before.record, captured.value)
                                && Accounted(before.record, captured.value, m.value.record)));
    mid := m.value;
    if m != Some(before) {
      var a := CountingAction(before.record, captured.value, mid.record);
      counting := Some(a);
    }
    if mid != after {
      var a := SelectingAction(mid, after);
      selecting := Some(a);
    }
  }

  lemma CountingAction(r: Metadata, captured: u32, mid: Metadata) returns (a: Action)
    requires Valid(r) && Counted(r, captured) && Accounted(r, captured, mid)
    ensures Apply(r, a) == Change(mid)
  {
    ProposeCounts(r, captured);
    a := DoFailure(CountedFailure(CandidateIdentity(r), Propose(r, captured).decision.reason,
                                  if r.intentKind == INTENT_DEADLINE then 1 else 0));
  }

  lemma SelectingAction(mid: Snapshot, after: Snapshot) returns (a: Action)
    requires SelectStep(Some(mid), Some(after)) && after != mid
    ensures Apply(mid.record, a) == Change(after.record)
  {
    if image :| BeginTrial(mid.record, image) == Change(after.record) {
      a := DoBeginTrial(image);
    } else {
      var invalid, previous :| PromotePrevious(mid.record, invalid, previous) == Change(after.record);
      a := DoPromote(invalid, previous);
    }
  }

  lemma {:induction false} OwnIdAlways(states: seq<Snapshot>, events: seq<Event>, n: nat)
    requires IsHistory(states, events) && n <= |events| && OwnId(states[0].record)
    ensures OwnId(states[n].record)
  {
    if n != 0 {
      OwnIdAlways(states, events, n - 1);
      StartsArePaidFor(states, events, 0, n - 1);
      assert Step(states[n - 1], events[n - 1], states[n - 1 + 1]);
      OwnIdStep(states[n - 1], events[n - 1], states[n]);
    }
  }

  /** The third recorded failure rejects the candidate, and no later boot starts that acceptance again. */
  lemma RejectedNeverStarts(states: seq<Snapshot>, events: seq<Event>, slot: u32, i: nat, j: nat)
    requires IsHistory(states, events) && i <= j < |events| && SlotValid(slot) && OwnId(states[0].record)
    requires states[i].record.Image(slot).accounting.count == 3
    ensures states[i].record.Image(slot).accounting.state == STATE_REJECTED
    ensures events[j].Boot? && events[j].decision.Some? ==>
      !Starts(events[j].decision.value, states[i].record.Image(slot).trialId)
  {
    var id := states[i].record.Image(slot).trialId;
    StartsArePaidFor(states, events, id, i);
    OwnIdAlways(states, events, i);
    ValidMeaning(states[i].record);
    StaysOver(states, events, id, i, j);
    StartsArePaidFor(states, events, id, j);
    assert Step(states[j], events[j], states[j + 1]);
    OverStays(states[j], events[j], states[j + 1], id);
  }

  lemma {:induction false} StaysOver(states: seq<Snapshot>, events: seq<Event>, id: u32, i: nat, j: nat)
    requires IsHistory(states, events) && i <= j < |states| && Over(states[i].record, id)
    ensures Over(states[j].record, id)
  {
    if i < j {
      StaysOver(states, events, id, i, j - 1);
      StartsArePaidFor(states, events, id, j - 1);
      assert Step(states[j - 1], events[j - 1], states[j - 1 + 1]);
      OverStays(states[j - 1], events[j - 1], states[j], id);
    }
  }
}
