/** Classification of a captured reset and the single proposal that counts it. */
module Reset {
  import opened Bytes
  import opened Format
  import opened Lifecycle

  const RESET_SW: u32 := 0x10
  const RESET_WATCHDOG: u32 := 0x08
  const RESET_BROWNOUT: u32 := 0x04
  const RESET_POR: u32 := 0x02
  const RESET_EXTERNAL: u32 := 0x01

  datatype Decision = Decision(supported: u32, applicable: bool, counted: bool, reason: Bits3, consumeIntent: bool)

  datatype Proposal = Proposal(result: Result, decision: Decision) | Rejected(why: Refusal)

  predicate Has(flags: u32, bit: u32)
    requires bit > 0
  {
    (flags / bit) % 2 == 1
  }

  predicate TrialApplies(r: Metadata) {
    SlotValid(r.candidate) && !r.Confirmed(r.candidate) && r.Image(r.candidate).accounting.state == STATE_TRIAL
  }

  predicate IntentMatches(r: Metadata) {
    r.intentKind == INTENT_DEADLINE && r.intentSlot == r.candidate && r.intentTrialId == r.Image(r.candidate).trialId
  }

  /** The categories of a capture, in the order they are examined. */
  function Categories(r: Metadata, flags: u32): seq<Bits3> {
    (if Has(flags, RESET_WATCHDOG) then [REASON_WATCHDOG] else [])
    + (if Has(flags, RESET_EXTERNAL) then [REASON_EXTERNAL] else [])
    + (if Has(flags, RESET_BROWNOUT) then [REASON_BROWNOUT] else [])
    + (if Has(flags, RESET_SW) && IntentMatches(r) then [REASON_DEADLINE] else [])
  }

  function CandidateIdentity(r: Metadata): Resident {
    var e := r.Image(r.candidate);
    Resident(r.candidate, e.hash, e.release, e.length, e.trialId)
  }

  /** The proposal for a capture. */
  function Propose(r: Metadata, flags: u32): Proposal {
    if !Valid(r) then Rejected(RECORD)
    else
      var supported := flags % 0x20;
      if !TrialApplies(r) then Proposal(NoChange(r), Decision(supported, false, false, 0, false))
      else
        var categories := Categories(r, supported);
        if categories == [] then Proposal(NoChange(r), Decision(supported, true, false, 0, false))
        else
          var reason := if |categories| > 1 then REASON_COMBINED else categories[0];
          var consume := IntentMatches(r);
          match ApplyCountedFailure(r, CountedFailure(CandidateIdentity(r), reason, if consume then 1 else 0))
          case Change(after) => Proposal(Change(after), Decision(supported, true, true, reason, consume))
          case NoChange(_) => Rejected(RECORD)
          case Refused(why) => Rejected(why)
  }

  /** A capture that counts: a trial is running and one of its causes, or its own deadline, is among the flags. */
  predicate Counted(r: Metadata, flags: u32) {
    && TrialApplies(r)
    && (Has(flags, RESET_WATCHDOG) || Has(flags, RESET_EXTERNAL) || Has(flags, RESET_BROWNOUT)
        || (Has(flags, RESET_SW) && IntentMatches(r)))
  }

  lemma LowFlag16(low: int, high: int)
    requires 0 <= low < 0x20
    ensures (low + 0x20 * high) / 0x10 == low / 0x10 + 2 * high
  {}

  lemma LowFlag8(low: int, high: int)
    requires 0 <= low < 0x20
    ensures (low + 0x20 * high) / 8 == low / 8 + 2 * (2 * high)
  {}

  lemma LowFlag4(low: int, high: int)
    requires 0 <= low < 0x20
    ensures (low + 0x20 * high) / 4 == low / 4 + 2 * (4 * high)
  {}

  lemma Parity(n: int, k: int)
    ensures (n + 2 * k) % 2 == n % 2
  {}

  lemma LowFlags(flags: u32)
    ensures forall bit {:trigger Has(flags, bit)} ::
      bit in {RESET_SW, RESET_WATCHDOG, RESET_BROWNOUT, RESET_EXTERNAL} ==> Has(flags % 0x20, bit) == Has(flags, bit)
  {
    var low: int, high: int := flags % 0x20, flags / 0x20;
    LowFlag16(low, high);
    LowFlag8(low, high);
    LowFlag4(low, high);
    Parity(low / 0x10, high);
    Parity(low / 8, 2 * high);
    Parity(low / 4, 4 * high);
    Parity(low, 16 * high);
  }

  /** Exactly one failure is recorded for a counted capture, none otherwise; a pending deadline is used up by it. */
  lemma ProposeCounts(r: Metadata, flags: u32)
    requires Valid(r)
    ensures Counted(r, flags) && r.sequence < UINT32_MAX ==>
      var p := Propose(r, flags);
      && p.Proposal? && p.result.Change? && p.decision.counted && REASON_WATCHDOG <= p.decision.reason <= REASON_COMBINED
      && p.result == ApplyCountedFailure(r, CountedFailure(CandidateIdentity(r), p.decision.reason,
                                                           if r.intentKind == INTENT_DEADLINE then 1 else 0))
      && p.result.record.intentKind == INTENT_NONE
    ensures Counted(r, flags) && r.sequence == UINT32_MAX ==> Propose(r, flags) == Rejected(EXHAUSTED_REFUSED)
    ensures !Counted(r, flags) ==>
      Propose(r, flags).Proposal? && Propose(r, flags).result == NoChange(r) && !Propose(r, flags).decision.counted
  {
    ValidMeaning(r);
    LowFlags(flags);
    var categories := Categories(r, flags % 0x20);
    if TrialApplies(r) {
      assert IntentMatches(r) <==> r.intentKind == INTENT_DEADLINE;
      assert categories != [] <==> Counted(r, flags);
      if categories != [] {
        assert forall c :: c in categories ==> REASON_WATCHDOG <= c <= REASON_DEADLINE;
        var reason := if |categories| > 1 then REASON_COMBINED else categories[0];
        CountedFailureCloses(r, CountedFailure(CandidateIdentity(r), reason, if IntentMatches(r) then 1 else 0));
      }
    }
  }

  /** A cause among the flags of a capture; the software flag stands for the deadline, and only with its own intent. */
  predicate Present(r: Metadata, flags: u32, reason: Bits3) {
    || (reason == REASON_WATCHDOG && Has(flags, RESET_WATCHDOG))
    || (reason == REASON_EXTERNAL && Has(flags, RESET_EXTERNAL))
    || (reason == REASON_BROWNOUT && Has(flags, RESET_BROWNOUT))
    || (reason == REASON_DEADLINE && Has(flags, RESET_SW) && IntentMatches(r))
  }

  /** A single cause is recorded as itself, several as combined. */
  lemma ReasonMeans(r: Metadata, flags: u32)
    requires Valid(r) && Propose(r, flags).Proposal? && Propose(r, flags).decision.counted
    ensures var reason := Propose(r, flags).decision.reason;
      if reason == REASON_COMBINED then exists c: Bits3, d: Bits3 :: c != d && Present(r, flags, c) && Present(r, flags, d)
      else Present(r, flags, reason) && forall c: Bits3 :: Present(r, flags, c) ==> c == reason
  {
    LowFlags(flags);
    forall c: Bits3 ensures Present(r, flags, c) <==> c in Categories(r, flags % 0x20) {}
    var found := Categories(r, flags % 0x20);
    if |found| > 1 { assert Present(r, flags, found[0]) && Present(r, flags, found[1]) && found[0] != found[1]; }
  }

  /** boot_reset_propose: the last category seen is the reason unless there were several. */
  method ProposeReset(r: Metadata, flags: u32) returns (proposal: Proposal)
    ensures proposal == Propose(r, flags)
  {
    if !Valid(r) { return Rejected(RECORD); }
    var supported := flags % 0x20;
    if !TrialApplies(r) { return Proposal(NoChange(r), Decision(supported, false, false, 0, false)); }
    var matching := IntentMatches(r);
    var categories, reason: Bits3 := 0, 0;
    if Has(supported, RESET_WATCHDOG) { categories, reason := categories + 1, REASON_WATCHDOG; }
    if Has(supported, RESET_EXTERNAL) { categories, reason := categories + 1, REASON_EXTERNAL; }
    if Has(supported, RESET_BROWNOUT) { categories, reason := categories + 1, REASON_BROWNOUT; }
    if Has(supported, RESET_SW) && matching { categories, reason := categories + 1, REASON_DEADLINE; }
    if categories == 0 { return Proposal(NoChange(r), Decision(supported, true, false, 0, false)); }
    if categories > 1 { reason := REASON_COMBINED; }
    match ApplyCountedFailure(r, CountedFailure(CandidateIdentity(r), reason, if matching then 1 else 0)) {
      case Change(after) => return Proposal(Change(after), Decision(supported, true, true, reason, matching));
      case NoChange(_) => return Rejected(RECORD);
      case Refused(why) => return Rejected(why);
    }
  }
}
