/** The evidence-gated watchdog: who may feed it, when, and how often. */
module Watchdog {
  import opened Bytes
  import opened Format

  const LOAD: u32 := 0x4000_0000
  const CTL: u32 := 0x4000_0008
  const ICR: u32 := 0x4000_000c
  const RIS: u32 := 0x4000_0010
  const LOCK: u32 := 0x4000_0c00
  const RCGC0: u32 := 0x400f_e100
  const UNLOCK: u32 := 0x1acc_e551
  const CHUNK_BYTES: u32 := 256

  datatype WatchdogStatus = WD_OK | WD_ARGUMENT | WD_BLOCKED | WD_STATE | WD_PROGRESS | WD_IO | WD_VERIFY
  datatype Owner = BOOT | APPLICATION
  datatype Phase = MANIFEST_BEGIN | MANIFEST_AUTHENTICATED | PAYLOAD_PROGRESS
  datatype Predicate = ETHERNET | TIMERS | FTP

  /** Bits 0 and 1 of the control word. */
  predicate Enabled(control: u32) { control % 4 == 3 }

  /** Bit 3 of the clock gate. */
  predicate Clocked(gate: u32) { (gate / 8) % 2 == 1 }

  /** The controller's registers; when not truthful, any access may fail, lie or have no effect. */
  class Registers {
    const truthful: bool
    var gate: u32
    var control: u32
    var load: u32
    var locked: bool
    var raised: bool
    /** Interrupt-clear writes issued, whatever came of them. */
    ghost var clears: nat

    constructor (truthful: bool)
      ensures this.truthful == truthful && clears == 0 && Clocked(gate)
    {
      this.truthful := truthful;
      gate, control, load, locked, raised := 8, 0, 0, true, false;
      clears := 0;
    }

    ghost predicate Running(reload: u32)
      reads this
    {
      truthful && Clocked(gate) && Enabled(control) && load == reload
    }

    method Read(address: u32) returns (ok: bool, value: u32)
      ensures truthful ==> ok
      ensures truthful && address == RCGC0 ==> value == gate
      ensures truthful && address == CTL ==> value == control
      ensures truthful && address == LOAD ==> value == load
      ensures truthful && address == LOCK ==> value == if locked then 1 else 0
      ensures truthful && address == RIS ==> value == if raised then 1 else 0
    {
      ok, value := true, 0;
      if !truthful { ok := *; value := *; return; }
      if address == RCGC0 { value := gate; }
      else if address == CTL { value := control; }
      else if address == LOAD { value := load; }
      else if address == LOCK { value := if locked then 1 else 0; }
      else if address == RIS { value := if raised then 1 else 0; }
    }

    method Write(address: u32, value: u32) returns (ok: bool)
      modifies this
      ensures gate == old(gate)
      ensures clears == old(clears) + if address == ICR then 1 else 0
      ensures truthful ==> ok
      ensures truthful && address == LOCK ==> locked == (value != UNLOCK)
      ensures truthful && address != LOCK ==> locked == old(locked)
      ensures truthful && address == ICR && !old(locked) ==> !raised
      ensures truthful && address != ICR ==> raised == old(raised)
      ensures truthful ==> control == if address == CTL && !old(locked) then value else old(control)
      ensures truthful ==> load == if address == LOAD && !old(locked) then value else old(load)
    {
      ok := true;
      if address == ICR { clears := clears + 1; }
      if !truthful {
        ok := *; control := *; load := *; locked := *; raised := *;
        return;
      }
      if address == LOCK { locked := value != UNLOCK; }
      else if locked { }
      else if address == CTL { control := value; }
      else if address == LOAD { load := value; }
      else if address == ICR { raised := false; }
    }
  }

  class Watchdog {
    const io: Registers
    var configured: bool
    var blocked: bool
    var owner: Owner
    var epoch: u32
    /** One flag for the boot owner, three for the application. */
    var bootEvidence: bool
    var appEvidence: set<Predicate>
    var reload: u32
    var verification: u32
    var total: u32
    var completed: u32
    var phase: nat
    /** Milestones accepted and feeds issued so far, per owner. */
    ghost var milestones: nat
    ghost var bootFeeds: nat
    ghost var reports: map<Predicate, nat>
    ghost var appFeeds: nat

    /** A feed is paid for by a milestone of the boot owner, or by a full set of application reports. */
    ghost predicate Valid()
      reads this
    {
      Validity() == Yes
    }

    ghost function Validity(): Verdict
      reads this
    {
      if && epoch >= 1 && phase <= 2 && completed <= total && (phase == 1 ==> completed == 0)
         && reports.Keys == {ETHERNET, TIMERS, FTP}
         && bootFeeds + (if bootEvidence then 1 else 0) <= milestones
         && (forall p :: p in reports.Keys ==> appFeeds + (if p in appEvidence then 1 else 0) <= reports[p])
         && (owner == BOOT ==> appEvidence == {} && appFeeds == 0)
         && (owner == APPLICATION ==> !bootEvidence)
      then Yes else No
    }

    constructor (io: Registers)
      ensures Valid() && this.io == io && !configured && !blocked && owner == BOOT && epoch == 1
      ensures bootFeeds == 0 && milestones == 0 && appFeeds == 0 && verification == 0
    {
      this.io := io;
      configured, blocked, owner, epoch, bootEvidence, appEvidence := false, false, BOOT, 1, false, {};
      reload, verification, total, completed, phase := 0, 0, 0, 0, 0;
      milestones, bootFeeds, appFeeds := 0, 0, 0;
      reports := map[ETHERNET := 0, TIMERS := 0, FTP := 0];
    }

    /** lock: write the lock register and check what it then says. */
    method Relock(unlock: bool) returns (status: WatchdogStatus)
      modifies io
      ensures status in {WD_OK, WD_IO, WD_VERIFY}
      ensures io.gate == old(io.gate) && io.clears == old(io.clears)
      ensures io.truthful ==> status == WD_OK && io.locked == !unlock
      ensures io.truthful ==> io.control == old(io.control) && io.load == old(io.load) && io.raised == old(io.raised)
    {
      var ok, value;
      ok := io.Write(LOCK, if unlock then UNLOCK else 0);
      if !ok { return WD_IO; }
      ok, value := io.Read(LOCK);
      if !ok { return WD_IO; }
      return if value == (if unlock then 0 else 1) then WD_OK else WD_VERIFY;
    }

    /** Evidence is dropped and the watchdog stays quarantined. */
    method Quarantine()
      requires Valid()
      modifies this`blocked, this`bootEvidence, this`appEvidence
      ensures Valid() && blocked && !bootEvidence && appEvidence == {}
    {
      blocked, bootEvidence, appEvidence := true, false, {};
    }

    /** fault: relock as the only cleanup, then quarantine. */
    method Fault()
      requires Valid()
      modifies io, this`blocked, this`bootEvidence, this`appEvidence
      ensures Valid() && blocked && !bootEvidence && appEvidence == {} && io.clears == old(io.clears)
    {
      var ignored := Relock(false);
      Quarantine();
    }

    method Configure(hz: u32, budget: u32) returns (status: WatchdogStatus)
      requires Valid()
      modifies this, io
      ensures Valid()
      ensures owner == old(owner) && epoch == old(epoch) && milestones == old(milestones)
      ensures bootFeeds == old(bootFeeds) && appFeeds == old(appFeeds) && reports == old(reports)
      ensures status == WD_OK ==> configured && !blocked && reload == budget == 5 * (hz as int) && hz != 0
      ensures status == WD_OK && io.truthful ==> io.Running(reload) && io.locked
      ensures status != WD_OK ==> configured == old(configured)
      ensures status !in {WD_OK, WD_ARGUMENT} ==> blocked || (old(configured) && status == WD_STATE)
      ensures (hz != 0 && budget == 5 * (hz as int) && !old(configured) && !old(blocked) && io.truthful
               && old(Clocked(io.gate)) && old(io.control) % 2 == 0) ==> status == WD_OK
    {
      if hz == 0 || (hz as int) * 5 != budget { return WD_ARGUMENT; }
      if blocked { return WD_BLOCKED; }
      if configured { return WD_STATE; }
      var control;
      status, control := Stopped();
      if status == WD_OK { status := Start(budget, control); }
      if status == WD_OK { reload, configured := budget, true; }
    }

    /** The watchdog must be clocked and must not be running yet. */
    method Stopped() returns (status: WatchdogStatus, control: u32)
      requires Valid()
      modifies this`blocked, this`bootEvidence, this`appEvidence
      ensures Valid() && status in {WD_OK, WD_IO, WD_VERIFY, WD_STATE}
      ensures if status == WD_OK then blocked == old(blocked) && control % 2 == 0 else blocked
      ensures status == WD_OK && io.truthful ==> Clocked(io.gate) && control == io.control
      ensures io.truthful && Clocked(io.gate) && io.control % 2 == 0 ==> status == WD_OK
    {
      var ok, value;
      control := 0;
      status := WD_IO;
      ok, value := io.Read(RCGC0);
      if ok {
        if Clocked(value) {
          ok, control := io.Read(CTL);
          if ok { status := if control % 2 != 0 then WD_STATE else WD_OK; }
        } else {
          status := WD_VERIFY;
        }
      }
      if status != WD_OK { Quarantine(); }
    }

    /** Unlock, arm, lock again. */
    method Start(budget: u32, control: u32) returns (status: WatchdogStatus)
      requires Valid() && control % 2 == 0
      modifies io, this`blocked, this`bootEvidence, this`appEvidence
      ensures Valid() && status in {WD_OK, WD_IO, WD_VERIFY}
      ensures if status == WD_OK then blocked == old(blocked) else blocked
      ensures status == WD_OK && io.truthful && old(io.control) == control && old(Clocked(io.gate)) ==>
        io.Running(budget) && io.locked
      ensures io.truthful && old(io.control) == control ==> status == WD_OK
    {
      status := Relock(true);
      if status == WD_OK { status := Arm(budget, control); }
      if status == WD_OK { status := Relock(false); }
      if status != WD_OK { Fault(); }
    }

    /** Loads the budget, clears a stale interrupt, then enables both stages; each step is read back. */
    method Arm(budget: u32, control: u32) returns (status: WatchdogStatus)
      requires control % 2 == 0
      modifies io
      ensures status in {WD_OK, WD_IO, WD_VERIFY} && io.gate == old(io.gate)
      ensures io.truthful && !old(io.locked) && old(io.control) == control ==>
                status == WD_OK && io.load == budget && Enabled(io.control)
    {
      var ok, value;
      ok := io.Write(LOAD, budget);
      if !ok { return WD_IO; }
      ok, value := io.Read(LOAD);
      if !ok { return WD_IO; }
      if value != budget { return WD_VERIFY; }
      ok := io.Write(ICR, 0);
      if !ok { return WD_IO; }
      ok, value := io.Read(RIS);
      if !ok { return WD_IO; }
      if value % 2 != 0 { return WD_VERIFY; }
      var both := if Enabled(control) then control else control - control % 4 + 3;
      ok := io.Write(CTL, both);
      if !ok { return WD_IO; }
      ok, value := io.Read(CTL);
      if !ok { return WD_IO; }
      return if Enabled(value) then WD_OK else WD_VERIFY;
    }

    ghost predicate Ready(who: Owner, at: u32)
      reads this
    {
      !blocked && configured && who == owner && at == epoch
    }

    method CheckReady(who: Owner, at: u32) returns (status: WatchdogStatus)
      ensures status == WD_OK <==> Ready(who, at)
      ensures status in {WD_OK, WD_BLOCKED, WD_STATE}
      ensures status == WD_BLOCKED <==> blocked
    {
      if blocked { return WD_BLOCKED; }
      if !configured || who != owner || at != epoch { return WD_STATE; }
      return WD_OK;
    }

    ghost predicate Evidence()
      reads this
    {
      if owner == BOOT then bootEvidence else appEvidence == {ETHERNET, TIMERS, FTP}
    }

    /** Everything but the evidence, the epoch and the feed counters is as before. */
    twostate predicate OnlyFed()
      reads this
    {
      && configured == old(configured) && owner == old(owner) && reload == old(reload)
      && verification == old(verification) && total == old(total) && completed == old(completed)
      && phase == old(phase) && milestones == old(milestones) && reports == old(reports)
    }

    /** boot_watchdog_service_held: feeds once, on complete evidence of the current owner and epoch. */
    method Service(who: Owner, at: u32) returns (status: WatchdogStatus)
      requires Valid()
      modifies this, io
      ensures Valid() && OnlyFed()
      ensures io.clears - old(io.clears) == (bootFeeds - old(bootFeeds)) + (appFeeds - old(appFeeds))
      ensures 0 <= (bootFeeds - old(bootFeeds)) + (appFeeds - old(appFeeds)) <= 1
      ensures io.clears > old(io.clears) ==> old(Ready(who, at)) && old(Evidence())
      ensures if owner == BOOT then appFeeds == old(appFeeds) else bootFeeds == old(bootFeeds)
      ensures old(Ready(who, at)) && !old(Evidence()) ==> status == WD_PROGRESS
      ensures status == WD_OK ==>
        && old(Ready(who, at)) && old(Evidence()) && epoch == old(epoch) + 1 && io.clears == old(io.clears) + 1
        && !blocked && !bootEvidence && appEvidence == {}
      ensures status != WD_OK ==> epoch == old(epoch)
      ensures status !in {WD_OK, WD_PROGRESS} ==> blocked || !old(Ready(who, at))
      ensures old(Ready(who, at)) && old(Evidence()) && old(epoch) < UINT32_MAX && old(io.Running(reload)) ==>
        status == WD_OK && io.Running(reload) && bootFeeds == old(bootFeeds) + if owner == BOOT then 1 else 0
    {
      status := CheckReady(who, at);
      if status != WD_OK { return; }
      if (owner == BOOT && !bootEvidence) || (owner == APPLICATION && appEvidence != {ETHERNET, TIMERS, FTP}) {
        return WD_PROGRESS;
      }
      status := Spend();
    }

    /** The evidence is spent on one feed, or lost. */
    method Spend() returns (status: WatchdogStatus)
      requires Valid() && !blocked && Evidence()
      modifies this`bootEvidence, this`appEvidence, this`blocked, this`epoch, this`bootFeeds, this`appFeeds, io
      ensures Valid() && status in {WD_OK, WD_IO, WD_VERIFY, WD_STATE}
      ensures io.clears - old(io.clears) == (bootFeeds - old(bootFeeds)) + (appFeeds - old(appFeeds))
      ensures 0 <= (bootFeeds - old(bootFeeds)) + (appFeeds - old(appFeeds)) <= 1
      ensures if owner == BOOT then appFeeds == old(appFeeds) else bootFeeds == old(bootFeeds)
      ensures if status == WD_OK
              then epoch == old(epoch) + 1 && io.clears == old(io.clears) + 1 && !blocked && !bootEvidence && appEvidence == {}
              else epoch == old(epoch) && blocked
      ensures old(epoch) < UINT32_MAX && old(io.Running(reload)) ==> status == WD_OK && io.Running(reload)
    {
      if epoch == UINT32_MAX {
        Quarantine();
        return WD_STATE;
      }
      TakeEvidence();
      status := CheckRunning();
      if status == WD_OK {
        status := FeedOnce();
      } else {
        Quarantine();
      }
      if status == WD_OK { epoch := epoch + 1; }
    }

    /** One more feed than so far is paid for. */
    ghost predicate Paid()
      reads this
    {
      if owner == BOOT then bootFeeds < milestones else forall p :: p in reports.Keys ==> appFeeds < reports[p]
    }

    method TakeEvidence()
      requires Valid() && Evidence()
      modifies this`bootEvidence, this`appEvidence
      ensures Valid() && Paid() && !bootEvidence && appEvidence == {}
    {
      bootEvidence, appEvidence := false, {};
    }

    method FeedOnce() returns (status: WatchdogStatus)
      requires Valid() && Paid() && !blocked && !bootEvidence && appEvidence == {}
      modifies this`bootEvidence, this`appEvidence, this`blocked, this`bootFeeds, this`appFeeds, io
      ensures Valid() && status in {WD_OK, WD_IO, WD_VERIFY} && !bootEvidence && appEvidence == {}
      ensures io.clears - old(io.clears) == (bootFeeds - old(bootFeeds)) + (appFeeds - old(appFeeds))
      ensures 0 <= (bootFeeds - old(bootFeeds)) + (appFeeds - old(appFeeds)) <= 1
      ensures if owner == BOOT then appFeeds == old(appFeeds) else bootFeeds == old(bootFeeds)
      ensures if status == WD_OK then io.clears == old(io.clears) + 1 && !blocked else blocked
      ensures old(io.Running(reload)) ==> status == WD_OK && io.Running(reload)
    {
      ghost var fed;
      status, fed := Feed();
      if fed {
        if owner == BOOT { bootFeeds := bootFeeds + 1; } else { appFeeds := appFeeds + 1; }
      }
      if status != WD_OK { Fault(); }
    }

    /** Unlock, clear the interrupt, lock again, each confirmed; nothing is retried. */
    method Feed() returns (status: WatchdogStatus, ghost fed: bool)
      modifies io
      ensures status in {WD_OK, WD_IO, WD_VERIFY} && (status == WD_OK ==> fed)
      ensures io.clears == old(io.clears) + (if fed then 1 else 0) && io.gate == old(io.gate)
      ensures io.truthful ==> status == WD_OK && io.control == old(io.control) && io.load == old(io.load)
    {
      fed := false;
      status := Relock(true);
      if status != WD_OK { return; }
      fed := true;
      status := ClearInterrupt();
      if status != WD_OK { return; }
      status := Relock(false);
    }

    method CheckRunning() returns (status: WatchdogStatus)
      ensures status in {WD_OK, WD_IO, WD_VERIFY}
      ensures io.Running(reload) ==> status == WD_OK
    {
      var ok, value;
      ok, value := io.Read(RCGC0);
      if !ok { return WD_IO; }
      if !Clocked(value) { return WD_VERIFY; }
      ok, value := io.Read(CTL);
      if !ok { return WD_IO; }
      if !Enabled(value) { return WD_VERIFY; }
      ok, value := io.Read(LOAD);
      if !ok { return WD_IO; }
      return if value == reload then WD_OK else WD_VERIFY;
    }

    method ClearInterrupt() returns (status: WatchdogStatus)
      modifies io
      ensures status in {WD_OK, WD_IO, WD_VERIFY}
      ensures io.clears == old(io.clears) + 1 && io.gate == old(io.gate)
      ensures io.truthful && !old(io.locked) ==> status == WD_OK
      ensures io.truthful ==> io.control == old(io.control) && io.load == old(io.load)
    {
      var ok, value;
      ok := io.Write(ICR, 0);
      if !ok { return WD_IO; }
      ok, value := io.Read(RIS);
      if !ok { return WD_IO; }
      return if value % 2 == 0 then WD_OK else WD_VERIFY;
    }

    /** boot_watchdog_transfer_held: one way, no register access, pending evidence dropped. */
    method Transfer(at: u32) returns (status: WatchdogStatus)
      requires Valid()
      modifies this
      ensures Valid() && configured == old(configured) && reload == old(reload)
      ensures milestones == old(milestones) && reports == old(reports)
      ensures bootFeeds == old(bootFeeds) && appFeeds == old(appFeeds)
      ensures status == WD_OK <==> old(Ready(BOOT, at)) && old(epoch) < UINT32_MAX
      ensures status == WD_OK ==> owner == APPLICATION && epoch == old(epoch) + 1 && appEvidence == {} && !blocked
      ensures status != WD_OK ==> owner == old(owner) && epoch == old(epoch)
    {
      status := CheckReady(BOOT, at);
      if status != WD_OK { return; }
      if epoch == UINT32_MAX { Quarantine(); return WD_STATE; }
      owner, bootEvidence, appEvidence, epoch := APPLICATION, false, {}, epoch + 1;
    }

    /** The next verifier event of the stream that the watchdog is following. */
    ghost predicate Expected(id: u32, event: Phase, done: u32, whole: u32)
      reads this
    {
      match event
      case MANIFEST_BEGIN =>
        id != 0 && id > verification && done == 0 && PAYLOAD_MIN <= whole <= PAYLOAD_MAX && whole % 4 == 0
      case MANIFEST_AUTHENTICATED => id == verification && whole == total && phase == 1 && done == 0
      case PAYLOAD_PROGRESS =>
        && id == verification && whole == total && phase == 2 && completed < total
        && (done as int) == completed as int + Min(total as int - completed as int, CHUNK_BYTES as int)
    }

    /** boot_watchdog_report_held. */
    method Report(at: u32, id: u32, event: Phase, done: u32, whole: u32) returns (status: WatchdogStatus)
      requires Valid()
      modifies this
      ensures Valid()
      ensures configured == old(configured) && blocked == old(blocked) && owner == old(owner) && epoch == old(epoch)
      ensures reload == old(reload) && reports == old(reports) && bootFeeds == old(bootFeeds) && appFeeds == old(appFeeds)
      ensures status == WD_OK <==> old(Ready(BOOT, at)) && old(Expected(id, event, done, whole))
      ensures status != WD_OK ==> milestones == old(milestones) && bootEvidence == old(bootEvidence)
      ensures status == WD_OK ==> match event
        case MANIFEST_BEGIN =>
          && verification == id && total == whole && completed == 0 && phase == 1 && !bootEvidence
          && milestones == old(milestones)
        case MANIFEST_AUTHENTICATED =>
          && verification == id && total == whole && completed == old(completed) && phase == 2 && bootEvidence
          && milestones == old(milestones) + 1
        case PAYLOAD_PROGRESS =>
          && verification == id && total == whole && completed == done && phase == 2 && bootEvidence
          && milestones == old(milestones) + 1
    {
      status := CheckReady(BOOT, at);
      if status != WD_OK { return; }
      match event {
        case MANIFEST_BEGIN =>
          if id == 0 || id <= verification || done != 0 || whole < PAYLOAD_MIN || whole > PAYLOAD_MAX || whole % 4 != 0 {
            return WD_PROGRESS;
          }
          verification, total, completed, bootEvidence, phase := id, whole, 0, false, 1;
          return WD_OK;
        case MANIFEST_AUTHENTICATED =>
          if id != verification || whole != total || phase == 0 { return WD_PROGRESS; }
          if phase != 1 || done != 0 { return WD_PROGRESS; }
          phase := 2;
        case PAYLOAD_PROGRESS =>
          if id != verification || whole != total || phase == 0 { return WD_PROGRESS; }
          var remaining: int := total as int - completed as int;
          var chunk: int := Min(remaining, CHUNK_BYTES as int);
          if phase != 2 || remaining == 0 || done <= completed || done > total
             || done as int - completed as int != chunk {
            return WD_PROGRESS;
          }
          completed := done;
      }
      bootEvidence := true;
      milestones := milestones + 1;
      return WD_OK;
    }

    /** boot_watchdog_application_report: each predicate once an epoch, after its work is complete. */
    method ApplicationReport(at: u32, p: Predicate, complete: bool) returns (status: WatchdogStatus)
      requires Valid()
      modifies this
      ensures Valid() && epoch == old(epoch) && owner == old(owner) && blocked == old(blocked)
      ensures bootFeeds == old(bootFeeds) && appFeeds == old(appFeeds) && milestones == old(milestones)
      ensures status == WD_OK <==> old(Ready(APPLICATION, at)) && complete && p !in old(appEvidence)
      ensures status == WD_OK ==> appEvidence == old(appEvidence) + {p} && reports == old(reports)[p := old(reports)[p] + 1]
      ensures status != WD_OK ==> appEvidence == old(appEvidence) && reports == old(reports)
    {
      status := CheckReady(APPLICATION, at);
      if status != WD_OK { return; }
      if !complete || p in appEvidence { return WD_PROGRESS; }
      appEvidence := appEvidence + {p};
      reports := reports[p := reports[p] + 1];
      return WD_OK;
    }
  }

}
