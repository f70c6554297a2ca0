/** The flash controller driver: one command at a time, verified, and quarantined after any doubt. */
module Controller {
  import opened Bytes
  import opened Format
  import opened Flash

  const FMA: u32 := 0x400f_d000
  const FMD: u32 := 0x400f_d004
  const FMC: u32 := 0x400f_d008
  const FCRIS: u32 := 0x400f_d00c
  const FCMISC: u32 := 0x400f_d014
  const USECRL: u32 := 0x400f_e140

  datatype FlashStatus =
    | FLASH_OK | FLASH_ARGUMENT | FLASH_BLOCKED | FLASH_IO | FLASH_CLOCK | FLASH_TIMEOUT | FLASH_STATUS
    | FLASH_PROTECTED | FLASH_VERIFY | FLASH_BITS

  datatype Command = NoCommand | WriteWord(at: nat, bytes: seq<u8>) | ErasePage(at: nat)

  predicate CommandValid(c: Command) {
    match c
    case NoCommand => true
    case WriteWord(at, bytes) => at + 4 <= FLASH_BYTES && |bytes| == 4
    case ErasePage(at) => at + PAGE_BYTES <= FLASH_BYTES
  }

  function BitsOf(c: Command): nat {
    match c
    case NoCommand => 0
    case WriteWord(_, _) => WORD_BITS
    case ErasePage(_) => PAGE_BITS
  }

  /** The memory after the first n bits of a command. */
  function Effect(mem: seq<u8>, c: Command, n: nat): (r: seq<u8>)
    requires CommandValid(c)
    ensures |r| == |mem|
  {
    match c
    case NoCommand => mem
    case WriteWord(at, bytes) => TornProgram(mem, at, bytes, n)
    case ErasePage(at) => TornErase(mem, at, n)
  }

  lemma NoEffect(mem: seq<u8>, c: Command)
    requires CommandValid(c)
    ensures Effect(mem, c, 0) == mem
  {
    match c
    case NoCommand =>
    case WriteWord(at, bytes) => ProgramNothing(mem, at, bytes);
    case ErasePage(at) => EraseNothing(mem, at);
  }

  /** The controller chip: a command makes progress at any access until it stops, complete or not. Any register
      access may be reported as failed, whether or not it took effect. */
  class Hardware {
    /** Whether every access succeeds and every command is done, completely, by the next one. */
    const prompt: bool
    var mem: seq<u8>
    var fma: u32
    var fmd: u32
    var status: Bits2
    var clock: u32
    var busy: bool
    /** The last command, the memory it was issued on, and how far it has come. */
    var command: Command
    var base: seq<u8>
    var progress: nat
    /** Commands issued so far. */
    ghost var issued: nat

    ghost predicate Valid()
      reads this
    {
      && |mem| == FLASH_BYTES == |base| && CommandValid(command) && progress <= BitsOf(command)
      && mem == Effect(base, command, progress)
    }

    ghost predicate Quiet(before: seq<u8>, count: nat)
      reads this
    {
      Valid() && !busy && mem == before && issued == count
    }

    constructor (mem: seq<u8>, clock: u32, prompt: bool)
      requires |mem| == FLASH_BYTES
      ensures Valid() && !busy && this.mem == mem && this.clock == clock && issued == 0 && this.prompt == prompt
    {
      this.prompt := prompt;
      this.mem, this.clock, fma, fmd, status, busy := mem, clock, 0, 0, 0, false;
      command, base, progress, issued := NoCommand, mem, 0, 0;
    }

    /** Time passes for the command in progress. */
    method Tick()
      requires Valid()
      modifies this
      ensures Valid() && issued == old(issued) && command == old(command) && base == old(base) && clock == old(clock)
      ensures fma == old(fma) && fmd == old(fmd)
      ensures !old(busy) ==> !busy && mem == old(mem) && status == old(status)
      ensures prompt && old(busy) ==> !busy && status == 2 && progress == BitsOf(command)
      ensures !old(busy) ==> progress == old(progress)
    {
      if busy {
        var n: nat := *;
        if prompt { n := BitsOf(command); }
        if progress < n <= BitsOf(command) {
          progress := n;
          mem := Effect(base, command, n);
        }
        var stops: bool := *;
        if stops || prompt {
          busy := false;
          status := *;
          if prompt { status := 2; }
        }
      }
    }

    method ReadRegister(address: u32) returns (ok: bool, value: u32)
      requires Valid()
      modifies this
      ensures Valid() && issued == old(issued) && command == old(command) && base == old(base)
      ensures fma == old(fma) && fmd == old(fmd) && clock == old(clock)
      ensures !old(busy) ==> !busy && mem == old(mem) && status == old(status) && progress == old(progress)
      ensures ok && address == FMC ==> (value % 16 == 0 <==> !busy)
      ensures ok && address == FCRIS && !busy ==> value % 4 == status
      ensures ok && address == USECRL ==> value == clock
      ensures prompt ==> ok
    {
      Tick();
      ok := *;
      if prompt { ok := true; }
      value := *;
      if address == FMC { value := if busy then 1 else 0; }
      else if address == FCRIS { value := status as int; }
      else if address == USECRL { value := clock; }
    }

    /** The command that a keyed write to FMC starts on the latched address and data. */
    function Latched(value: u32): Command
      reads this
    {
      var at := fma as int - FLASH_FIRST;
      if at < 0 then NoCommand
      else if value % 16 == 1 then WriteWord(at, Put32(fmd))
      else if value % 16 == 2 then ErasePage(at)
      else NoCommand
    }

    method WriteRegister(address: u32, value: u32) returns (ok: bool)
      requires Valid()
      requires address == FMC ==> !busy && CommandValid(Latched(value)) && Latched(value) != NoCommand
      modifies this
      ensures Valid()
      ensures address != FMC ==> command == old(command) && base == old(base) && issued == old(issued)
                                 && (!old(busy) ==> !busy && mem == old(mem))
      ensures address == FMA ==> fmd == old(fmd) && (ok ==> fma == value)
      ensures address == FMD ==> fma == old(fma) && (ok ==> fmd == value)
      ensures address !in {FMA, FMD} ==> fma == old(fma) && fmd == old(fmd)
      ensures address == FMC ==>
        || (command == old(Latched(value)) && base == old(mem) && issued == old(issued) + 1)
        || (!ok && !busy && mem == old(mem) && issued == old(issued) && command == old(command) && base == old(base))
      ensures clock == old(clock) && (prompt ==> ok)
      ensures prompt && address == FCMISC && !old(busy) ==> status == 0
      ensures prompt && address in {FMA, FMD} && !old(busy) ==> status == old(status)
      ensures prompt && address == FMC ==>
        !busy && status == 2 && progress == BitsOf(command) && issued == old(issued) + 1
    {
      Tick();
      ok := *;
      if prompt { ok := true; }
      var done: bool := *;
      if !ok && !done { return; }
      if address == FMA { fma := value; }
      else if address == FMD { fmd := value; }
      else if address == FCMISC {
        status := *;
        if prompt { status := 0; }
      }
      else if address == FMC {
        NoEffect(mem, Latched(value));
        command, base, progress, issued, busy := Latched(value), mem, 0, issued + 1, true;
        Tick();
      }
    }

    method ReadFlash(at: nat, size: nat) returns (ok: bool, bytes: seq<u8>)
      requires Valid() && at + size <= FLASH_BYTES
      modifies this
      ensures Valid() && issued == old(issued) && command == old(command) && base == old(base)
      ensures fma == old(fma) && fmd == old(fmd) && clock == old(clock)
      ensures !old(busy) ==> !busy && mem == old(mem) && status == old(status)
      ensures |bytes| == size && (ok ==> bytes == mem[at..at + size])
      ensures prompt ==> ok
    {
      Tick();
      ok := *;
      if prompt { ok := true; }
      bytes := mem[at..at + size];
    }
  }

  class Driver {
    const hw: Hardware
    const mhz: u32
    const polls: nat
    var blocked: bool
    /** The first cause of the current quarantine. */
    var cause: FlashStatus

    ghost predicate Valid()
      reads this, hw
    {
      && hw.Valid() && 1 <= mhz <= 50 && polls > 0
      && (blocked <==> cause != FLASH_OK)
      && (!blocked ==> !hw.busy)
    }

    /** boot_flash_init. */
    constructor (hw: Hardware, mhz: u32, polls: nat)
      requires hw.Valid() && !hw.busy && 1 <= mhz <= 50 && polls > 0
      ensures Valid() && this.hw == hw && !blocked && this.mhz == mhz
    {
      this.hw, this.mhz, this.polls := hw, mhz, polls;
      blocked, cause := false, FLASH_OK;
    }

    /** leave: the first failure of a quarantine is the one remembered. */
    method Leave(result: FlashStatus)
      requires hw.Valid() && 1 <= mhz <= 50 && polls > 0
      requires blocked ==> result != FLASH_OK || cause != FLASH_OK
      requires !blocked ==> cause == FLASH_OK && !hw.busy
      modifies this`cause
      ensures Valid()
      ensures cause == if blocked && old(cause) == FLASH_OK then result else old(cause)
    {
      if blocked && cause == FLASH_OK && result != FLASH_OK { cause := result; }
    }

    /** idle: bounded polling for the end of any command. */
    method Idle(limit: nat) returns (status: FlashStatus)
      requires hw.Valid()
      modifies hw
      ensures hw.Valid() && hw.issued == old(hw.issued) && hw.command == old(hw.command) && hw.base == old(hw.base)
      ensures hw.fma == old(hw.fma) && hw.fmd == old(hw.fmd) && hw.clock == old(hw.clock)
      ensures !old(hw.busy) ==> !hw.busy && hw.mem == old(hw.mem) && hw.status == old(hw.status)
      ensures status in {FLASH_OK, FLASH_IO, FLASH_TIMEOUT} && (status == FLASH_OK ==> !hw.busy)
      ensures hw.prompt && !old(hw.busy) && limit > 0 ==> status == FLASH_OK
    {
      var i := 0;
      while i < limit
        invariant hw.Valid() && hw.issued == old(hw.issued) && hw.command == old(hw.command) && hw.base == old(hw.base)
        invariant hw.fma == old(hw.fma) && hw.fmd == old(hw.fmd) && hw.clock == old(hw.clock)
        invariant !old(hw.busy) ==> !hw.busy && hw.mem == old(hw.mem) && hw.status == old(hw.status)
        invariant hw.prompt && !old(hw.busy) ==> i == 0
      {
        var ok, value := hw.ReadRegister(FMC);
        if !ok { return FLASH_IO; }
        if value % 16 == 0 { return FLASH_OK; }
        i := i + 1;
      }
      return FLASH_TIMEOUT;
    }

    method ClearStatus() returns (status: FlashStatus)
      requires hw.Valid()
      modifies hw
      ensures hw.Valid() && hw.issued == old(hw.issued) && hw.command == old(hw.command) && hw.base == old(hw.base)
      ensures hw.fma == old(hw.fma) && hw.fmd == old(hw.fmd) && hw.clock == old(hw.clock)
      ensures !old(hw.busy) ==> !hw.busy && hw.mem == old(hw.mem)
      ensures status in {FLASH_OK, FLASH_IO, FLASH_STATUS}
      ensures hw.prompt && !old(hw.busy) ==> status == FLASH_OK
    {
      var ok := hw.WriteRegister(FCMISC, 3);
      if !ok { return FLASH_IO; }
      var value;
      ok, value := hw.ReadRegister(FCRIS);
      if !ok { return FLASH_IO; }
      return if value % 4 == 0 then FLASH_OK else FLASH_STATUS;
    }

    /** boot_flash_recover: observes that nothing runs, issues nothing, and only then lifts the quarantine. */
    method Recover() returns (status: FlashStatus)
      requires Valid()
      modifies this, hw
      ensures Valid() && hw.issued == old(hw.issued)
      ensures blocked <==> status != FLASH_OK
      ensures blocked ==> cause == if old(blocked) then old(cause) else status
      ensures hw.command == old(hw.command) && hw.base == old(hw.base)
      ensures !old(hw.busy) ==> hw.mem == old(hw.mem)
      ensures status == FLASH_OK ==> !hw.busy
      ensures hw.prompt && !old(hw.busy) ==> status == FLASH_OK
    {
      blocked := true;
      status := Idle(polls);
      if status == FLASH_OK { status := ClearStatus(); }
      if status == FLASH_OK { blocked, cause := false, FLASH_OK; }
      Leave(status);
    }

    /** boot_flash_read. */
    method Read(address: nat, size: nat) returns (status: FlashStatus, bytes: seq<u8>)
      requires Valid()
      modifies this, hw
      ensures Valid() && hw.issued == old(hw.issued) && hw.base == old(hw.base) && hw.command == old(hw.command)
      ensures old(blocked) ==> status != FLASH_OK && blocked && cause == old(cause) && hw.mem == old(hw.mem)
      ensures !old(blocked) ==> hw.mem == old(hw.mem)
      ensures status == FLASH_OK ==> FLASH_FIRST <= address && address + size <= FLASH_END && size > 0 && !blocked
      ensures status == FLASH_OK ==> bytes == hw.mem[address - FLASH_FIRST..address - FLASH_FIRST + size]
      ensures hw.prompt && !old(blocked) && FLASH_FIRST <= address && address + size <= FLASH_END && size > 0 ==>
        status == FLASH_OK
    {
      bytes := [];
      if address < FLASH_FIRST || size == 0 || address + size > FLASH_END { return FLASH_ARGUMENT, []; }
      if blocked { Leave(FLASH_BLOCKED); return FLASH_BLOCKED, []; }
      status := Idle(1);
      if status != FLASH_OK {
        blocked := true;
      } else {
        var ok;
        ok, bytes := hw.ReadFlash(address - FLASH_FIRST, size);
        if !ok { status := FLASH_IO; }
      }
      Leave(status);
    }

    /** The clock is the one configured, and no bit of a word would have to be set. */
    predicate Ready(command: Command)
      reads hw
    {
      hw.clock % 256 == mhz - 1 && (command.WriteWord? ==> Programmable(hw.mem, command.at, command.bytes))
    }

    /** Clock, current contents and stale status; nothing has been issued yet. */
    method Prepare(command: Command, address: nat, word: u32) returns (status: FlashStatus)
      requires hw.Valid() && !hw.busy && 1 <= mhz <= 50 && CommandValid(command) && command != NoCommand
      requires address == FLASH_FIRST + command.at && address < 0x1_0000_0000
      requires command.WriteWord? ==> command.bytes == Put32(word)
      modifies hw
      ensures hw.Quiet(old(hw.mem), old(hw.issued))
      ensures hw.base == old(hw.base) && hw.command == old(hw.command)
      ensures status !in {FLASH_BLOCKED, FLASH_VERIFY, FLASH_PROTECTED, FLASH_TIMEOUT}
      ensures status == FLASH_OK ==>
        && hw.fma as int == address
        && hw.clock % 256 == mhz - 1
        && (command.WriteWord? ==> Put32(hw.fmd) == command.bytes && Programmable(hw.mem, command.at, command.bytes))
      ensures hw.clock == old(hw.clock)
      ensures hw.prompt && Ready(command) ==> status == FLASH_OK
    {
      var ok, value := hw.ReadRegister(USECRL);
      if !ok { return FLASH_IO; }
      if value % 256 != mhz - 1 { return FLASH_CLOCK; }
      if command.WriteWord? {
        var bytes;
        ok, bytes := hw.ReadFlash(command.at, 4);
        if !ok { return FLASH_IO; }
        if !(forall j :: 0 <= j < 4 ==> Clearable(bytes[j], command.bytes[j])) { return FLASH_BITS; }
        assert forall i :: command.at <= i < command.at + 4 ==> hw.mem[i] == bytes[i - command.at];
      }
      status := ClearStatus();
      if status != FLASH_OK { return; }
      if command.WriteWord? {
        ok := hw.WriteRegister(FMD, word);
        if !ok { return FLASH_IO; }
      }
      ok := hw.WriteRegister(FMA, address);
      if !ok { return FLASH_IO; }
    }

    /** The end of the command awaited, its status checked, and the result read back. */
    method Finish(command: Command) returns (status: FlashStatus)
      requires hw.Valid() && hw.command == command && CommandValid(command) && command != NoCommand
      modifies hw
      ensures hw.Valid() && hw.issued == old(hw.issued) && hw.command == command && hw.base == old(hw.base)
      ensures status !in {FLASH_BLOCKED, FLASH_ARGUMENT}
      ensures status == FLASH_OK ==> !hw.busy && Achieved(hw.mem, command)
      ensures hw.prompt && polls > 0 && !old(hw.busy) && old(hw.status) == 2 && old(Achieved(hw.mem, command)) ==> status == FLASH_OK
      ensures hw.clock == old(hw.clock)
    {
      status := Idle(polls);
      if status != FLASH_OK { return; }
      var ok, value := hw.ReadRegister(FCRIS);
      if !ok { return FLASH_IO; }
      if value % 2 == 1 { return FLASH_PROTECTED; }
      if (value / 2) % 2 == 0 { return FLASH_STATUS; }
      status := ReadBack(command);
    }

    /** What the flash holds now is what the command was to leave there. */
    method ReadBack(command: Command) returns (status: FlashStatus)
      requires hw.Valid() && hw.command == command && CommandValid(command) && command != NoCommand && !hw.busy
      modifies hw
      ensures hw.Valid() && hw.issued == old(hw.issued) && hw.command == command && hw.base == old(hw.base)
      ensures !hw.busy && hw.mem == old(hw.mem) && hw.clock == old(hw.clock)
      ensures status in {FLASH_OK, FLASH_IO, FLASH_VERIFY}
      ensures status == FLASH_OK ==> Achieved(hw.mem, command)
      ensures hw.prompt && Achieved(hw.mem, command) ==> status == FLASH_OK
    {
      status := FLASH_OK;
      var size := if command.WriteWord? then 4 else PAGE_BYTES;
      var ok, bytes := hw.ReadFlash(command.at, size);
      if !ok { return FLASH_IO; }
      var i := 0;
      while i < size
        invariant 0 <= i <= size
        invariant forall j :: 0 <= j < i ==> bytes[j] == Wanted(command, j)
      {
        if bytes[i] != Wanted(command, i) { return FLASH_VERIFY; }
        i := i + 1;
      }
    }

    /** modify: one word programmed or one page erased, verified, or a quarantine. */
    method Modify(command: Command, address: nat, word: u32) returns (status: FlashStatus, ghost done: nat)
      requires Valid() && CommandValid(command) && command != NoCommand
      requires address == FLASH_FIRST + command.at && address < 0x1_0000_0000
      requires command.WriteWord? ==> command.bytes == Put32(word)
      modifies this, hw
      ensures Valid() && done <= BitsOf(command)
      ensures hw.mem == Effect(old(hw.mem), command, done)
      ensures hw.issued <= old(hw.issued) + 1 && (done > 0 ==> hw.issued == old(hw.issued) + 1)
      ensures old(blocked) ==> status == FLASH_BLOCKED && hw.issued == old(hw.issued) && cause == old(cause)
      ensures status == FLASH_OK ==> !blocked && Exactly(old(hw.mem), hw.mem, command)
      ensures command.WriteWord? && !Programmable(old(hw.mem), command.at, command.bytes) ==> status != FLASH_OK
      ensures hw.issued > old(hw.issued) && status != FLASH_OK ==> blocked && cause == status
      ensures hw.issued > old(hw.issued) ==> old(Ready(command))
      ensures hw.prompt && !old(blocked) && old(Ready(command)) ==> status == FLASH_OK
    {
      done := 0;
      NoEffect(hw.mem, command);
      if blocked { Leave(FLASH_BLOCKED); return FLASH_BLOCKED, 0; }
      ghost var before := hw.mem;
      status := Idle(1);
      if status != FLASH_OK {
        blocked := true;
        Leave(status);
        return status, 0;
      }
      status := Prepare(command, address, word);
      if status != FLASH_OK { Leave(status); return status, 0; }
      // Even a failed command write may have launched an operation.
      blocked := true;
      var ok := hw.WriteRegister(FMC, 0xa442_0000 + if command.WriteWord? then 1 else 2);
      done := if hw.command == command && hw.base == before && hw.issued == old(hw.issued) + 1 then hw.progress else 0;
      if !ok { Leave(FLASH_IO); return FLASH_IO, done; }
      if hw.prompt { FullEffect(before, command); }
      status := Finish(command);
      done := hw.progress;
      if status == FLASH_OK {
        AchievedExactly(before, command, done);
        blocked := false;
      }
      Leave(status);
    }

    /** boot_flash_program. */
    method Program(address: nat, word: u32) returns (status: FlashStatus, ghost done: nat)
      requires Valid()
      modifies this, hw
      ensures Valid() && done <= WORD_BITS
      ensures !WordAddress(address) ==> status == FLASH_ARGUMENT && hw.issued == old(hw.issued) && hw.mem == old(hw.mem)
      ensures WordAddress(address) ==> hw.mem == TornProgram(old(hw.mem), address - FLASH_FIRST, Put32(word), done)
      ensures old(blocked) ==> status != FLASH_OK && hw.issued == old(hw.issued) && hw.mem == old(hw.mem) && blocked
      ensures status == FLASH_OK ==>
        && !blocked && WordAddress(address) && Programmable(old(hw.mem), address - FLASH_FIRST, Put32(word))
        && Exactly(old(hw.mem), hw.mem, WriteWord(address - FLASH_FIRST, Put32(word)))
      ensures ProgramOutcome(old(hw.mem), hw.mem, address, word, old(blocked), blocked, false, status == FLASH_OK, done)
      ensures (&& hw.prompt && !old(blocked) && WordAddress(address)
               && old(Ready(WriteWord(address - FLASH_FIRST, Put32(word))))) ==> status == FLASH_OK
    {
      done := 0;
      if !WordAddress(address) { return FLASH_ARGUMENT, 0; }
      status, done := Modify(WriteWord(address - FLASH_FIRST, Put32(word)), address, word);
      NoEffect(old(hw.mem), WriteWord(address - FLASH_FIRST, Put32(word)));
      if status == FLASH_OK {
        SucceededWhole(old(hw.mem), hw.mem, WriteWord(address - FLASH_FIRST, Put32(word)));
        done := WORD_BITS;
      }
    }

    /** boot_flash_erase. */
    method Erase(address: nat) returns (status: FlashStatus, ghost done: nat)
      requires Valid()
      modifies this, hw
      ensures Valid() && done <= PAGE_BITS
      ensures !PageAddress(address) ==> status == FLASH_ARGUMENT && hw.issued == old(hw.issued) && hw.mem == old(hw.mem)
      ensures PageAddress(address) ==> hw.mem == TornErase(old(hw.mem), address - FLASH_FIRST, done)
      ensures old(blocked) ==> status != FLASH_OK && hw.issued == old(hw.issued) && hw.mem == old(hw.mem) && blocked
      ensures status == FLASH_OK ==>
        !blocked && PageAddress(address) && Exactly(old(hw.mem), hw.mem, ErasePage(address - FLASH_FIRST))
      ensures EraseOutcome(old(hw.mem), hw.mem, address, old(blocked), blocked, false, status == FLASH_OK, done)
      ensures hw.prompt && !old(blocked) && PageAddress(address) && old(Ready(ErasePage(address - FLASH_FIRST))) ==>
        status == FLASH_OK
    {
      done := 0;
      if !PageAddress(address) { return FLASH_ARGUMENT, 0; }
      status, done := Modify(ErasePage(address - FLASH_FIRST), address, 0);
      NoEffect(old(hw.mem), ErasePage(address - FLASH_FIRST));
      if status == FLASH_OK {
        SucceededWhole(old(hw.mem), hw.mem, ErasePage(address - FLASH_FIRST));
        done := PAGE_BITS;
      }
    }
  }

  function Wanted(c: Command, i: nat): u8
    requires CommandValid(c) && c != NoCommand && (c.WriteWord? ==> i < 4)
  {
    if c.WriteWord? then c.bytes[i] else 255
  }

  predicate Achieved(mem: seq<u8>, c: Command)
    requires CommandValid(c) && c != NoCommand
  {
    var size := if c.WriteWord? then 4 else PAGE_BYTES;
    |mem| == FLASH_BYTES && forall j :: 0 <= j < size ==> mem[c.at + j] == Wanted(c, j)
  }

  /** The addressed bytes hold what was asked for, and every other byte is as before. */
  predicate Exactly(before: seq<u8>, after: seq<u8>, c: Command)
    requires CommandValid(c) && c != NoCommand
  {
    var size := if c.WriteWord? then 4 else PAGE_BYTES;
    && |before| == |after| == FLASH_BYTES
    && forall i :: 0 <= i < |after| ==> after[i] == if c.at <= i < c.at + size then Wanted(c, i - c.at) else before[i]
  }

  /** A verified success leaves what the whole command leaves. */
  lemma SucceededWhole(before: seq<u8>, after: seq<u8>, c: Command)
    requires CommandValid(c) && c != NoCommand && Exactly(before, after, c)
    requires c.WriteWord? ==> Programmable(before, c.at, c.bytes)
    ensures after == Effect(before, c, BitsOf(c))
  {
    FullEffect(before, c);
    AchievedExactly(before, c, BitsOf(c));
    var whole := Effect(before, c, BitsOf(c));
    assert forall i :: 0 <= i < |after| ==> after[i] == whole[i];
  }

  lemma AchievedExactly(before: seq<u8>, c: Command, n: nat)
    requires CommandValid(c) && c != NoCommand && |before| == FLASH_BYTES && Achieved(Effect(before, c, n), c)
    ensures Exactly(before, Effect(before, c, n), c)
  {
    var after := Effect(before, c, n);
    var size := if c.WriteWord? then 4 else PAGE_BYTES;
    forall i | 0 <= i < |after|
      ensures after[i] == if c.at <= i < c.at + size then Wanted(c, i - c.at) else before[i]
    {
      if c.at <= i < c.at + size { assert after[c.at + (i - c.at)] == Wanted(c, i - c.at); }
    }
  }

  /** A command that runs to its end achieves what it asks for. */
  lemma FullEffect(before: seq<u8>, c: Command)
    requires CommandValid(c) && c != NoCommand && |before| == FLASH_BYTES
    requires c.WriteWord? ==> Programmable(before, c.at, c.bytes)
    ensures Achieved(Effect(before, c, BitsOf(c)), c)
  {
    var after := Effect(before, c, BitsOf(c));
    if c.WriteWord? {
      ProgramAll(before, c.at, c.bytes);
      forall j | 0 <= j < 4 ensures after[c.at + j] == Wanted(c, j) {
        assert TornProgram(before, c.at, c.bytes, WORD_BITS)[c.at + j] == c.bytes[j];
      }
    } else {
      EraseAll(before, c.at);
    }
  }
}
