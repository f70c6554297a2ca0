/** Flash memory under faults: erase sets bits and program clears bits, in order, and either may stop
    part of the way. */
module Flash {
  import opened Bytes
  import opened Format

  const FLASH_FIRST: nat := 0x08000
  const FLASH_END: nat := 0x3f800
  const FLASH_BYTES: nat := FLASH_END - FLASH_FIRST
  const PAGE_BITS: nat := 8 * PAGE_BYTES
  const WORD_BITS: nat := 32

  // ---- one byte ----

  /** The first n bits set. */
  function SetBits(b: u8, n: int): u8 {
    FromOctet(seq(8, i requires 0 <= i < 8 => i < n || Octet(b)[i]))
  }

  /** Of the first n bits, those that are clear in w cleared. */
  function ClearBits(b: u8, w: u8, n: int): u8 {
    FromOctet(seq(8, i requires 0 <= i < 8 => Octet(b)[i] && (i >= n || Octet(w)[i])))
  }

  predicate Clearable(b: u8, w: u8) {
    forall i :: 0 <= i < 8 && Octet(w)[i] ==> Octet(b)[i]
  }

  lemma SetBitsOctet(b: u8, n: int)
    ensures forall i :: 0 <= i < 8 ==> Octet(SetBits(b, n))[i] == (i < n || Octet(b)[i])
  {
    OctetOfFrom(seq(8, i requires 0 <= i < 8 => i < n || Octet(b)[i]));
  }

  lemma ClearBitsOctet(b: u8, w: u8, n: int)
    ensures forall i :: 0 <= i < 8 ==> Octet(ClearBits(b, w, n))[i] == (Octet(b)[i] && (i >= n || Octet(w)[i]))
  {
    OctetOfFrom(seq(8, i requires 0 <= i < 8 => Octet(b)[i] && (i >= n || Octet(w)[i])));
  }

  lemma SameOctet(b: u8, c: u8)
    requires forall i :: 0 <= i < 8 ==> Octet(b)[i] == Octet(c)[i]
    ensures b == c
  {
    assert Octet(b) == Octet(c);
    FromOfOctet(b);
    FromOfOctet(c);
  }

  lemma OctetConstants()
    ensures forall i :: 0 <= i < 8 ==> Octet(255)[i] && !Octet(0)[i]
  {
    assert Octet(255) == [true, true, true, true, true, true, true, true];
    assert Octet(0) == [false, false, false, false, false, false, false, false];
  }

  lemma SetNoBits(b: u8, n: int)
    requires n <= 0
    ensures SetBits(b, n) == b
  {
    SetBitsOctet(b, n);
    SameOctet(SetBits(b, n), b);
  }

  lemma SetAllBits(b: u8, n: int)
    requires n >= 8 || b == 255
    ensures SetBits(b, n) == 255
  {
    SetBitsOctet(b, n);
    OctetConstants();
    SameOctet(SetBits(b, n), 255);
  }

  lemma ClearNoBits(b: u8, w: u8, n: int)
    requires n <= 0
    ensures ClearBits(b, w, n) == b
  {
    ClearBitsOctet(b, w, n);
    SameOctet(ClearBits(b, w, n), b);
  }

  lemma ClearAllBits(b: u8, w: u8, n: int)
    requires n >= 8 && Clearable(b, w)
    ensures ClearBits(b, w, n) == w
  {
    ClearBitsOctet(b, w, n);
    SameOctet(ClearBits(b, w, n), w);
  }

  lemma ErasedIsClearable(w: u8)
    ensures Clearable(255, w)
  {
    OctetConstants();
  }

  lemma ClearSomeOfErased(w: u8, n: int)
    requires n < 8
    ensures ClearBits(255, w, n) != 0
  {
    ClearBitsOctet(255, w, n);
    OctetConstants();
    assert Octet(ClearBits(255, w, n))[7];
  }

  // ---- whole memories ----

  /** The first n bits of the page at offset at have been erased. */
  function TornErase(mem: seq<u8>, at: int, n: nat): (r: seq<u8>)
    ensures |r| == |mem|
  {
    seq(|mem|, i requires 0 <= i < |mem| =>
      if at <= i < at + PAGE_BYTES then SetBits(mem[i], n - 8 * (i - at)) else mem[i])
  }

  /** The first n bits of the four bytes at offset at have been programmed. */
  function TornProgram(mem: seq<u8>, at: int, bytes: seq<u8>, n: nat): (r: seq<u8>)
    requires |bytes| == 4
    ensures |r| == |mem|
  {
    seq(|mem|, i requires 0 <= i < |mem| =>
      if at <= i < at + 4 then ClearBits(mem[i], bytes[i - at], n - 8 * (i - at)) else mem[i])
  }

  predicate Programmable(mem: seq<u8>, at: nat, bytes: seq<u8>) {
    at + 4 <= |mem| && |bytes| == 4 && forall i :: at <= i < at + 4 ==> Clearable(mem[i], bytes[i - at])
  }

  predicate PageAddress(address: nat) {
    FLASH_FIRST <= address && address + PAGE_BYTES <= FLASH_END && address % PAGE_BYTES == 0
  }

  predicate WordAddress(address: nat) {
    FLASH_FIRST <= address && address + 4 <= FLASH_END && address % 4 == 0
  }

  /** What a program may do, and what its result says of it: the relation that every user of the flash rests on. */
  ghost predicate ProgramOutcome(before: seq<u8>, after: seq<u8>, address: nat, word: u32, wasBlocked: bool, isBlocked: bool,
                                 silent: bool, ok: bool, done: nat) {
    && done <= WORD_BITS && (done == 0 ==> after == before) && (wasBlocked ==> isBlocked)
    && (wasBlocked || !WordAddress(address) ==> !ok && after == before)
    && (WordAddress(address) ==>
          && after == TornProgram(before, address - FLASH_FIRST, Put32(word), done)
          && (!Programmable(before, address - FLASH_FIRST, Put32(word)) ==> !ok))
    && (ok ==> !isBlocked && (done == WORD_BITS || (silent && done == 0)))
  }

  /** The same for an erase. */
  ghost predicate EraseOutcome(before: seq<u8>, after: seq<u8>, address: nat, wasBlocked: bool, isBlocked: bool, silent: bool,
                               ok: bool, done: nat) {
    && done <= PAGE_BITS && (done == 0 ==> after == before) && (wasBlocked ==> isBlocked)
    && (wasBlocked || !PageAddress(address) ==> !ok && after == before)
    && (PageAddress(address) ==> after == TornErase(before, address - FLASH_FIRST, done))
    && (ok ==> !isBlocked && (done == PAGE_BITS || (silent && done == 0)))
  }

  /** The two metadata pages and both image slots. */
  class Device {
    const mem: array<u8>
    /** Whether a program may be dropped yet reported as done. */
    const silentPrograms: bool
    /** Whether a read may return a wrong first byte yet report success. */
    const fabricatedReads: bool
    /** Whether an erase may be dropped yet reported as done. */
    const silentErases: bool
    /** Set while an earlier command may still be in flight: everything is refused. */
    var blocked: bool
    /** How many calls so far have failed, stopped short or misreported. */
    ghost var faults: nat

    constructor (silentPrograms: bool, fabricatedReads: bool, silentErases: bool)
      requires !(fabricatedReads && silentErases)
      ensures Sized() && this.silentErases == silentErases
      ensures fresh(mem) && mem.Length == FLASH_BYTES && !blocked && faults == 0
      ensures this.silentPrograms == silentPrograms && this.fabricatedReads == fabricatedReads
      ensures forall i :: 0 <= i < mem.Length ==> mem[i] == 0xff
    {
      mem := new u8[FLASH_BYTES](_ => 0xff);
      this.silentPrograms := silentPrograms;
      this.fabricatedReads, this.silentErases := fabricatedReads, silentErases;
      blocked := false;
      faults := 0;
    }

    /** Whether anything may be dropped unnoticed. */
    predicate Silent() { silentPrograms || silentErases }

    /** The flash has its size, and does not both drop erases and lie about what is there. */
    ghost predicate Sized() { mem.Length == FLASH_BYTES && !(fabricatedReads && silentErases) }

    ghost function Memory(): (m: seq<u8>)
      reads mem
    {
      mem[..]
    }

    /** flipped tells whether the first byte was fabricated. */
    method Read(address: nat, size: nat) returns (ok: bool, bytes: seq<u8>, ghost flipped: bool)
      requires Sized()
      modifies this
      ensures ok ==> !old(blocked) && !blocked && FLASH_FIRST <= address && address + size <= FLASH_END && size > 0
      ensures old(blocked) ==> blocked
      ensures flipped ==> fabricatedReads
      ensures ok ==> bytes == Seen(Memory()[address - FLASH_FIRST..address - FLASH_FIRST + size], flipped)
      ensures faults >= old(faults) && (flipped ==> faults > old(faults))
      ensures faults == old(faults) ==> blocked == old(blocked)
      ensures (&& faults == old(faults) && !old(blocked)
               && FLASH_FIRST <= address && address + size <= FLASH_END && size > 0) ==> ok
    {
      bytes, flipped := [], false;
      if blocked || address < FLASH_FIRST || size == 0 || address + size > FLASH_END { return false, bytes, false; }
      ok := *;
      if !ok {
        blocked := *;
        faults := faults + 1;
        return;
      }
      bytes := mem[address - FLASH_FIRST..address - FLASH_FIRST + size];
      var lie: bool := *;
      if lie && fabricatedReads {
        flipped := true;
        faults := faults + 1;
        bytes := Seen(bytes, true);
      }
    }

    /** The bit loop of an erase. */
    method EraseBits(at: nat, cut: nat)
      requires at + PAGE_BYTES <= mem.Length && cut <= PAGE_BITS
      modifies mem
      ensures Memory() == TornErase(old(Memory()), at, cut)
    {
      EraseNothing(Memory(), at);
      for bit := 0 to cut
        invariant Memory() == TornErase(old(Memory()), at, bit)
      {
        ghost var before := Memory();
        EraseOneMore(old(Memory()), at, bit);
        var next := FromOctet(Octet(mem[at + bit / 8])[bit % 8 := true]);
        mem[at + bit / 8] := next;
        assert Memory() == before[at + bit / 8 := next];
      }
    }

    /** An erase, cut short by a fault, or reported as failed after full effect. */
    method Erase(address: nat) returns (ok: bool, ghost done: nat)
      requires Sized()
      modifies this, mem
      ensures EraseOutcome(old(Memory()), Memory(), address, old(blocked), blocked, silentErases, ok, done)
      ensures faults >= old(faults) && (faults == old(faults) && !old(blocked) && PageAddress(address) ==> ok && done == PAGE_BITS)
    {
      ok, done := false, 0;
      EraseNothing(Memory(), address - FLASH_FIRST);
      if blocked || !PageAddress(address) { return; }
      ok := *;
      var cut: nat := *;
      if cut > PAGE_BITS || (ok && !(silentErases && cut == 0)) { cut := PAGE_BITS; }
      EraseBits(address - FLASH_FIRST, cut);
      done := cut;
      if !ok { blocked := *; }
      if !ok || cut != PAGE_BITS { faults := faults + 1; }
    }

    /** The bit loop of a program. */
    method ProgramBits(at: nat, bytes: seq<u8>, cut: nat)
      requires at + 4 <= mem.Length && |bytes| == 4 && cut <= WORD_BITS
      modifies mem
      ensures Memory() == TornProgram(old(Memory()), at, bytes, cut)
    {
      ProgramNothing(Memory(), at, bytes);
      for bit := 0 to cut
        invariant Memory() == TornProgram(old(Memory()), at, bytes, bit)
      {
        ProgramBit(at, bytes, bit, old(Memory()));
      }
    }

    method ProgramBit(at: nat, bytes: seq<u8>, bit: nat, ghost start: seq<u8>)
      requires at + 4 <= mem.Length && |bytes| == 4 && bit < WORD_BITS && |start| == mem.Length
      requires Memory() == TornProgram(start, at, bytes, bit)
      modifies mem
      ensures Memory() == TornProgram(start, at, bytes, bit + 1)
    {
      ghost var before := Memory();
      ProgramOneMore(start, before, at, bytes, bit);
      if !Octet(bytes[bit / 8])[bit % 8] {
        var next := FromOctet(Octet(mem[at + bit / 8])[bit % 8 := false]);
        mem[at + bit / 8] := next;
        assert Memory() == before[at + bit / 8 := next];
      }
    }

    /** No bit of the word would have to be set. */
    method OnlyClears(at: nat, bytes: seq<u8>) returns (clear: bool)
      requires at + 4 <= mem.Length && |bytes| == 4
      ensures clear <==> Programmable(Memory(), at, bytes)
    {
      for j := 0 to 4
        invariant forall i :: at <= i < at + j ==> Clearable(Memory()[i], bytes[i - at])
      {
        assert Memory()[at + j] == mem[at + j];
        if !Clearable(mem[at + j], bytes[j]) {
          assert !Clearable(Memory()[at + j], bytes[at + j - at]);
          return false;
        }
      }
      return true;
    }

    /** A program, cut short, dropped, or reported as failed after full effect. */
    method Program(address: nat, word: u32) returns (ok: bool, ghost done: nat)
      requires Sized()
      modifies this, mem
      ensures ProgramOutcome(old(Memory()), Memory(), address, word, old(blocked), blocked, silentPrograms, ok, done)
      ensures faults >= old(faults)
      ensures (&& faults == old(faults) && !old(blocked) && WordAddress(address)
               && Programmable(old(Memory()), address - FLASH_FIRST, Put32(word))) ==> ok && done == WORD_BITS
    {
      ok, done := false, 0;
      ProgramNothing(Memory(), address - FLASH_FIRST, Put32(word));
      if WordAddress(address) { ok, done := ProgramBytes(address - FLASH_FIRST, Put32(word)); }
    }

    method ProgramBytes(at: nat, bytes: seq<u8>) returns (ok: bool, ghost done: nat)
      requires at + 4 <= mem.Length && |bytes| == 4
      modifies this, mem
      ensures old(blocked) || !Programmable(old(Memory()), at, bytes) ==> !ok && done == 0
      ensures done <= WORD_BITS && (ok ==> !blocked && (done == WORD_BITS || (silentPrograms && done == 0)))
      ensures old(blocked) ==> blocked
      ensures done == 0 ==> Memory() == old(Memory())
      ensures Memory() == TornProgram(old(Memory()), at, bytes, done)
      ensures faults >= old(faults)
      ensures (faults == old(faults) && !old(blocked) && Programmable(old(Memory()), at, bytes)) ==>
                ok && done == WORD_BITS
    {
      ok, done := false, 0;
      ProgramNothing(Memory(), at, bytes);
      if blocked { return; }
      var clear := OnlyClears(at, bytes);
      if clear { ok, done := Issue(at, bytes); }
    }

    method Issue(at: nat, bytes: seq<u8>) returns (ok: bool, ghost done: nat)
      requires at + 4 <= mem.Length && |bytes| == 4 && !blocked
      modifies this, mem
      ensures done <= WORD_BITS && (ok ==> !blocked && (done == WORD_BITS || (silentPrograms && done == 0)))
      ensures done == 0 ==> Memory() == old(Memory())
      ensures Memory() == TornProgram(old(Memory()), at, bytes, done)
      ensures faults >= old(faults) && (faults == old(faults) ==> ok && done == WORD_BITS)
    {
      ok := *;
      var silent: bool := *;
      var cut: nat := *;
      if ok { cut := if silent && silentPrograms then 0 else WORD_BITS; }
      if cut > WORD_BITS { cut := WORD_BITS; }
      ProgramNothing(Memory(), at, bytes);
      ProgramBits(at, bytes, cut);
      done := cut;
      if !ok { blocked := *; }
      if !ok || done == 0 { faults := faults + 1; }
    }
  }

  /** A read with or without a fabricated first bit. */
  function Seen(bytes: seq<u8>, flipped: bool): (r: seq<u8>)
    ensures |r| == |bytes|
  {
    if flipped && bytes != [] then [if bytes[0] % 2 == 0 then bytes[0] + 1 else bytes[0] - 1] + bytes[1..] else bytes
  }

  lemma EraseNothing(mem: seq<u8>, at: int)
    ensures TornErase(mem, at, 0) == mem
  {
    forall i | 0 <= i < |mem| ensures TornErase(mem, at, 0)[i] == mem[i] {
      if at <= i < at + PAGE_BYTES { SetNoBits(mem[i], 0 - 8 * (i - at)); }
    }
  }

  lemma EraseOneMore(mem: seq<u8>, at: nat, bit: nat)
    requires at + PAGE_BYTES <= |mem| && bit < PAGE_BITS
    ensures var before := TornErase(mem, at, bit);
            TornErase(mem, at, bit + 1) ==
            before[at + bit / 8 := FromOctet(Octet(before[at + bit / 8])[bit % 8 := true])]
  {
    var before, after := TornErase(mem, at, bit), TornErase(mem, at, bit + 1);
    var k := at + bit / 8;
    var stepped := FromOctet(Octet(before[k])[bit % 8 := true]);
    forall i | 0 <= i < |mem| ensures after[i] == before[k := stepped][i] {
      if at <= i < at + PAGE_BYTES {
        var n := bit - 8 * (i - at);
        SetBitsOctet(mem[i], n);
        SetBitsOctet(mem[i], n + 1);
        if i == k {
          OctetOfFrom(Octet(before[k])[bit % 8 := true]);
          assert n == bit % 8;
          SameOctet(after[i], stepped);
        } else {
          assert n >= 8 || n + 1 <= 0;
          SameOctet(after[i], before[i]);
        }
      }
    }
  }

  lemma ProgramNothing(mem: seq<u8>, at: int, bytes: seq<u8>)
    requires |bytes| == 4
    ensures TornProgram(mem, at, bytes, 0) == mem
  {
    forall i | 0 <= i < |mem| ensures TornProgram(mem, at, bytes, 0)[i] == mem[i] {
      if at <= i < at + 4 { ClearNoBits(mem[i], bytes[i - at], 0 - 8 * (i - at)); }
    }
  }

  lemma ProgramOneMore(mem: seq<u8>, before: seq<u8>, at: nat, bytes: seq<u8>, bit: nat)
    requires at + 4 <= |mem| && |bytes| == 4 && bit < WORD_BITS
    requires before == TornProgram(mem, at, bytes, bit)
    ensures TornProgram(mem, at, bytes, bit + 1) ==
            if Octet(bytes[bit / 8])[bit % 8] then before
            else before[at + bit / 8 := FromOctet(Octet(before[at + bit / 8])[bit % 8 := false])]
  {
    var after := TornProgram(mem, at, bytes, bit + 1);
    var k := at + bit / 8;
    var keep := Octet(bytes[bit / 8])[bit % 8];
    var stepped := FromOctet(Octet(before[k])[bit % 8 := false]);
    var goal := if keep then before else before[k := stepped];
    forall i | 0 <= i < |mem| ensures after[i] == goal[i] {
      if at <= i < at + 4 {
        var n, w := bit - 8 * (i - at), bytes[i - at];
        ClearBitsOctet(mem[i], w, n);
        ClearBitsOctet(mem[i], w, n + 1);
        if i == k {
          OctetOfFrom(Octet(before[k])[bit % 8 := false]);
          assert n == bit % 8;
          SameOctet(after[i], goal[i]);
        } else {
          assert n >= 8 || n + 1 <= 0;
          SameOctet(after[i], before[i]);
        }
      }
    }
  }

  /** A complete program of programmable bytes stores exactly those bytes. */
  lemma ProgramAll(mem: seq<u8>, at: nat, bytes: seq<u8>)
    requires Programmable(mem, at, bytes)
    ensures forall i {:trigger TornProgram(mem, at, bytes, WORD_BITS)[i]} :: 0 <= i < |mem| ==>
      TornProgram(mem, at, bytes, WORD_BITS)[i] == if at <= i < at + 4 then bytes[i - at] else mem[i]
  {
    forall i {:trigger TornProgram(mem, at, bytes, WORD_BITS)[i]} | 0 <= i < |mem|
      ensures TornProgram(mem, at, bytes, WORD_BITS)[i] == if at <= i < at + 4 then bytes[i - at] else mem[i]
    {
      if at <= i < at + 4 {
        assert Clearable(mem[i], bytes[i - at]);
        ClearAllBits(mem[i], bytes[i - at], 32 - 8 * (i - at));
      }
    }
  }

  /** A complete erase leaves ones, and only on its page. */
  lemma EraseAll(mem: seq<u8>, at: nat)
    ensures forall i :: 0 <= i < |mem| ==>
      TornErase(mem, at, PAGE_BITS)[i] == if at <= i < at + PAGE_BYTES then 255 else mem[i]
  {
    forall i | 0 <= i < |mem|
      ensures TornErase(mem, at, PAGE_BITS)[i] == if at <= i < at + PAGE_BYTES then 255 else mem[i]
    {
      if at <= i < at + PAGE_BYTES { SetAllBits(mem[i], PAGE_BITS - 8 * (i - at)); }
    }
  }
}
