/** The durable metadata store: two pages, commit word last, and what survives a cut anywhere. */
module Store {
  import opened Bytes
  import opened Format
  import opened Codec
  import opened Flash

  datatype StoreStatus =
    | ARGUMENT | INVALID_RECORD | NO_RECORD | CONFLICT | STORE_EXHAUSTED | SEQUENCE | STALE | IO | VERIFY | UNCERTAIN

  datatype Snapshot = Snapshot(record: Metadata, page: nat)

  datatype StoreResult = Stored(snapshot: Snapshot) | Failed(status: StoreStatus)

  const METADATA_REGION: nat := 2 * PAGE_BYTES

  function PageAddressOf(page: nat): nat { FLASH_FIRST + PAGE_BYTES * page }

  /** The bytes of a page that the codec reads. */
  function Prefix(mem: seq<u8>, page: nat): (w: seq<u8>)
    requires page <= 1 && |mem| >= METADATA_REGION
    ensures |w| == METADATA_BYTES
  {
    mem[PAGE_BYTES * page..PAGE_BYTES * page + METADATA_BYTES]
  }

  function LoadPrefixes(w0: seq<u8>, w1: seq<u8>): StoreResult {
    match SelectPage(w0, w1)
    case NoRecord => Failed(NO_RECORD)
    case Conflict => Failed(CONFLICT)
    case Selected(record, page) => Stored(Snapshot(record, page))
  }

  /** What a load that reads the true bytes returns. */
  function Load(mem: seq<u8>): StoreResult
    requires |mem| >= METADATA_REGION
  {
    LoadPrefixes(Prefix(mem, 0), Prefix(mem, 1))
  }

  /** No erase, however far it gets, can turn the page into a record it did not hold. */
  predicate Settled(w: seq<u8>)
    requires |w| == METADATA_BYTES
  {
    Record(w).Ok? || Record(w[0 := SetBits(w[0], 1)]).Err?
  }

  predicate Sound(mem: seq<u8>) {
    && |mem| >= METADATA_REGION
    && Load(mem).Stored?
    && Settled(Prefix(mem, 0)) && Settled(Prefix(mem, 1))
  }

  function TornPrefix(w: seq<u8>, n: nat): (r: seq<u8>)
    ensures |r| == |w|
  {
    seq(|w|, i requires 0 <= i < |w| => SetBits(w[i], n - 8 * i))
  }

  lemma MagicBits()
    ensures Octet(0x41)[0] && !Octet(0x41)[1]
    ensures SetBits(0x41, 1) == 0x41
  {
    Bits41();
    SetBitsOctet(0x41, 1);
    SameOctet(SetBits(0x41, 1), 0x41);
  }

  lemma CommitSetNeverDecodes(w: seq<u8>)
    requires |w| == METADATA_BYTES && Get32(w, 164) != 0
    ensures Record(w).Err? && Settled(w)
  {
    var u := w[0 := SetBits(w[0], 1)];
    assert Get32(u, 164) == Get32(w, 164);
    if Record(w).Ok? { RecordMarks(w); }
    if Record(u).Ok? { RecordMarks(u); }
  }

  lemma OneBit(w: seq<u8>)
    requires |w| == METADATA_BYTES
    ensures TornPrefix(w, 1) == w[0 := SetBits(w[0], 1)] && TornPrefix(w, 0) == w
  {
    forall i | 0 <= i < |w|
      ensures TornPrefix(w, 1)[i] == w[0 := SetBits(w[0], 1)][i] && TornPrefix(w, 0)[i] == w[i]
    {
      SetNoBits(w[i], 0 - 8 * i);
      if i != 0 { SetNoBits(w[i], 1 - 8 * i); }
    }
  }

  lemma TwoBits(w: seq<u8>, n: nat)
    requires |w| == METADATA_BYTES && n >= 2
    ensures Record(TornPrefix(w, n)).Err? && Settled(TornPrefix(w, n))
  {
    var t := TornPrefix(w, n);
    var u := t[0 := SetBits(t[0], 1)];
    SetBitsOctet(w[0], n);
    SetBitsOctet(t[0], 1);
    MagicBits();
    if Record(t).Ok? { RecordMarks(t); }
    if Record(u).Ok? { RecordMarks(u); }
  }

  /** A settled page stays settled under any torn erase, and keeps its record or loses it. */
  lemma SettledUnderErase(w: seq<u8>, n: nat)
    requires |w| == METADATA_BYTES && Settled(w)
    ensures Settled(TornPrefix(w, n))
    ensures Record(TornPrefix(w, n)).Ok? ==> TornPrefix(w, n) == w
  {
    OneBit(w);
    if n >= 2 {
      TwoBits(w, n);
    } else if n == 1 {
      var t := TornPrefix(w, 1);
      SetBitsOctet(w[0], 1);
      SetBitsOctet(t[0], 1);
      SameOctet(SetBits(t[0], 1), t[0]);
      assert t[0 := SetBits(t[0], 1)] == t;
      if Record(w).Ok? {
        RecordMarks(w);
        MagicBits();
        assert t == w;
      }
    }
  }

  /** Being settled is exactly what keeps every torn erase from inventing a record. */
  lemma SettledExactly(w: seq<u8>)
    requires |w| == METADATA_BYTES
    ensures Settled(w) <==> forall n: nat {:trigger TornPrefix(w, n)} ::
              Record(TornPrefix(w, n)).Ok? ==> Record(TornPrefix(w, n)) == Record(w)
  {
    OneBit(w);
    if Settled(w) {
      forall n: nat {:trigger TornPrefix(w, n)} | Record(TornPrefix(w, n)).Ok?
        ensures Record(TornPrefix(w, n)) == Record(w)
      {
        SettledUnderErase(w, n);
      }
    }
  }

  // ---- the other page ----

  /** Load depends on the authoritative page, and on the other one only if it decodes. */
  lemma LoadIgnores(mem: seq<u8>, after: seq<u8>, page: nat)
    requires |mem| == |after| && |mem| >= METADATA_REGION && page <= 1
    requires Load(mem).Stored? && Load(mem).snapshot.page == 1 - page
    requires Prefix(after, 1 - page) == Prefix(mem, 1 - page)
    requires Record(Prefix(after, page)).Ok? ==> Prefix(after, page) == Prefix(mem, page)
    ensures Load(after) == Load(mem)
  {}

  lemma LoadNew(mem: seq<u8>, after: seq<u8>, page: nat, desired: Metadata)
    requires |mem| == |after| && |mem| >= METADATA_REGION && page <= 1
    requires Load(mem).Stored? && Load(mem).snapshot.page == 1 - page
    requires Prefix(after, 1 - page) == Prefix(mem, 1 - page)
    requires Valid(desired) && Prefix(after, page) == Encoding(desired, COMMIT_VALID)
    requires desired.sequence == Load(mem).snapshot.record.sequence + 1
    ensures Load(after) == Stored(Snapshot(desired, page)) && Record(Prefix(after, page)).Ok?
  {
    RecordIsEncoding(Prefix(after, page), desired);
  }

  lemma ErasePrefixes(mem: seq<u8>, page: nat, n: nat)
    requires page <= 1 && |mem| >= METADATA_REGION
    ensures var after := TornErase(mem, PAGE_BYTES * page, n);
            && Prefix(after, page) == TornPrefix(Prefix(mem, page), n)
            && Prefix(after, 1 - page) == Prefix(mem, 1 - page)
  {
    var after := TornErase(mem, PAGE_BYTES * page, n);
    forall i | 0 <= i < METADATA_BYTES
      ensures Prefix(after, page)[i] == TornPrefix(Prefix(mem, page), n)[i]
    {
      assert Prefix(after, page)[i] == after[PAGE_BYTES * page + i];
    }
  }

  /** Any torn erase of the page that is not authoritative. */
  lemma EraseIsSafe(mem: seq<u8>, page: nat, n: nat)
    requires Sound(mem) && page <= 1 && Load(mem).snapshot.page == 1 - page
    ensures Sound(TornErase(mem, PAGE_BYTES * page, n))
    ensures Load(TornErase(mem, PAGE_BYTES * page, n)) == Load(mem)
  {
    var after := TornErase(mem, PAGE_BYTES * page, n);
    ErasePrefixes(mem, page, n);
    SettledUnderErase(Prefix(mem, page), n);
    LoadIgnores(mem, after, page);
  }

  /** Nothing worse comes back with the first bit of the other page than a record that the load passes over. */
  predicate Harmless(mem: seq<u8>, s: Snapshot)
    requires |mem| >= METADATA_REGION && s.page <= 1
  {
    var w := Prefix(mem, 1 - s.page);
    var u := w[0 := SetBits(w[0], 1)];
    Settled(w) || Record(u).value.sequence < s.record.sequence || (s.page == 0 && u == Prefix(mem, 0))
  }

  /** That is exactly what it takes for a load to survive every torn erase of the other page. */
  lemma LoadSurvivesExactly(mem: seq<u8>, s: Snapshot)
    requires |mem| >= METADATA_REGION && Load(mem) == Stored(s)
    ensures Harmless(mem, s) <==> forall n: nat {:trigger TornErase(mem, PAGE_BYTES * (1 - s.page), n)} ::
              Load(TornErase(mem, PAGE_BYTES * (1 - s.page), n)) == Load(mem)
  {
    var page := 1 - s.page;
    var w := Prefix(mem, page);
    OneBit(w);
    if Harmless(mem, s) {
      forall n: nat {:trigger TornErase(mem, PAGE_BYTES * page, n)}
        ensures Load(TornErase(mem, PAGE_BYTES * page, n)) == Load(mem)
      {
        ErasePrefixes(mem, page, n);
        if Settled(w) { SettledUnderErase(w, n); }
        if n >= 2 { TwoBits(w, n); }
        if n != 1 || Settled(w) { LoadIgnores(mem, TornErase(mem, PAGE_BYTES * page, n), page); }
      }
    } else {
      ErasePrefixes(mem, page, 1);
      assert Load(TornErase(mem, PAGE_BYTES * page, 1)) != Load(mem);
    }
  }

  /** Any change of that page that leaves its commit word non-zero. */
  lemma StagingIsSafe(mem: seq<u8>, after: seq<u8>, page: nat)
    requires Sound(mem) && page <= 1 && Load(mem).snapshot.page == 1 - page && |after| == |mem|
    requires Prefix(after, 1 - page) == Prefix(mem, 1 - page)
    requires Get32(Prefix(after, page), 164) != 0
    ensures Sound(after) && Load(after) == Load(mem)
  {
    CommitSetNeverDecodes(Prefix(after, page));
    LoadIgnores(mem, after, page);
  }

  /** Staged up to byte i: each byte wanted or still erased, the rest erased. */
  predicate Staged(base: seq<u8>, mem: seq<u8>, page: nat, wanted: seq<u8>, i: nat)
    requires page <= 1 && |base| >= METADATA_REGION && |wanted| == METADATA_BYTES
  {
    var lo := PAGE_BYTES * page;
    && |mem| == |base|
    && (forall k :: 0 <= k < |mem| && !(lo <= k < lo + PAGE_BYTES) ==> mem[k] == base[k])
    && (forall k :: lo <= k < lo + i && k < lo + METADATA_BYTES ==> mem[k] == wanted[k - lo] || mem[k] == 255)
    && (forall k :: lo + i <= k < lo + PAGE_BYTES ==> mem[k] == 255)
  }

  lemma StagedIsSafe(base: seq<u8>, mem: seq<u8>, page: nat, wanted: seq<u8>, i: nat)
    requires Sound(base) && page <= 1 && Load(base).snapshot.page == 1 - page
    requires |wanted| == METADATA_BYTES && i <= 164 && Staged(base, mem, page, wanted, i)
    ensures Sound(mem) && Load(mem) == Load(base)
  {
    assert Prefix(mem, page)[164] == mem[PAGE_BYTES * page + 164] == 255;
    NonzeroWord(Prefix(mem, page), 164, 164);
    StagingIsSafe(base, mem, page);
  }

  lemma ErasedIsStaged(base: seq<u8>, page: nat, wanted: seq<u8>)
    requires page <= 1 && |base| >= METADATA_REGION && |wanted| == METADATA_BYTES
    ensures Staged(base, TornErase(base, PAGE_BYTES * page, PAGE_BITS), page, wanted, 0)
  {
    EraseAll(base, PAGE_BYTES * page);
  }

  lemma StagedBefore(base: seq<u8>, mem: seq<u8>, page: nat, wanted: seq<u8>, i: nat)
    requires page <= 1 && |base| >= METADATA_REGION && |wanted| == METADATA_BYTES
    requires i + 4 <= METADATA_BYTES && Staged(base, mem, page, wanted, i)
    ensures Staged(base, mem, page, wanted, i + 4)
    ensures forall k :: PAGE_BYTES * page + i <= k < PAGE_BYTES * page + i + 4 ==> mem[k] == 255
  {}

  lemma StageWord(base: seq<u8>, mem: seq<u8>, page: nat, wanted: seq<u8>, i: nat)
    requires page <= 1 && |base| >= METADATA_REGION && |wanted| == METADATA_BYTES
    requires i + 4 <= METADATA_BYTES && Staged(base, mem, page, wanted, i)
    ensures Programmable(mem, PAGE_BYTES * page + i, wanted[i..i + 4])
    ensures Staged(base, mem, page, wanted, i + 4)
  {
    StagedBefore(base, mem, page, wanted, i);
    ErasedTakesAnything(mem, PAGE_BYTES * page + i, wanted[i..i + 4]);
  }

  lemma ErasedTakesAnything(mem: seq<u8>, at: nat, bytes: seq<u8>)
    requires |bytes| == 4 && at + 4 <= |mem| && forall k :: at <= k < at + 4 ==> mem[k] == 255
    ensures Programmable(mem, at, bytes)
  {
    forall k | at <= k < at + 4 ensures Clearable(mem[k], bytes[k - at]) {
      ErasedIsClearable(bytes[k - at]);
    }
  }

  /** The word at i of the page now holds the wanted bytes, all else as before. */
  predicate WordWritten(mem: seq<u8>, after: seq<u8>, page: nat, wanted: seq<u8>, i: nat)
    requires |wanted| == METADATA_BYTES
  {
    var lo := PAGE_BYTES * page;
    && |after| == |mem| && page <= 1 && i + 4 <= METADATA_BYTES
    && forall k :: 0 <= k < |mem| ==> after[k] == if lo + i <= k < lo + i + 4 then wanted[k - lo] else mem[k]
  }

  lemma ProgramWrites(mem: seq<u8>, page: nat, wanted: seq<u8>, i: nat)
    requires page <= 1 && |mem| >= METADATA_REGION && |wanted| == METADATA_BYTES && i + 4 <= METADATA_BYTES
    requires Programmable(mem, PAGE_BYTES * page + i, wanted[i..i + 4])
    ensures WordWritten(mem, TornProgram(mem, PAGE_BYTES * page + i, wanted[i..i + 4], WORD_BITS), page, wanted, i)
  {
    ProgramAll(mem, PAGE_BYTES * page + i, wanted[i..i + 4]);
  }

  lemma StagedWord(base: seq<u8>, mem: seq<u8>, after: seq<u8>, page: nat, wanted: seq<u8>, i: nat)
    requires page <= 1 && |base| >= METADATA_REGION && |wanted| == METADATA_BYTES
    requires i + 4 <= METADATA_BYTES && Staged(base, mem, page, wanted, i)
    requires WordWritten(mem, after, page, wanted, i)
    ensures Staged(base, after, page, wanted, i + 4)
    ensures WantedTo(mem, page, wanted, i) ==> WantedTo(after, page, wanted, i + 4)
  {}

  /** A staging program cut anywhere. */
  lemma StagingProgramIsSafe(base: seq<u8>, mem: seq<u8>, page: nat, wanted: seq<u8>, i: nat, n: nat)
    requires Sound(base) && page <= 1 && Load(base).snapshot.page == 1 - page
    requires |wanted| == METADATA_BYTES && i + 4 <= 164 && Staged(base, mem, page, wanted, i)
    ensures var after := TornProgram(mem, PAGE_BYTES * page + i, wanted[i..i + 4], n);
            Sound(after) && Load(after) == Load(base)
  {
    var after := TornProgram(mem, PAGE_BYTES * page + i, wanted[i..i + 4], n);
    assert Prefix(after, page)[164] == after[PAGE_BYTES * page + 164] == mem[PAGE_BYTES * page + 164] == 255;
    NonzeroWord(Prefix(after, page), 164, 164);
    StagingIsSafe(base, after, page);
  }

  /** The commit program cut anywhere: the old record until the last bit, then the new one. */
  lemma CommitIsAtomic(base: seq<u8>, mem: seq<u8>, page: nat, desired: Metadata, n: nat)
    requires Sound(base) && page <= 1 && Load(base).snapshot.page == 1 - page
    requires Valid(desired) && desired.sequence == Load(base).snapshot.record.sequence + 1
    requires Staged(base, mem, page, Encoding(desired, COMMIT_ERASED), 164)
    requires Prefix(mem, page) == Encoding(desired, COMMIT_ERASED) && n <= WORD_BITS
    ensures var after := TornProgram(mem, PAGE_BYTES * page + 164, Put32(COMMIT_VALID), n);
            && Sound(after)
            && Load(after) == (if n == WORD_BITS then Stored(Snapshot(desired, page)) else Load(base))
            && (n == WORD_BITS ==> Prefix(after, page) == Encoding(desired, COMMIT_VALID))
  {
    var after := TornProgram(mem, PAGE_BYTES * page + 164, Put32(COMMIT_VALID), n);
    assert Prefix(after, 1 - page) == Prefix(base, 1 - page);
    if n == WORD_BITS {
      CommitProgrammable(base, mem, page, Encoding(desired, COMMIT_ERASED));
      CommitDone(mem, page, desired);
      LoadNew(base, after, page, desired);
    } else {
      CommitProgrammable(base, mem, page, Encoding(desired, COMMIT_ERASED));
      CommitTorn(mem, page, n);
      StagingIsSafe(base, after, page);
    }
  }

  lemma CommitProgrammable(base: seq<u8>, mem: seq<u8>, page: nat, wanted: seq<u8>)
    requires page <= 1 && |base| >= METADATA_REGION && |wanted| == METADATA_BYTES
    requires Staged(base, mem, page, wanted, 164)
    ensures Programmable(mem, PAGE_BYTES * page + 164, Put32(COMMIT_VALID))
    ensures mem[PAGE_BYTES * page + 167] == 255
  {
    var at := PAGE_BYTES * page + 164;
    forall k | at <= k < at + 4 ensures Clearable(mem[k], Put32(COMMIT_VALID)[k - at]) {
      ErasedIsClearable(Put32(COMMIT_VALID)[k - at]);
    }
  }

  lemma CommitDone(mem: seq<u8>, page: nat, desired: Metadata)
    requires page <= 1 && |mem| >= METADATA_REGION && Programmable(mem, PAGE_BYTES * page + 164, Put32(COMMIT_VALID))
    requires Prefix(mem, page) == Encoding(desired, COMMIT_ERASED)
    ensures Prefix(TornProgram(mem, PAGE_BYTES * page + 164, Put32(COMMIT_VALID), WORD_BITS), page)
            == Encoding(desired, COMMIT_VALID)
  {
    var at := PAGE_BYTES * page + 164;
    var after := TornProgram(mem, at, Put32(COMMIT_VALID), WORD_BITS);
    ProgramAll(mem, at, Put32(COMMIT_VALID));
    var w := Prefix(after, page);
    forall k | 0 <= k < METADATA_BYTES
      ensures w[k] == if k < 164 then Prefix(mem, page)[k] else Put32(COMMIT_VALID)[k - 164]
    {
      assert w[k] == TornProgram(mem, at, Put32(COMMIT_VALID), WORD_BITS)[PAGE_BYTES * page + k];
    }
    assert w[..164] == Prefix(mem, page)[..164];
    assert w[164..] == Put32(COMMIT_VALID);
    EncodingCommit(desired, w);
  }

  /** The last byte of the commit word is the last to be cleared. */
  lemma CommitTorn(mem: seq<u8>, page: nat, n: nat)
    requires page <= 1 && |mem| >= METADATA_REGION && mem[PAGE_BYTES * page + 167] == 255 && n < WORD_BITS
    ensures Get32(Prefix(TornProgram(mem, PAGE_BYTES * page + 164, Put32(COMMIT_VALID), n), page), 164) != 0
  {
    var at := PAGE_BYTES * page + 164;
    var after := TornProgram(mem, at, Put32(COMMIT_VALID), n);
    var w := Prefix(after, page);
    ClearSomeOfErased(Put32(COMMIT_VALID)[3], n - 24);
    var k := at + 3;
    assert k - at == 3 && after[k] == ClearBits(mem[k], Put32(COMMIT_VALID)[k - at], n - 8 * (k - at));
    assert w[167] == after[k];
    NonzeroWord(w, 164, 167);
  }

  // ---- the durable snapshot ----

  /** The snapshot that the memory holds and will still hold after any cut of the next replacement, behind a
      descent that the verifier does not follow (see DurableOpen). */
  ghost function Durable(mem: seq<u8>): Option<Snapshot> { DurableBehind(mem, 2 + |mem|) }

  ghost function DurableBehind(mem: seq<u8>, depth: nat): Option<Snapshot> {
    if depth != 0 then DurableBehind(mem, depth - 1)
    else if Sound(mem) then Some(Load(mem).snapshot) else None
  }

  lemma DurableOpen(mem: seq<u8>)
    ensures Durable(mem) == if Sound(mem) then Some(Load(mem).snapshot) else None
  {
    DurableDescent(mem, 2 + |mem|);
  }

  lemma {:induction false} DurableDescent(mem: seq<u8>, depth: nat)
    ensures DurableBehind(mem, depth) == if Sound(mem) then Some(Load(mem).snapshot) else None
  {
    if depth != 0 { DurableDescent(mem, depth - 1); }
  }

  /** What is durable is what a load of the true bytes finds, a valid record on one of two pages. */
  lemma DurableLoads(mem: seq<u8>)
    requires Durable(mem).Some?
    ensures |mem| >= METADATA_REGION && Load(mem) == Stored(Durable(mem).value)
    ensures Valid(Durable(mem).value.record) && Durable(mem).value.page <= 1
  {
    DurableOpen(mem);
    RecordValid(Prefix(mem, Load(mem).snapshot.page));
  }

  lemma DurableUnderErase(mem: seq<u8>, page: nat, n: nat)
    requires Durable(mem).Some? && page <= 1 && Durable(mem).value.page == 1 - page
    ensures Durable(TornErase(mem, PAGE_BYTES * page, n)) == Durable(mem)
  {
    DurableOpen(mem);
    DurableOpen(TornErase(mem, PAGE_BYTES * page, n));
    EraseIsSafe(mem, page, n);
  }

  lemma DurableWhenStaged(base: seq<u8>, mem: seq<u8>, page: nat, wanted: seq<u8>, i: nat)
    requires Durable(base).Some? && page <= 1 && Durable(base).value.page == 1 - page
    requires |base| >= METADATA_REGION && |wanted| == METADATA_BYTES && i <= 164 && Staged(base, mem, page, wanted, i)
    ensures Durable(mem) == Durable(base)
  {
    DurableOpen(base);
    DurableOpen(mem);
    StagedIsSafe(base, mem, page, wanted, i);
  }

  lemma DurableUnderStaging(base: seq<u8>, mem: seq<u8>, page: nat, wanted: seq<u8>, i: nat, n: nat)
    requires Durable(base).Some? && page <= 1 && Durable(base).value.page == 1 - page
    requires |base| >= METADATA_REGION && |wanted| == METADATA_BYTES && i + 4 <= 164
    requires Staged(base, mem, page, wanted, i)
    ensures Durable(TornProgram(mem, PAGE_BYTES * page + i, wanted[i..i + 4], n)) == Durable(base)
  {
    DurableOpen(base);
    DurableOpen(TornProgram(mem, PAGE_BYTES * page + i, wanted[i..i + 4], n));
    StagingProgramIsSafe(base, mem, page, wanted, i, n);
  }

  lemma DurableUnderCommit(base: seq<u8>, mem: seq<u8>, page: nat, desired: Metadata, n: nat)
    requires Durable(base).Some? && page <= 1 && Durable(base).value.page == 1 - page && |base| >= METADATA_REGION
    requires Valid(desired) && desired.sequence == Durable(base).value.record.sequence + 1
    requires Staged(base, mem, page, Encoding(desired, COMMIT_ERASED), 164)
    requires Prefix(mem, page) == Encoding(desired, COMMIT_ERASED) && n <= WORD_BITS
    ensures var after := TornProgram(mem, PAGE_BYTES * page + 164, Put32(COMMIT_VALID), n);
            && Durable(after) == (if n == WORD_BITS then Some(Snapshot(desired, page)) else Durable(base))
            && (n == WORD_BITS ==> Prefix(after, page) == Encoding(desired, COMMIT_VALID))
  {
    DurableOpen(base);
    DurableOpen(TornProgram(mem, PAGE_BYTES * page + 164, Put32(COMMIT_VALID), n));
    CommitIsAtomic(base, mem, page, desired, n);
  }

  // ---- reads ----

  lemma FabricatedNeverDecodes(w: seq<u8>)
    requires |w| == METADATA_BYTES && Settled(w)
    ensures Record(Seen(w, true)).Err?
  {
    var f := Seen(w, true);
    if Record(f).Ok? {
      RecordMarks(f);
      FabricatedByte(w);
      SetLowestBit();
      if Record(w).Ok? { RecordMarks(w); }
    }
  }

  lemma FabricatedByte(w: seq<u8>)
    requires w != [] && Seen(w, true)[0] == 0x41
    ensures w[0] == 0x40 && Seen(w, true) == w[0 := 0x41]
  {}

  lemma SetLowestBit()
    ensures SetBits(0x40, 1) == 0x41
  {
    Bits40();
    Bits41();
    SetBitsOctet(0x40, 1);
    SameOctet(SetBits(0x40, 1), 0x41);
  }

  lemma Bits40()
    ensures Octet(0x40) == [false, false, false, false, false, false, true, false]
  {}

  lemma Bits41()
    ensures Octet(0x41) == [true, false, false, false, false, false, true, false]
  {}

  /** A load through fabricated reads may miss the newer record, but never invents one. */
  lemma FoundIsDurable(mem: seq<u8>, lie0: bool, lie1: bool)
    requires Durable(mem).Some? && |mem| >= METADATA_REGION
    ensures var r := LoadPrefixes(Seen(Prefix(mem, 0), lie0), Seen(Prefix(mem, 1), lie1));
            && (!lie0 && !lie1 ==> r == Stored(Durable(mem).value))
            && (r.Stored? && r.snapshot.page == Durable(mem).value.page ==> r.snapshot == Durable(mem).value)
  {
    DurableOpen(mem);
    FabricatedNeverDecodes(Prefix(mem, 0));
    FabricatedNeverDecodes(Prefix(mem, 1));
  }

  /** What a load returns if the first byte of either page may be wrong. */
  function LoadSeen(mem: seq<u8>, lie0: bool, lie1: bool): StoreResult
    requires |mem| >= METADATA_REGION
  {
    LoadPrefixes(Seen(Prefix(mem, 0), lie0), Seen(Prefix(mem, 1), lie1))
  }

  /** The caller's page still holds the caller's record. */
  predicate Passable(mem: seq<u8>, expected: Snapshot) {
    && |mem| >= METADATA_REGION && expected.page <= 1
    && Record(Prefix(mem, expected.page)) == Ok(expected.record)
  }

  /** A load finds the durable snapshot or one that is passable. */
  lemma FoundIsPassable(mem: seq<u8>, lie0: bool, lie1: bool)
    requires Durable(mem).Some? && |mem| >= METADATA_REGION
    ensures LoadSeen(mem, lie0, lie1).Stored? ==> Passable(mem, LoadSeen(mem, lie0, lie1).snapshot)
  {
    DurableOpen(mem);
    FabricatedNeverDecodes(Prefix(mem, 0));
    FabricatedNeverDecodes(Prefix(mem, 1));
  }

  /** A stale caller's snapshot is found by some load with wrong first bytes if and only if it is passable. */
  lemma PassableExactly(mem: seq<u8>, expected: Snapshot)
    requires Durable(mem).Some? && |mem| >= METADATA_REGION && Durable(mem) != Some(expected)
    ensures Passable(mem, expected) <==> exists lie0, lie1 :: LoadSeen(mem, lie0, lie1) == Stored(expected)
  {
    if Passable(mem, expected) {
      DurableOpen(mem);
      FabricatedNeverDecodes(Prefix(mem, 0));
      FabricatedNeverDecodes(Prefix(mem, 1));
      assert LoadSeen(mem, expected.page == 1, expected.page == 0) == Stored(expected);
    } else {
      forall lie0, lie1 ensures LoadSeen(mem, lie0, lie1) != Stored(expected) { FoundIsPassable(mem, lie0, lie1); }
    }
  }

  /** boot_store_load. */
  method LoadStore(dev: Device) returns (r: StoreResult)
    requires dev.Sized()
    modifies dev
    ensures r != Failed(IO) ==> !dev.blocked && !old(dev.blocked)
    ensures r.Failed? ==> r.status in {IO, NO_RECORD, CONFLICT}
    ensures old(dev.blocked) ==> dev.blocked
    ensures dev.faults >= old(dev.faults)
    ensures dev.faults == old(dev.faults) && !old(dev.blocked) ==> r == Load(dev.Memory())
    ensures !dev.fabricatedReads ==> r == Failed(IO) || r == Load(dev.Memory())
    ensures r.Stored? && Durable(dev.Memory()).Some? && r.snapshot.page == Durable(dev.Memory()).value.page ==>
              r.snapshot == Durable(dev.Memory()).value
    ensures r.Stored? && Durable(dev.Memory()).Some? ==> Passable(dev.Memory(), r.snapshot)
  {
    var ok, page0, page1; ghost var lie0, lie1;
    ok, page0, lie0 := dev.Read(PageAddressOf(0), METADATA_BYTES);
    if !ok { return Failed(IO); }
    ok, page1, lie1 := dev.Read(PageAddressOf(1), METADATA_BYTES);
    if !ok { return Failed(IO); }
    r := LoadPrefixes(page0, page1);
    if Durable(dev.Memory()).Some? {
      FoundIsDurable(dev.Memory(), lie0, lie1);
      FoundIsPassable(dev.Memory(), lie0, lie1);
    }
  }

  // ---- replacement ----

  /** The checks made before anything is read. */
  function Rejected(expected: Snapshot, desired: Metadata): Option<StoreStatus> {
    if expected.page > 1 then Some(ARGUMENT)
    else if !Valid(expected.record) || !Valid(desired) then Some(INVALID_RECORD)
    else if expected.record.sequence == UINT32_MAX then Some(STORE_EXHAUSTED)
    else if desired.sequence != expected.record.sequence + 1 then Some(SEQUENCE)
    else None
  }

  predicate SameOutside(before: seq<u8>, after: seq<u8>) {
    |before| == |after| && forall k :: METADATA_REGION <= k < |before| ==> after[k] == before[k]
  }

  ghost predicate Keeps(base: seq<u8>, mem: seq<u8>, page: nat) {
    Durable(base).Some? && page <= 1 && Durable(base).value.page == 1 - page ==> Durable(mem) == Durable(base)
  }

  /** Erases one page and checks every byte of it. */
  method EraseVerified(dev: Device, page: nat, ghost wanted: seq<u8>) returns (failure: Option<StoreStatus>)
    requires dev.Sized() && page <= 1 && |wanted| == METADATA_BYTES
    modifies dev, dev.mem
    ensures SameOutside(old(dev.Memory()), dev.Memory())
    ensures Keeps(old(dev.Memory()), dev.Memory(), page)
    ensures failure.None? ==> !dev.blocked && Staged(old(dev.Memory()), dev.Memory(), page, wanted, 0)
    ensures failure.Some? ==> failure.value in {IO, VERIFY}
    ensures dev.faults >= old(dev.faults) && (dev.faults == old(dev.faults) && !old(dev.blocked) ==> failure.None?)
  {
    ghost var base := dev.Memory();
    var ok; ghost var done;
    ok, done := dev.Erase(PageAddressOf(page));
    assert dev.Memory() == TornErase(base, PAGE_BYTES * page, done);
    if Durable(base).Some? && Durable(base).value.page == 1 - page { DurableUnderErase(base, page, done); }
    if !ok { return Some(IO); }
    if done == PAGE_BITS { ErasedIsStaged(base, page, wanted); }
    var readback;
    ok, readback := ReadPage(dev, page);
    if !ok { return Some(IO); }
    var i := 0;
    while i < PAGE_BYTES
      invariant 0 <= i <= PAGE_BYTES && forall k :: 0 <= k < i ==> readback[k] == 255
    {
      if readback[i] != 255 { return Some(VERIFY); }
      i := i + 1;
    }
    if done != PAGE_BITS { EraseNothing(base, PAGE_BYTES * page); } // dropped, but the page was erased already
    return None;
  }

  method ReadPage(dev: Device, page: nat) returns (ok: bool, bytes: seq<u8>)
    requires dev.Sized() && page <= 1
    modifies dev
    ensures ok ==> !dev.blocked && |bytes| == PAGE_BYTES
    ensures ok && !dev.fabricatedReads ==>
      forall k :: PAGE_BYTES * page <= k < PAGE_BYTES * page + PAGE_BYTES ==> dev.Memory()[k] == bytes[k - PAGE_BYTES * page]
    ensures dev.faults >= old(dev.faults)
    ensures dev.faults == old(dev.faults) && !old(dev.blocked) ==>
      ok && forall k :: 0 <= k < PAGE_BYTES ==> bytes[k] == dev.Memory()[PAGE_BYTES * page + k]
  {
    ghost var lie;
    ok, bytes, lie := dev.Read(PageAddressOf(page), PAGE_BYTES);
  }

  method ReadPrefix(dev: Device, page: nat) returns (ok: bool, bytes: seq<u8>, ghost lie: bool)
    requires dev.Sized() && page <= 1
    modifies dev
    ensures ok ==> !dev.blocked && bytes == Seen(Prefix(dev.Memory(), page), lie)
    ensures dev.faults >= old(dev.faults)
    ensures dev.faults == old(dev.faults) && !old(dev.blocked) ==> ok && !lie
  {
    ok, bytes, lie := dev.Read(PageAddressOf(page), METADATA_BYTES);
  }

  /** Programs and reads back everything but the commit word. */
  method StageRecord(dev: Device, page: nat, desired: Metadata, ghost base: seq<u8>)
    returns (failure: Option<StoreStatus>)
    requires dev.Sized() && page <= 1 && |base| == |dev.Memory()| && !dev.blocked
    requires Staged(base, dev.Memory(), page, Encoding(desired, COMMIT_ERASED), 0)
    modifies dev, dev.mem
    ensures SameOutside(base, dev.Memory())
    ensures Keeps(base, dev.Memory(), page)
    ensures failure.None? ==> !dev.blocked
    ensures failure.None? ==> Staged(base, dev.Memory(), page, Encoding(desired, COMMIT_ERASED), 164)
    ensures failure.None? ==> Prefix(dev.Memory(), page) == Encoding(desired, COMMIT_ERASED)
    ensures failure.Some? ==> failure.value in {IO, VERIFY}
    ensures dev.faults >= old(dev.faults) && (dev.faults == old(dev.faults) ==> failure.None?)
  {
    var wanted := Encoding(desired, COMMIT_ERASED);
    EncodingMarks(desired);
    var ok;
    ok := ProgramStaged(dev, page, wanted, base);
    if !ok { return Some(IO); }
    var readback; ghost var lie;
    ok, readback, lie := ReadPrefix(dev, page);
    if !ok { return Some(IO); }
    if wanted != readback { return Some(VERIFY); }
    assert Prefix(dev.Memory(), page)[0] == dev.Memory()[PAGE_BYTES * page];
    return None;
  }

  method ProgramStaged(dev: Device, page: nat, wanted: seq<u8>, ghost base: seq<u8>) returns (ok: bool)
    requires dev.Sized() && page <= 1 && |base| == |dev.Memory()| && !dev.blocked && |wanted| == METADATA_BYTES
    requires wanted[164..] == Put32(COMMIT_ERASED)
    requires Staged(base, dev.Memory(), page, wanted, 0)
    modifies dev, dev.mem
    ensures SameOutside(base, dev.Memory())
    ensures Keeps(base, dev.Memory(), page)
    ensures ok ==> !dev.blocked && Staged(base, dev.Memory(), page, wanted, 164)
    ensures dev.faults >= old(dev.faults)
    ensures dev.faults == old(dev.faults) ==> ok && Prefix(dev.Memory(), page) == wanted
  {
    var i := 0;
    while i < METADATA_BYTES - 4
      invariant 0 <= i <= 164 && i % 4 == 0
      invariant Staged(base, dev.Memory(), page, wanted, i) && !dev.blocked
      invariant dev.faults >= old(dev.faults)
      invariant dev.faults == old(dev.faults) ==> WantedTo(dev.Memory(), page, wanted, i)
    {
      ok := ProgramStagedWord(dev, page, wanted, i, base);
      if !ok { return; }
      i := i + 4;
    }
    if Durable(base).Some? && Durable(base).value.page == 1 - page {
      DurableWhenStaged(base, dev.Memory(), page, wanted, 164);
    }
    CommitStillErased(base, dev.Memory(), page, wanted);
    return true;
  }

  predicate WantedTo(mem: seq<u8>, page: nat, wanted: seq<u8>, i: nat) {
    var lo := PAGE_BYTES * page;
    && page <= 1 && METADATA_REGION <= |mem| && i <= METADATA_BYTES && i <= |wanted|
    && forall k :: lo <= k < lo + i ==> mem[k] == wanted[k - lo]
  }

  lemma CommitStillErased(base: seq<u8>, mem: seq<u8>, page: nat, wanted: seq<u8>)
    requires page <= 1 && |base| >= METADATA_REGION && |wanted| == METADATA_BYTES
    requires wanted[164..] == Put32(COMMIT_ERASED) && Staged(base, mem, page, wanted, 164)
    ensures WantedTo(mem, page, wanted, 164) ==> Prefix(mem, page) == wanted
  {
    var w := Prefix(mem, page);
    assert w[164..] == Put32(COMMIT_ERASED);
    if WantedTo(mem, page, wanted, 164) {
      forall k | 0 <= k < 164 ensures w[k] == wanted[k] {
        assert w[k] == mem[PAGE_BYTES * page + k];
      }
      assert w[..164] == wanted[..164];
      assert w == w[..164] + w[164..] && wanted == wanted[..164] + wanted[164..];
    }
  }

  method ProgramStagedWord(dev: Device, page: nat, wanted: seq<u8>, i: nat, ghost base: seq<u8>) returns (ok: bool)
    requires dev.Sized() && page <= 1 && |base| == |dev.Memory()| && !dev.blocked && |wanted| == METADATA_BYTES
    requires i + 4 <= 164 && i % 4 == 0
    requires Staged(base, dev.Memory(), page, wanted, i)
    modifies dev, dev.mem
    ensures SameOutside(base, dev.Memory())
    ensures !ok ==> Keeps(base, dev.Memory(), page)
    ensures ok ==> !dev.blocked && Staged(base, dev.Memory(), page, wanted, i + 4)
    ensures dev.faults >= old(dev.faults)
    ensures dev.faults == old(dev.faults) ==> ok
    ensures dev.faults == old(dev.faults) && WantedTo(old(dev.Memory()), page, wanted, i) ==>
              WantedTo(dev.Memory(), page, wanted, i + 4)
  {
    ghost var before := dev.Memory();
    StageWord(base, before, page, wanted, i);
    ghost var written;
    ok, written := ProgramWord(dev, page, wanted, i, base);
    if ok && written { StagedWord(base, before, dev.Memory(), page, wanted, i); }
  }

  method ProgramWord(dev: Device, page: nat, wanted: seq<u8>, i: nat, ghost base: seq<u8>)
    returns (ok: bool, ghost written: bool)
    requires dev.Sized() && page <= 1 && |base| == |dev.Memory()| && !dev.blocked && |wanted| == METADATA_BYTES
    requires i + 4 <= 164 && i % 4 == 0 && Staged(base, dev.Memory(), page, wanted, i)
    requires Programmable(dev.Memory(), PAGE_BYTES * page + i, wanted[i..i + 4])
    modifies dev, dev.mem
    ensures !ok ==> SameOutside(base, dev.Memory()) && Keeps(base, dev.Memory(), page)
    ensures ok ==> !dev.blocked
    ensures ok && written ==> WordWritten(old(dev.Memory()), dev.Memory(), page, wanted, i)
    ensures ok && !written ==> dev.Memory() == old(dev.Memory())
    ensures dev.faults >= old(dev.faults) && (dev.faults == old(dev.faults) ==> ok && written)
  {
    ghost var before := dev.Memory();
    ghost var done;
    PutOfGet(wanted, i);
    ok, done := dev.Program(PageAddressOf(page) + i, Get32(wanted, i));
    assert dev.Memory() == TornProgram(before, PAGE_BYTES * page + i, wanted[i..i + 4], done);
    written := done == WORD_BITS;
    if !ok {
      OutsideWord(base, before, page, wanted, i, done);
      KeptByStaging(base, before, page, wanted, i, done);
    } else if written {
      ProgramWrites(before, page, wanted, i);
    }
  }

  lemma KeptByStaging(base: seq<u8>, mem: seq<u8>, page: nat, wanted: seq<u8>, i: nat, n: nat)
    requires page <= 1 && |base| >= METADATA_REGION && |wanted| == METADATA_BYTES && i + 4 <= 164
    requires Staged(base, mem, page, wanted, i)
    ensures Keeps(base, TornProgram(mem, PAGE_BYTES * page + i, wanted[i..i + 4], n), page)
  {
    if Durable(base).Some? && Durable(base).value.page == 1 - page {
      DurableUnderStaging(base, mem, page, wanted, i, n);
    }
  }

  lemma OutsideWord(base: seq<u8>, mem: seq<u8>, page: nat, wanted: seq<u8>, i: nat, n: nat)
    requires page <= 1 && |base| >= METADATA_REGION && |wanted| == METADATA_BYTES && i + 4 <= METADATA_BYTES
    requires Staged(base, mem, page, wanted, i)
    ensures SameOutside(base, TornProgram(mem, PAGE_BYTES * page + i, wanted[i..i + 4], n))
  {}

  /** Programs the commit word; from here on a failure leaves the outcome open. */
  method CommitRecord(dev: Device, expected: Snapshot, desired: Metadata, ghost base: seq<u8>)
    returns (r: StoreResult)
    requires dev.Sized() && |base| == |dev.Memory()| && !dev.blocked
    requires Rejected(expected, desired).None?
    requires Staged(base, dev.Memory(), 1 - expected.page, Encoding(desired, COMMIT_ERASED), 164)
    requires Prefix(dev.Memory(), 1 - expected.page) == Encoding(desired, COMMIT_ERASED)
    modifies dev, dev.mem
    ensures SameOutside(base, dev.Memory())
    ensures r.Failed? ==> r.status == UNCERTAIN
    ensures r.Stored? ==> !dev.blocked && r.snapshot == Snapshot(desired, 1 - expected.page)
    ensures Durable(base) == Some(expected) ==>
              Durable(dev.Memory()) == Durable(base) || Durable(dev.Memory()) == Some(Snapshot(desired, 1 - expected.page))
    ensures Durable(base) == Some(expected) && r.Stored? ==> Durable(dev.Memory()) == Some(r.snapshot)
    ensures dev.faults >= old(dev.faults)
    ensures dev.faults == old(dev.faults) && Durable(base) == Some(expected) ==> r.Stored?
  {
    var page := 1 - expected.page;
    var wanted := Encoding(desired, COMMIT_VALID);
    var ok; ghost var done;
    ok, done := ProgramCommit(dev, expected, desired, base);
    if !ok { return Failed(UNCERTAIN); }
    var readback; ghost var lie;
    ok, readback, lie := ReadPrefix(dev, page);
    if !ok || wanted != readback { return Failed(UNCERTAIN); }
    var loaded := LoadStore(dev);
    if Durable(dev.Memory()).Some? { DurableLoads(dev.Memory()); }
    if loaded.Failed? || loaded.snapshot.page != page { return Failed(UNCERTAIN); }
    if !Valid(loaded.snapshot.record) || Encoding(loaded.snapshot.record, COMMIT_VALID) != wanted {
      return Failed(UNCERTAIN);
    }
    EncodingInjective(loaded.snapshot.record, desired);
    StagedIsNotCommitted(desired, lie);
    return loaded;
  }

  lemma StagedIsNotCommitted(m: Metadata, lie: bool)
    ensures Seen(Encoding(m, COMMIT_ERASED), lie) != Encoding(m, COMMIT_VALID)
  {
    var staged, done := Encoding(m, COMMIT_ERASED), Encoding(m, COMMIT_VALID);
    EncodingBlocks(m, COMMIT_ERASED, staged);
    EncodingBlocks(m, COMMIT_VALID, done);
    LastWord(staged, done, lie);
  }

  lemma LastWord(v: seq<u8>, w: seq<u8>, lie: bool)
    requires |v| == METADATA_BYTES == |w| && Get32(v, 164) != Get32(w, 164)
    ensures Seen(v, lie) != w
  {
    assert v[164..168] == Seen(v, lie)[164..168];
  }

  method ProgramCommit(dev: Device, expected: Snapshot, desired: Metadata, ghost base: seq<u8>)
    returns (ok: bool, ghost done: nat)
    requires dev.Sized() && |base| == |dev.Memory()| && !dev.blocked
    requires Rejected(expected, desired).None?
    requires Staged(base, dev.Memory(), 1 - expected.page, Encoding(desired, COMMIT_ERASED), 164)
    requires Prefix(dev.Memory(), 1 - expected.page) == Encoding(desired, COMMIT_ERASED)
    modifies dev, dev.mem
    ensures SameOutside(base, dev.Memory())
    ensures ok ==> !dev.blocked
    ensures Durable(base) == Some(expected) ==>
              Durable(dev.Memory()) == if done == WORD_BITS then Some(Snapshot(desired, 1 - expected.page)) else Durable(base)
    ensures ok && Durable(base) == Some(expected) ==>
              if done == WORD_BITS then Prefix(dev.Memory(), 1 - expected.page) == Encoding(desired, COMMIT_VALID)
              else Prefix(dev.Memory(), 1 - expected.page) == Encoding(desired, COMMIT_ERASED)
    ensures dev.faults >= old(dev.faults) && (dev.faults == old(dev.faults) ==> ok && done == WORD_BITS)
  {
    var page := 1 - expected.page;
    CommitProgrammable(base, dev.Memory(), page, Encoding(desired, COMMIT_ERASED));
    ok, done := dev.Program(PageAddressOf(page) + METADATA_BYTES - 4, COMMIT_VALID);
    assert PageAddressOf(page) + METADATA_BYTES - 4 - FLASH_FIRST == PAGE_BYTES * page + 164;
    if Durable(base) == Some(expected) { DurableUnderCommit(base, old(dev.Memory()), page, desired, done); }
    CommitStaysInside(base, old(dev.Memory()), page, Encoding(desired, COMMIT_ERASED), done);
  }

  lemma CommitStaysInside(base: seq<u8>, mem: seq<u8>, page: nat, wanted: seq<u8>, n: nat)
    requires page <= 1 && |base| >= METADATA_REGION && |wanted| == METADATA_BYTES && Staged(base, mem, page, wanted, 164)
    ensures SameOutside(base, TornProgram(mem, PAGE_BYTES * page + 164, Put32(COMMIT_VALID), n))
  {}

  /** boot_store_replace. */
  method Replace(dev: Device, expected: Snapshot, desired: Metadata) returns (r: StoreResult)
    requires dev.Sized()
    modifies dev, dev.mem
    ensures SameOutside(old(dev.Memory()), dev.Memory())
    ensures Rejected(expected, desired).Some? ==>
              r == Failed(Rejected(expected, desired).value) && dev.Memory() == old(dev.Memory())
    ensures r.Stored? ==> !dev.blocked && r.snapshot == Snapshot(desired, 1 - expected.page)
    ensures Trusted(dev.fabricatedReads, old(dev.Memory()), expected) ==>
              Outcome(old(dev.Memory()), dev.Memory(), expected, desired, r)
    ensures !dev.fabricatedReads && old(Durable(dev.Memory())).Some? && r.Failed? ==> r.status !in {NO_RECORD, CONFLICT}
    ensures dev.faults >= old(dev.faults)
    ensures (&& dev.faults == old(dev.faults) && !old(dev.blocked) && Rejected(expected, desired).None?
             && old(Durable(dev.Memory())) == Some(expected)) ==> r.Stored?
  {
    if expected.page > 1 { return Failed(ARGUMENT); }
    if !Valid(expected.record) || !Valid(desired) { return Failed(INVALID_RECORD); }
    match NextSequence(expected.record) {
      case Err(_) => return Failed(STORE_EXHAUSTED);
      case Ok(next) => if desired.sequence != next { return Failed(SEQUENCE); }
    }
    ghost var base := dev.Memory();
    if Durable(base).Some? { DurableLoads(base); }
    var loaded := LoadStore(dev);
    if loaded.Failed? { return loaded; }
    if !Valid(loaded.snapshot.record) { return Failed(INVALID_RECORD); }
    if loaded.snapshot.page != expected.page
       || Encoding(loaded.snapshot.record, COMMIT_VALID) != Encoding(expected.record, COMMIT_VALID) {
      return Failed(STALE);
    }
    EncodingInjective(loaded.snapshot.record, expected.record);
    var page := 1 - expected.page;
    var failure := EraseVerified(dev, page, Encoding(desired, COMMIT_ERASED));
    if failure.Some? { return Failed(failure.value); }
    failure := StageRecord(dev, page, desired, base);
    if failure.Some? { return Failed(failure.value); }
    r := CommitRecord(dev, expected, desired, base);
  }

  /** The reads are honest, or the caller's snapshot is the durable one or not on its page any more. */
  ghost predicate Trusted(fabricated: bool, before: seq<u8>, expected: Snapshot) {
    Durable(before).Some? && (!fabricated || Durable(before) == Some(expected) || !Passable(before, expected))
  }

  /** Old or new and nothing else, however the call ends. */
  ghost predicate Outcome(before: seq<u8>, after: seq<u8>, expected: Snapshot, desired: Metadata, r: StoreResult) {
    && (Durable(after) == Durable(before)
        || (Durable(before) == Some(expected) && Rejected(expected, desired).None?
            && Durable(after) == Some(Snapshot(desired, 1 - expected.page))))
    && (r.Stored? ==> Durable(before) == Some(expected) && Durable(after) == Some(r.snapshot))
    && (r.Failed? && r.status != UNCERTAIN ==> Durable(after) == Durable(before))
    && (Durable(before) != Some(expected) ==> r.Failed? && after == before)
  }

  // ---- whole runs ----

  /** One replacement by some caller, ended by success, an error or a power cut. */
  ghost predicate ReplaceStep(before: seq<u8>, after: seq<u8>) {
    exists expected, desired, r :: Outcome(before, after, expected, desired, r)
  }

  /** Along any run of replacements the store loads at every point and its sequence never goes back. */
  lemma {:induction false} RunsAlwaysLoad(run: seq<seq<u8>>)
    requires run != [] && Durable(run[0]).Some?
    requires forall i :: 0 <= i < |run| - 1 ==> ReplaceStep(run[i], run[i + 1])
    ensures forall i :: 0 <= i < |run| ==>
      |run[i]| >= METADATA_REGION && Load(run[i]).Stored? && Durable(run[i]) == Some(Load(run[i]).snapshot)
    ensures forall i :: 0 <= i < |run| ==>
      Load(run[0]).snapshot.record.sequence <= Load(run[i]).snapshot.record.sequence
  {
    DurableLoads(run[0]);
    if |run| > 1 {
      var expected, desired, r :| Outcome(run[0], run[1], expected, desired, r);
      DurableLoads(run[1]);
      forall i | 0 <= i < |run[1..]| - 1 ensures ReplaceStep(run[1..][i], run[1..][i + 1]) {
        assert ReplaceStep(run[i + 1], run[i + 1 + 1]);
      }
      RunsAlwaysLoad(run[1..]);
      forall i | 0 <= i < |run|
        ensures |run[i]| >= METADATA_REGION && Load(run[i]).Stored? && Durable(run[i]) == Some(Load(run[i]).snapshot)
        ensures Load(run[0]).snapshot.record.sequence <= Load(run[i]).snapshot.record.sequence
      {
        if i > 0 { assert run[i] == run[1..][i - 1]; }
      }
    }
  }

  /** A page freshly provisioned beside an erased one. */
  lemma FactoryIsDurable(mem: seq<u8>, m: Metadata)
    requires |mem| >= METADATA_REGION && Valid(m) && Prefix(mem, 0) == Encoding(m, COMMIT_VALID)
    requires forall k :: PAGE_BYTES <= k < PAGE_BYTES + METADATA_BYTES ==> mem[k] == 255
    ensures Durable(mem) == Some(Snapshot(m, 0))
  {
    DurableOpen(mem);
    RecordIsEncoding(Prefix(mem, 0), m);
    var w := Prefix(mem, 1);
    assert w[164] == 255;
    NonzeroWord(w, 164, 164);
    CommitSetNeverDecodes(w);
  }

  // ---- why the conditions are needed ----

  lemma OneClearedBit(r: Metadata)
    requires Valid(r)
    ensures Record(Encoding(r, COMMIT_VALID)[0 := 0x40]).Err?
    ensures TornPrefix(Encoding(r, COMMIT_VALID)[0 := 0x40], 1) == Encoding(r, COMMIT_VALID)
  {
    var w := Encoding(r, COMMIT_VALID);
    RecordIsEncoding(w, r);
    RecordMarks(w);
    var u := w[0 := 0x40];
    if Record(u).Ok? { RecordMarks(u); }
    OneBit(u);
    SetLowestBit();
    assert u[0 := 0x41] == w;
  }

  /** A page that is not settled: one torn erase brings a second record back and the store stops loading. */
  lemma UnsettledLosesTheRecord(mem: seq<u8>, r1: Metadata, r2: Metadata)
    requires |mem| >= METADATA_REGION && Valid(r1) && Valid(r2) && r1 != r2 && r1.sequence == r2.sequence
    requires Prefix(mem, 0) == Encoding(r1, COMMIT_VALID) && Prefix(mem, 1) == Encoding(r2, COMMIT_VALID)[0 := 0x40]
    ensures Load(mem) == Stored(Snapshot(r1, 0)) && !Settled(Prefix(mem, 1))
    ensures Load(TornErase(mem, PAGE_BYTES, 1)) == Failed(CONFLICT)
  {
    RecordIsEncoding(Encoding(r1, COMMIT_VALID), r1);
    RecordIsEncoding(Encoding(r2, COMMIT_VALID), r2);
    OneClearedBit(r2);
    OneBit(Prefix(mem, 1));
    ErasePrefixes(mem, 1, 1);
    var after := TornErase(mem, PAGE_BYTES * 1, 1);
    assert Prefix(after, 0) == Encoding(r1, COMMIT_VALID) && Prefix(after, 1) == Encoding(r2, COMMIT_VALID);
    if Encoding(r1, COMMIT_VALID) == Encoding(r2, COMMIT_VALID) { EncodingInjective(r1, r2); }
    var v, w := Encoding(r1, COMMIT_VALID), Encoding(r2, COMMIT_VALID);
    assert v[..METADATA_BYTES] == v && w[..METADATA_BYTES] == w;
  }

  /** A fabricated read can make any passable snapshot look current; the erase that follows loses the durable one. */
  lemma FabricationLosesTheNewest(mem: seq<u8>, expected: Snapshot)
    requires Durable(mem).Some? && Durable(mem) != Some(expected) && Passable(mem, expected)
    ensures exists lie0, lie1 :: LoadSeen(mem, lie0, lie1) == Stored(expected)
    ensures Durable(mem).value.page == 1 - expected.page
    ensures Durable(TornErase(mem, PAGE_BYTES * (1 - expected.page), PAGE_BITS)) == Some(expected)
  {
    var page := 1 - expected.page;
    var after := TornErase(mem, PAGE_BYTES * page, PAGE_BITS);
    PassableExactly(mem, expected);
    DurableOpen(mem);
    DurableOpen(after);
    ErasePrefixes(mem, page, PAGE_BITS);
    TwoBits(Prefix(mem, page), PAGE_BITS);
  }

  /** The load of a replacement takes the caller for current. */
  ghost predicate Passes(mem: seq<u8>, expected: Snapshot, desired: Metadata, fabricated: bool, lie0: bool, lie1: bool)
    requires |mem| >= METADATA_REGION
  {
    Rejected(expected, desired).None? && (fabricated || (!lie0 && !lie1)) && LoadSeen(mem, lie0, lie1) == Stored(expected)
  }

  /** Exactly when no replacement can lose the durable snapshot: its erase comes after a load that may be deceived, and is
      harmless, however far it gets, if and only if the replacement is rejected before that load or the caller is trusted. */
  lemma TrustedExactly(mem: seq<u8>, expected: Snapshot, desired: Metadata, fabricated: bool)
    requires Durable(mem).Some? && |mem| >= METADATA_REGION
    ensures Rejected(expected, desired).Some? || Trusted(fabricated, mem, expected) <==>
            ((exists lie0, lie1 :: Passes(mem, expected, desired, fabricated, lie0, lie1)) ==> Spared(mem, 1 - expected.page))
  {
    if Rejected(expected, desired).Some? || Trusted(fabricated, mem, expected) {
      if lie0, lie1 :| Passes(mem, expected, desired, fabricated, lie0, lie1) {
        FoundIsDurable(mem, lie0, lie1);
        FoundIsPassable(mem, lie0, lie1);
        var at := PAGE_BYTES * (1 - expected.page);
        forall n: nat ensures Durable(TornErase(mem, at, n)) == Durable(mem) { DurableUnderErase(mem, 1 - expected.page, n); }
      }
    } else {
      FabricationLosesTheNewest(mem, expected);
      var lie0, lie1 :| LoadSeen(mem, lie0, lie1) == Stored(expected);
      assert Passes(mem, expected, desired, fabricated, lie0, lie1);
      assert Durable(TornErase(mem, PAGE_BYTES * (1 - expected.page), PAGE_BITS)) != Durable(mem);
    }
  }

  /** No erase of the page touches what is durable. */
  ghost predicate Spared(mem: seq<u8>, page: int) {
    var at := PAGE_BYTES * page;
    forall n: nat :: Durable(TornErase(mem, at, n)) == Durable(mem)
  }
}
