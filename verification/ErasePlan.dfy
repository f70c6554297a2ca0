/** The erase plan of an upload: admitted by a durable invalidation, old manifest first, one page for each step. */
module ErasePlan {
  import opened Bytes
  import opened Format
  import opened Codec
  import opened Flash
  import opened Store
  import opened Truth

  const SLOT_PAGES: nat := SLOT_BYTES / PAGE_BYTES

  datatype PlanStatus = PLAN_OK | PLAN_DONE | PLAN_ARGUMENT | PLAN_BLOCKED | PLAN_FAILED

  /** The page that one step of the plan erases: the manifest page, then the payload pages upwards. */
  function PageOf(destination: u32, page: nat): nat {
    if page == 0 then ManifestFirst(destination) else SlotFirst(destination) + PAGE_BYTES * (page - 1)
  }

  predicate Erased(mem: seq<u8>, lo: nat, hi: nat) {
    hi <= |mem| && forall i :: lo <= i < hi ==> mem[i] == 255
  }

  /** Nothing has changed outside the size bytes at offset at. */
  predicate SameBut(before: seq<u8>, after: seq<u8>, at: nat, size: nat) {
    |before| == |after| && forall i :: 0 <= i < |before| && !(at <= i < at + size) ==> after[i] == before[i]
  }

  /** The first pages of the plan are erased. */
  predicate ErasedTo(mem: seq<u8>, destination: u32, pages: nat) {
    && |mem| == FLASH_BYTES && SlotValid(destination) && pages <= SLOT_PAGES
    && (pages > 0 ==>
          && Erased(mem, ManifestFirst(destination), ManifestFirst(destination) + PAGE_BYTES)
          && Erased(mem, SlotFirst(destination), SlotFirst(destination) + PAGE_BYTES * (pages - 1)))
  }

  /** All pages together are the whole slot. */
  lemma WholeSlot(mem: seq<u8>, destination: u32)
    requires ErasedTo(mem, destination, SLOT_PAGES)
    ensures forall i :: InSlot(destination, i) ==> 0 <= i < |mem| && mem[i] == 255
  {
    assert SlotFirst(destination) + PAGE_BYTES * (SLOT_PAGES - 1) == ManifestFirst(destination);
  }

  lemma PageInSlot(destination: u32, page: nat)
    requires SlotValid(destination) && page < SLOT_PAGES
    ensures PageOf(destination, page) >= METADATA_REGION
    ensures InSlot(destination, PageOf(destination, page))
    ensures InSlot(destination, PageOf(destination, page) + PAGE_BYTES - 1)
    ensures PageAddress(FLASH_FIRST + PageOf(destination, page))
    ensures !InSlot(Other(destination), PageOf(destination, page))
    ensures !InSlot(Other(destination), PageOf(destination, page) + PAGE_BYTES - 1)
  {}

  lemma OnePage(mem: seq<u8>, after: seq<u8>, destination: u32, page: nat)
    requires ErasedTo(mem, destination, page) && page < SLOT_PAGES
    requires after == TornErase(mem, PageOf(destination, page), PAGE_BITS)
    ensures ErasedTo(after, destination, page + 1)
  {
    PageInSlot(destination, page);
    EraseAll(mem, PageOf(destination, page));
  }

  /** Entry bytes are all zero for the empty entry and for no other. */
  lemma EmptyEntryBytes(r: Metadata, slot: u32)
    requires SlotValid(slot)
    ensures Encoding(r, COMMIT_VALID)[32 + 48 * slot..80 + 48 * slot] == Zeros(48) <==> r.Image(slot) == EMPTY_ENTRY
  {
    var w := Encoding(r, COMMIT_VALID);
    EncodingBlocks(r, COMMIT_VALID, w);
    BodyBlocks(r, w);
    ZeroEntry();
    ParseOfEntryBytes(r.Image(slot));
    ParseOfEntryBytes(EMPTY_ENTRY);
  }

  lemma ZeroEntry()
    ensures EntryBytes(EMPTY_ENTRY) == Zeros(48)
  {
    WordsOfZeros(EntryWords(EMPTY_ENTRY));
    assert Zeros(32) + Zeros(16) == Zeros(48);
  }

  /** What admits an erase: the destination is empty and has no role, and the confirmed current image runs elsewhere. */
  predicate Destructible(r: Metadata, running: u32, destination: u32) {
    && Valid(r) && SlotValid(running) && SlotValid(destination) && running != destination
    && r.current == running && r.candidate == SLOT_NONE && r.previous != destination && r.intentSlot != destination
    && r.Confirmed(running) && !r.Confirmed(destination) && r.Image(destination) == EMPTY_ENTRY
  }

  class Plan {
    var destination: u32
    var page: nat
    var failed: bool

    constructor ()
      ensures page == 0 && !failed && destination == 0
    {
      destination, page, failed := 0, 0, false;
    }

    /** boot_flash_erase_begin. */
    method Begin(invalidated: Snapshot, running: u32, destination: u32) returns (admitted: bool)
      modifies this
      ensures admitted <==> invalidated.page <= 1 && Destructible(invalidated.record, running, destination)
      ensures admitted ==> this.destination == destination && page == 0 && !failed
      ensures !admitted ==> this.destination == old(this.destination) && page == old(page) && failed == old(failed)
    {
      if invalidated.page > 1 || running > SLOT_B || destination > SLOT_B || running == destination { return false; }
      var r := invalidated.record;
      var encoded := Encoding(r, COMMIT_VALID);
      EmptyEntryBytes(r, destination);
      if !Valid(r) || r.current != running || r.candidate != SLOT_NONE || r.previous == destination
         || r.intentSlot == destination || !r.Confirmed(running) || r.Confirmed(destination)
         || encoded[32 + 48 * destination..80 + 48 * destination] != Zeros(48) {
        return false;
      }
      this.destination, page, failed := destination, 0, false;
      return true;
    }

    /** boot_flash_erase_step. */
    method Step(dev: Device) returns (status: PlanStatus)
      requires dev.Sized()
      modifies this, dev, dev.mem
      ensures destination == old(destination) && (failed <==> status !in {PLAN_OK, PLAN_DONE})
      ensures status == PLAN_DONE <==> !old(failed) && SlotValid(destination) && old(page) == SLOT_PAGES
      ensures page == old(page) + (if status == PLAN_OK then 1 else 0)
      ensures status == PLAN_OK ==>
        !dev.blocked && old(page) < SLOT_PAGES && SlotValid(destination)
      ensures status == PLAN_OK && !dev.silentErases ==>
        dev.Memory() == TornErase(old(dev.Memory()), PageOf(destination, old(page)), PAGE_BITS)
      ensures status == PLAN_DONE || old(failed) || !SlotValid(destination) || old(page) >= SLOT_PAGES ==>
        dev.Memory() == old(dev.Memory())
      ensures SameBut(old(dev.Memory()), dev.Memory(), PageOf(destination, old(page)), PAGE_BYTES)
      ensures dev.faults >= old(dev.faults)
      ensures (&& dev.faults == old(dev.faults) && !old(dev.blocked) && !old(failed) && SlotValid(destination)
               && old(page) <= SLOT_PAGES) ==> status in {PLAN_OK, PLAN_DONE} && !dev.blocked
    {
      if failed { return PLAN_BLOCKED; }
      if destination > SLOT_B || page > SLOT_PAGES { failed := true; return PLAN_ARGUMENT; }
      if page == SLOT_PAGES { return PLAN_DONE; }
      PageInSlot(destination, page);
      var ok; ghost var done;
      ok, done := dev.Erase(FLASH_FIRST + PageOf(destination, page));
      if !ok { failed := true; return PLAN_FAILED; }
      page := page + 1;
      return PLAN_OK;
    }
  }
}
