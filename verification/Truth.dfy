/** Metadata truth: whatever record a load finds, each image it names is completely stored in its slot. */
module Truth {
  import opened Bytes
  import opened Format
  import opened Codec
  import opened Flash
  import opened Store
  import opened Lifecycle
  import opened History
  import opened Verify

  const SLOT_BYTES: nat := 112640

  function SlotFirst(slot: u32): nat { SlotBase(slot) - FLASH_FIRST }

  function ManifestFirst(slot: u32): nat { SlotManifest(slot) - FLASH_FIRST }

  function WireAt(mem: seq<u8>, slot: u32): (w: seq<u8>)
    requires |mem| == FLASH_BYTES
    ensures |w| == MANIFEST_BYTES
  {
    mem[ManifestFirst(slot)..ManifestFirst(slot) + MANIFEST_BYTES]
  }

  predicate InSlot(slot: u32, i: int) { SlotFirst(slot) <= i < SlotFirst(slot) + SLOT_BYTES }

  predicate InMetadata(i: int) { 0 <= i < METADATA_REGION }

  /** The slot holds the image that the entry names. */
  predicate StoredImage(trust: Trust, mem: seq<u8>, slot: u32, e: Entry)
    requires |mem| == FLASH_BYTES && SlotValid(slot)
  {
    var wire := WireAt(mem, slot);
    && ManifestOf(wire).Ok?
    && var m := ManifestOf(wire).value;
    && m.length == e.length && m.hash == e.hash && m.release == e.release
    && ImageGood(trust, wire, slot, Payload(mem, slot, m.length))
  }

  ghost predicate Truthful(trust: Trust, mem: seq<u8>) {
    && |mem| == FLASH_BYTES && Durable(mem).Some?
    && forall slot {:trigger Durable(mem).value.record.Image(slot)} :: SlotValid(slot) ==>
         var e := Durable(mem).value.record.Image(slot);
         e.length != 0 ==> StoredImage(trust, mem, slot, e)
  }

  /** A board as it is provisioned, with one record beside an erased page and each image that it names in its slot, is where
      truth begins. */
  lemma ProvisionedIsTruthful(trust: Trust, mem: seq<u8>, m: Metadata)
    requires |mem| == FLASH_BYTES && Valid(m) && Prefix(mem, 0) == Encoding(m, COMMIT_VALID)
    requires forall k :: PAGE_BYTES <= k < PAGE_BYTES + METADATA_BYTES ==> mem[k] == 255
    requires forall slot {:trigger m.Image(slot)} :: SlotValid(slot) && m.Image(slot).length != 0 ==>
      StoredImage(trust, mem, slot, m.Image(slot))
    ensures Truthful(trust, mem) && Durable(mem) == Some(Snapshot(m, 0))
  {
    FactoryIsDurable(mem, m);
  }

  const BLANK := Metadata(1, SLOT_NONE, SLOT_NONE, SLOT_NONE, 0, EMPTY_ENTRY, EMPTY_ENTRY, INTENT_NONE, SLOT_NONE, 0)

  lemma Alone(page: seq<u8>)
    requires |page| == METADATA_BYTES
    ensures var mem := page + seq(FLASH_BYTES - METADATA_BYTES, _ => 255);
      && |mem| == FLASH_BYTES && Prefix(mem, 0) == page
      && forall k :: METADATA_BYTES <= k < FLASH_BYTES ==> mem[k] == 255
  {}

  lemma BlankIsValid()
    ensures Valid(BLANK) && forall slot {:trigger BLANK.Image(slot)} :: BLANK.Image(slot) == EMPTY_ENTRY
  {}

  /** There is such a board: one that names no image at all. */
  lemma BlankIsTruthful(trust: Trust)
    ensures exists mem :: Truthful(trust, mem) && Durable(mem) == Some(Snapshot(BLANK, 0))
  {
    BlankIsValid();
    Alone(Encoding(BLANK, COMMIT_VALID));
    var mem := Encoding(BLANK, COMMIT_VALID) + seq(FLASH_BYTES - METADATA_BYTES, _ => 255);
    ProvisionedIsTruthful(trust, mem, BLANK);
  }

  lemma DurableReadsMetadata(before: seq<u8>, after: seq<u8>)
    requires |before| == |after| == FLASH_BYTES
    requires forall i :: InMetadata(i) ==> after[i] == before[i]
    ensures Durable(after) == Durable(before)
  {
    DurableOpen(before);
    DurableOpen(after);
    assert Prefix(before, 0) == Prefix(after, 0);
    assert Prefix(before, 1) == Prefix(after, 1);
  }

  lemma SameImage(trust: Trust, before: seq<u8>, after: seq<u8>, slot: u32, e: Entry)
    requires |before| == |after| == FLASH_BYTES && SlotValid(slot)
    requires forall i :: InSlot(slot, i) ==> after[i] == before[i]
    ensures StoredImage(trust, before, slot, e) ==> StoredImage(trust, after, slot, e)
  {
    assert WireAt(before, slot) == WireAt(after, slot) by {
      forall k | 0 <= k < MANIFEST_BYTES ensures WireAt(before, slot)[k] == WireAt(after, slot)[k] {
        assert InSlot(slot, ManifestFirst(slot) + k);
      }
    }
    if ManifestOf(WireAt(before, slot)).Ok? {
      var length := ManifestOf(WireAt(before, slot)).value.length;
      forall k | 0 <= k < length ensures Payload(before, slot, length)[k] == Payload(after, slot, length)[k] {
        assert InSlot(slot, SlotFirst(slot) + k);
      }
      assert Payload(before, slot, length) == Payload(after, slot, length);
    }
  }

  /** Writing a slot that the durable record leaves empty keeps the metadata true. */
  lemma TruthUnderSlotWrite(trust: Trust, before: seq<u8>, after: seq<u8>, slot: u32)
    requires Truthful(trust, before) && |after| == FLASH_BYTES && SlotValid(slot)
    requires Durable(before).value.record.Image(slot).length == 0
    requires forall i :: 0 <= i < FLASH_BYTES && !InSlot(slot, i) ==> after[i] == before[i]
    ensures Truthful(trust, after) && Durable(after) == Durable(before)
  {
    DurableReadsMetadata(before, after);
    SameImage(trust, before, after, Other(slot), Durable(before).value.record.Image(Other(slot)));
  }

  /** So does a change of the metadata pages that leaves the durable record as it was. */
  lemma TruthUnderSameRecord(trust: Trust, before: seq<u8>, after: seq<u8>)
    requires Truthful(trust, before) && SameOutside(before, after) && Durable(after) == Durable(before)
    ensures Truthful(trust, after)
  {
    forall slot {:trigger Durable(after).value.record.Image(slot)} | SlotValid(slot)
      ensures var e := Durable(after).value.record.Image(slot); e.length != 0 ==> StoredImage(trust, after, slot, e)
    {
      SameImage(trust, before, after, slot, Durable(before).value.record.Image(slot));
    }
  }

  /** So does any committed action that installs no image. */
  lemma TruthUnderAction(trust: Trust, before: seq<u8>, after: seq<u8>, a: Action)
    requires Truthful(trust, before) && Durable(after).Some? && SameOutside(before, after)
    requires Durable(after) == Durable(before)
          || (!a.DoAccept? && Apply(Durable(before).value.record, a) == Change(Durable(after).value.record))
    ensures Truthful(trust, after)
  {
    DurableLoads(before);
    forall slot {:trigger Durable(after).value.record.Image(slot)} | SlotValid(slot)
      ensures var e := Durable(after).value.record.Image(slot); e.length != 0 ==> StoredImage(trust, after, slot, e)
    {
      var r := Durable(before).value.record;
      SameImage(trust, before, after, slot, r.Image(slot));
      if Durable(after) != Durable(before) {
        EntryNamesKept(r, a, slot);
      }
    }
  }

  lemma EntryNamesKept(r: Metadata, a: Action, slot: u32)
    requires Valid(r) && !a.DoAccept? && Apply(r, a).Change? && SlotValid(slot)
    ensures var e, f := r.Image(slot), Apply(r, a).record.Image(slot);
      f.length == 0 || (f.length == e.length && f.hash == e.hash && f.release == e.release)
  {
    ValidMeaning(r);
    match a
    case DoInvalidate(e) => InvalidateCloses(r, e);
    case DoBeginTrial(image) => BeginTrialCloses(r, image);
    case DoConfirm(request, running, health) => ConfirmCloses(r, request, running, health);
    case DoFailure(f) => CountedFailureCloses(r, f);
    case DoPromote(invalid, previous) => PromotePreviousCloses(r, invalid, previous);
    case DoDeadline(request, running) => DeadlineIntentCloses(r, request, running);
  }

  /** An acceptance keeps the metadata true once the accepted image is completely stored. */
  lemma TruthUnderAccept(trust: Trust, before: seq<u8>, after: seq<u8>, e: UploadEvidence, stored: VerifiedImage)
    requires Truthful(trust, before) && Durable(after).Some? && SameOutside(before, after)
    requires Durable(after) == Durable(before)
          || AcceptReady(Durable(before).value.record, e, stored) == Change(Durable(after).value.record)
    requires SlotValid(e.incoming.slot) && ManifestOf(WireAt(before, e.incoming.slot)) == Ok(e.incoming)
    requires ImageGood(trust, WireAt(before, e.incoming.slot), e.incoming.slot,
                       Payload(before, e.incoming.slot, e.incoming.length))
    ensures Truthful(trust, after)
  {
    DurableLoads(before);
    var r := Durable(before).value.record;
    AcceptReadyCloses(r, e, stored);
    forall slot {:trigger Durable(after).value.record.Image(slot)} | SlotValid(slot)
      ensures var e := Durable(after).value.record.Image(slot); e.length != 0 ==> StoredImage(trust, after, slot, e)
    {
      var entry := Durable(after).value.record.Image(slot);
      SameImage(trust, before, after, slot, entry);
    }
  }
}
