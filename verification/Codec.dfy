/** The byte layouts: encoders that fill a buffer in place, decoders, and their round trips. */
module Codec {
  import opened Bytes
  import opened Format
  import Crc

  // ---- runs of words ----

  /** The words of a slice are the words of the whole. */
  lemma GetInSlice(w: seq<u8>, lo: nat, hi: nat, at: nat)
    requires lo <= hi <= |w| && at + 4 <= hi - lo
    ensures Get32(w[lo..hi], at) == Get32(w, lo + at)
  {
    var s := w[lo..hi];
    assert s[at] == w[lo + at] && s[at + 1] == w[lo + at + 1] && s[at + 2] == w[lo + at + 2];
    assert s[at + 3] == w[lo + at + 3];
    assert s[at..at + 4] == w[lo + at..lo + at + 4];
  }

  function Words(ws: seq<u32>): (r: seq<u8>)
    ensures |r| == 4 * |ws|
  {
    if ws == [] then [] else Put32(ws[0]) + Words(ws[1..])
  }

  lemma {:induction false} WordSlice(ws: seq<u32>, i: nat)
    requires i < |ws|
    ensures Words(ws)[4 * i..4 * i + 4] == Put32(ws[i])
  {
    var head, tail := Put32(ws[0]), Words(ws[1..]);
    assert Words(ws) == head + tail;
    if i != 0 {
      var k := 4 * (i - 1);
      WordSlice(ws[1..], i - 1);
      assert (head + tail)[k + 4..k + 8] == tail[k..k + 4];
    }
  }

  lemma WordAt(ws: seq<u32>, i: nat)
    requires i < |ws|
    ensures Get32(Words(ws), 4 * i) == ws[i]
  {
    WordSlice(ws, i);
    GetOfPut(Words(ws), 4 * i, ws[i]);
  }

  lemma {:induction false} WordsOf(s: seq<u8>, ws: seq<u32>)
    requires |s| == 4 * |ws|
    requires forall i :: 0 <= i < |ws| ==> ws[i] == Get32(s, 4 * i)
    ensures Words(ws) == s
  {
    if ws == [] {
    } else {
      forall i | 0 <= i < |ws[1..]| ensures ws[1..][i] == Get32(s[4..], 4 * i) {
        assert ws[1..][i] == ws[i + 1];
        GetInSlice(s, 4, |s|, 4 * i);
        assert s[4..|s|] == s[4..];
      }
      WordsOf(s[4..], ws[1..]);
      PutOfGet(s, 0);
      assert s == s[0..4] + s[4..];
    }
  }

  // ---- layouts ----

  function EntryWords(e: Entry): seq<u32> { [e.release, e.length, Pack(e.accounting), e.trialId] }

  function EntryBytes(e: Entry): (r: seq<u8>)
    ensures |r| == 48
  {
    e.hash + Words(EntryWords(e))
  }

  function HeaderWords(m: Metadata): seq<u32> {
    [METADATA_MAGIC, FORMAT_VERSION, METADATA_BYTES, m.sequence, m.current, m.candidate, m.previous, m.confirmed]
  }

  function IntentWords(m: Metadata): seq<u32> {
    [m.intentKind, m.intentSlot, m.intentTrialId, 0, 0, 0, 0, 0]
  }

  function MetadataBody(m: Metadata): (r: seq<u8>)
    ensures |r| == METADATA_CRC_BYTES
  {
    Words(HeaderWords(m)) + EntryBytes(m.imageA) + EntryBytes(m.imageB) + Words(IntentWords(m))
  }

  function MetadataBytes(m: Metadata, commit: u32): (r: seq<u8>)
    ensures |r| == METADATA_BYTES
  {
    MetadataBody(m) + Words([Crc.Crc32(MetadataBody(m)), commit])
  }

  function ManifestHeader(m: Manifest): seq<u32> {
    [FORMAT_VERSION, MANIFEST_BYTES, PRODUCT_ID, m.slot, m.base, m.length, m.release, 0]
  }

  function ManifestBytes(m: Manifest): (r: seq<u8>)
    ensures |r| == MANIFEST_BYTES
  {
    MANIFEST_DOMAIN + Words(ManifestHeader(m)) + m.hash + Zeros(16) + m.signature
  }

  // ---- decoders ----

  function ParseEntry(w: seq<u8>): Entry
    requires |w| == 48
  {
    Entry(w[..32], Get32(w, 32), Get32(w, 36), Unpack(Get32(w, 40)), Get32(w, 44))
  }

  function ParseMetadata(w: seq<u8>): Metadata
    requires |w| >= METADATA_BYTES
  {
    Metadata(Get32(w, 12), Get32(w, 16), Get32(w, 20), Get32(w, 24), Get32(w, 28),
             ParseEntry(w[32..80]), ParseEntry(w[80..128]), Get32(w, 128), Get32(w, 132), Get32(w, 136))
  }

  function DecodeMetadata(w: seq<u8>): Decoded<Metadata> {
    if |w| < METADATA_BYTES then Err(SIZE)
    else if Get32(w, 0) != METADATA_MAGIC then Err(MAGIC)
    else if Get32(w, 4) != FORMAT_VERSION then Err(VERSION)
    else if Get32(w, 8) != METADATA_BYTES then Err(LENGTH)
    else if Get32(w, 164) != COMMIT_VALID then Err(COMMIT)
    else if Get32(w, 160) != Crc.Crc32(w[..METADATA_CRC_BYTES]) then Err(CRC)
    else if Get32(w, 140) != 0 || w[144..160] != Zeros(16) then Err(RESERVED)
    else
      var m := ParseMetadata(w);
      if MetadataValidate(m) != OK then Err(MetadataValidate(m)) else Ok(m)
  }

  function ParseManifest(w: seq<u8>): Manifest
    requires |w| >= MANIFEST_BYTES
  {
    Manifest(Get32(w, 28), Get32(w, 32), Get32(w, 36), Get32(w, 40), w[48..80], w[96..160])
  }

  function DecodeManifest(w: seq<u8>): Decoded<Manifest> {
    if |w| < MANIFEST_BYTES then Err(SIZE)
    else if w[..16] != MANIFEST_DOMAIN then Err(DOMAIN)
    else if Get32(w, 16) != FORMAT_VERSION then Err(VERSION)
    else if Get32(w, 20) != MANIFEST_BYTES then Err(LENGTH)
    else if Get32(w, 24) != PRODUCT_ID then Err(PRODUCT)
    else if Get32(w, 44) != 0 || w[80..96] != Zeros(16) then Err(RESERVED)
    else
      var m := ParseManifest(w);
      if ManifestValidate(m) != OK then Err(ManifestValidate(m)) else Ok(m)
  }

  // ---- round trips ----

  lemma FourWords(w: seq<u8>, lo: nat, a: u32, b: u32, c: u32, d: u32)
    requires lo + 16 <= |w|
    ensures w[lo..lo + 16] == Words([a, b, c, d]) <==>
            Get32(w, lo) == a && Get32(w, lo + 4) == b && Get32(w, lo + 8) == c && Get32(w, lo + 12) == d
  {
    var s, ws := w[lo..lo + 16], [a, b, c, d];
    GetInSlice(w, lo, lo + 16, 0); GetInSlice(w, lo, lo + 16, 4);
    GetInSlice(w, lo, lo + 16, 8); GetInSlice(w, lo, lo + 16, 12);
    if s == Words(ws) {
      WordAt(ws, 0); WordAt(ws, 1); WordAt(ws, 2); WordAt(ws, 3);
    }
    if Get32(w, lo) == a && Get32(w, lo + 4) == b && Get32(w, lo + 8) == c && Get32(w, lo + 12) == d {
      forall i | 0 <= i < |ws| ensures ws[i] == Get32(s, 4 * i) {
        assert i == 0 || i == 1 || i == 2 || i == 3;
      }
      WordsOf(s, ws);
    }
  }

  lemma EightWords(w: seq<u8>, lo: nat, a: u32, b: u32, c: u32, d: u32, e: u32, f: u32, g: u32, h: u32)
    requires lo + 32 <= |w|
    ensures w[lo..lo + 32] == Words([a, b, c, d, e, f, g, h]) <==>
            && Get32(w, lo) == a && Get32(w, lo + 4) == b && Get32(w, lo + 8) == c && Get32(w, lo + 12) == d
            && Get32(w, lo + 16) == e && Get32(w, lo + 20) == f && Get32(w, lo + 24) == g && Get32(w, lo + 28) == h
  {
    FourWords(w, lo, a, b, c, d);
    FourWords(w, lo + 16, e, f, g, h);
    WordsAppend([a, b, c, d], [e, f, g, h]);
    assert [a, b, c, d] + [e, f, g, h] == [a, b, c, d, e, f, g, h];
    var x, y := Words([a, b, c, d]), Words([e, f, g, h]);
    assert w[lo..lo + 32] == w[lo..lo + 16] + w[lo + 16..lo + 32];
    if w[lo..lo + 32] == x + y {
      assert w[lo..lo + 16] == w[lo..lo + 32][..16] == x;
      assert w[lo + 16..lo + 32] == w[lo..lo + 32][16..] == y;
    }
  }

  lemma {:induction false} WordsAppend(x: seq<u32>, y: seq<u32>)
    ensures Words(x + y) == Words(x) + Words(y)
  {
    if x == [] {
      assert x + y == y;
    } else {
      assert (x + y)[1..] == x[1..] + y;
      WordsAppend(x[1..], y);
    }
  }

  lemma ParseOfEntryBytes(e: Entry)
    ensures ParseEntry(EntryBytes(e)) == e
  {
    var w := EntryBytes(e);
    var packed := Pack(e.accounting);
    assert w[32..48] == Words([e.release, e.length, packed, e.trialId]);
    FourWords(w, 32, e.release, e.length, packed, e.trialId);
    UnpackOfPack(e.accounting);
    assert w[..32] == e.hash;
  }

  lemma EntryBytesOfParse(w: seq<u8>)
    requires |w| == 48
    ensures EntryBytes(ParseEntry(w)) == w
  {
    var packed := Get32(w, 40);
    PackOfUnpack(packed);
    FourWords(w, 32, Get32(w, 32), Get32(w, 36), packed, Get32(w, 44));
    assert w == w[..32] + w[32..48];
  }

  lemma {:induction false} WordsOfZeros(ws: seq<u32>)
    requires forall i :: 0 <= i < |ws| ==> ws[i] == 0
    ensures Words(ws) == Zeros(4 * |ws|)
  {
    if ws != [] {
      WordsOfZeros(ws[1..]);
      assert Put32(0) == Zeros(4);
      assert Zeros(4) + Zeros(4 * |ws[1..]|) == Zeros(4 * |ws|);
    }
  }

  /** Sixteen zero bytes are four zero words. */
  lemma ZeroWords(w: seq<u8>, lo: nat)
    requires lo + 16 <= |w|
    ensures w[lo..lo + 16] == Zeros(16) <==>
            Get32(w, lo) == 0 && Get32(w, lo + 4) == 0 && Get32(w, lo + 8) == 0 && Get32(w, lo + 12) == 0
  {
    FourWords(w, lo, 0, 0, 0, 0);
    WordsOfZeros([0, 0, 0, 0]);
  }

  lemma HeaderRead(m: Metadata, w: seq<u8>)
    requires |w| >= METADATA_BYTES
    ensures w[0..32] == Words(HeaderWords(m)) <==>
            && Get32(w, 0) == METADATA_MAGIC && Get32(w, 4) == FORMAT_VERSION && Get32(w, 8) == METADATA_BYTES
            && Get32(w, 12) == m.sequence && Get32(w, 16) == m.current && Get32(w, 20) == m.candidate
            && Get32(w, 24) == m.previous && Get32(w, 28) == m.confirmed
  {
    EightWords(w, 0, METADATA_MAGIC, FORMAT_VERSION, METADATA_BYTES, m.sequence,
               m.current, m.candidate, m.previous, m.confirmed);
  }

  lemma IntentRead(m: Metadata, w: seq<u8>)
    requires |w| >= METADATA_BYTES
    ensures w[128..160] == Words(IntentWords(m)) <==>
            && Get32(w, 128) == m.intentKind && Get32(w, 132) == m.intentSlot
            && Get32(w, 136) == m.intentTrialId && Get32(w, 140) == 0 && w[144..160] == Zeros(16)
  {
    EightWords(w, 128, m.intentKind, m.intentSlot, m.intentTrialId, 0, 0, 0, 0, 0);
    ZeroWords(w, 144);
  }

  lemma BodyBlocks(m: Metadata, w: seq<u8>)
    requires |w| >= METADATA_BYTES
    ensures w[..METADATA_CRC_BYTES] == MetadataBody(m) <==>
            && w[0..32] == Words(HeaderWords(m)) && w[32..80] == EntryBytes(m.imageA)
            && w[80..128] == EntryBytes(m.imageB) && w[128..160] == Words(IntentWords(m))
  {
    var b := MetadataBody(m);
    var h, x, y, t := Words(HeaderWords(m)), EntryBytes(m.imageA), EntryBytes(m.imageB), Words(IntentWords(m));
    assert b[0..32] == h && b[32..80] == x && b[80..128] == y && b[128..160] == t;
    var v := w[..160];
    assert w[0..32] == v[0..32] && w[32..80] == v[32..80] && w[80..128] == v[80..128] && w[128..160] == v[128..160];
    assert v == v[0..32] + v[32..80] + v[80..128] + v[128..160];
  }

  lemma ParseOfBody(m: Metadata, w: seq<u8>)
    requires |w| >= METADATA_BYTES && w[..METADATA_CRC_BYTES] == MetadataBody(m)
    ensures ParseMetadata(w) == m
    ensures Get32(w, 0) == METADATA_MAGIC && Get32(w, 4) == FORMAT_VERSION && Get32(w, 8) == METADATA_BYTES
    ensures Get32(w, 140) == 0 && w[144..160] == Zeros(16)
  {
    BodyBlocks(m, w);
    HeaderRead(m, w);
    IntentRead(m, w);
    ParseOfEntryBytes(m.imageA);
    ParseOfEntryBytes(m.imageB);
  }

  lemma BodyOfParse(w: seq<u8>)
    requires |w| >= METADATA_BYTES
    requires Get32(w, 0) == METADATA_MAGIC && Get32(w, 4) == FORMAT_VERSION && Get32(w, 8) == METADATA_BYTES
    requires Get32(w, 140) == 0 && w[144..160] == Zeros(16)
    ensures w[..METADATA_CRC_BYTES] == MetadataBody(ParseMetadata(w))
  {
    var m := ParseMetadata(w);
    HeaderRead(m, w);
    IntentRead(m, w);
    EntryBytesOfParse(w[32..80]);
    EntryBytesOfParse(w[80..128]);
    BodyBlocks(m, w);
  }

  lemma TailRead(crc: u32, commit: u32, w: seq<u8>)
    requires |w| >= METADATA_BYTES
    ensures w[160..168] == Words([crc, commit]) <==> Get32(w, 160) == crc && Get32(w, 164) == commit
  {
    var s, ws := w[160..168], [crc, commit];
    GetInSlice(w, 160, 168, 0);
    GetInSlice(w, 160, 168, 4);
    WordAt(ws, 0);
    WordAt(ws, 1);
    if Get32(w, 160) == crc && Get32(w, 164) == commit {
      forall i | 0 <= i < |ws| ensures ws[i] == Get32(s, 4 * i) {
        assert i == 0 || i == 1;
      }
      WordsOf(s, ws);
    }
  }

  /** A prefix is an encoding exactly when body, check word and commit word are. */
  lemma PrefixBlocks(m: Metadata, commit: u32, w: seq<u8>)
    requires |w| >= METADATA_BYTES
    ensures w[..METADATA_BYTES] == MetadataBytes(m, commit) <==>
            && w[..METADATA_CRC_BYTES] == MetadataBody(m)
            && Get32(w, 160) == Crc.Crc32(MetadataBody(m)) && Get32(w, 164) == commit
  {
    var b, crc := MetadataBody(m), Crc.Crc32(MetadataBody(m));
    TailRead(crc, commit, w);
    var t := Words([crc, commit]);
    assert w[..168] == w[..160] + w[160..168];
    if w[..168] == b + t {
      assert w[..160] == w[..168][..160] == b;
      assert w[160..168] == w[..168][160..] == t;
    }
  }

  /** Any bytes after the prefix are ignored. */
  lemma MetadataDecodesEncoding(m: Metadata, w: seq<u8>)
    requires Valid(m) && |w| >= METADATA_BYTES && w[..METADATA_BYTES] == MetadataBytes(m, COMMIT_VALID)
    ensures DecodeMetadata(w) == Ok(m)
  {
    PrefixBlocks(m, COMMIT_VALID, w);
    ParseOfBody(m, w);
  }

  /** The decoder accepts exactly the canonical bytes of the value it returns. */
  lemma MetadataEncodesDecoding(w: seq<u8>)
    requires DecodeMetadata(w).Ok?
    ensures Valid(DecodeMetadata(w).value)
    ensures w[..METADATA_BYTES] == MetadataBytes(DecodeMetadata(w).value, COMMIT_VALID)
  {
    BodyOfParse(w);
    PrefixBlocks(ParseMetadata(w), COMMIT_VALID, w);
  }

  lemma MetadataCanonical(v: seq<u8>, w: seq<u8>)
    requires DecodeMetadata(v).Ok? && DecodeMetadata(w).Ok?
    ensures DecodeMetadata(v) == DecodeMetadata(w) <==> v[..METADATA_BYTES] == w[..METADATA_BYTES]
  {
    MetadataEncodesDecoding(v);
    MetadataEncodesDecoding(w);
    MetadataDecodesEncoding(DecodeMetadata(v).value, v);
    if v[..METADATA_BYTES] == w[..METADATA_BYTES] {
      MetadataDecodesEncoding(DecodeMetadata(w).value, v);
    }
  }

  lemma ManifestBlocks(m: Manifest, w: seq<u8>)
    requires |w| >= MANIFEST_BYTES && w[..MANIFEST_BYTES] == ManifestBytes(m)
    ensures w[..16] == MANIFEST_DOMAIN && w[16..48] == Words(ManifestHeader(m))
    ensures w[48..80] == m.hash && w[80..96] == Zeros(16) && w[96..160] == m.signature
  {
    var p := ManifestBytes(m);
    assert w[..16] == p[..16];
    assert w[16..48] == p[16..48];
    assert w[48..80] == p[48..80];
    assert w[80..96] == p[80..96];
    assert w[96..160] == p[96..160];
  }

  lemma ManifestHeaderRead(m: Manifest, w: seq<u8>)
    requires |w| >= MANIFEST_BYTES
    ensures w[16..48] == Words(ManifestHeader(m)) <==>
            && Get32(w, 16) == FORMAT_VERSION && Get32(w, 20) == MANIFEST_BYTES && Get32(w, 24) == PRODUCT_ID
            && Get32(w, 28) == m.slot && Get32(w, 32) == m.base && Get32(w, 36) == m.length
            && Get32(w, 40) == m.release && Get32(w, 44) == 0
  {
    EightWords(w, 16, FORMAT_VERSION, MANIFEST_BYTES, PRODUCT_ID, m.slot, m.base, m.length, m.release, 0);
  }

  lemma ManifestDecodesEncoding(m: Manifest, w: seq<u8>)
    requires ManifestValidate(m) == OK && |w| >= MANIFEST_BYTES && w[..MANIFEST_BYTES] == ManifestBytes(m)
    ensures DecodeManifest(w) == Ok(m)
  {
    ManifestBlocks(m, w);
    ManifestHeaderRead(m, w);
  }

  lemma ManifestEncodesDecoding(w: seq<u8>)
    requires DecodeManifest(w).Ok?
    ensures ManifestValidate(DecodeManifest(w).value) == OK
    ensures w[..MANIFEST_BYTES] == ManifestBytes(DecodeManifest(w).value)
  {
    var m := DecodeManifest(w).value;
    ManifestHeaderRead(m, w);
    assert w[..160] == w[..16] + w[16..48] + w[48..80] + w[80..96] + w[96..160];
  }

  lemma ManifestCanonical(v: seq<u8>, w: seq<u8>)
    requires DecodeManifest(v).Ok? && DecodeManifest(w).Ok?
    ensures DecodeManifest(v) == DecodeManifest(w) <==> v[..MANIFEST_BYTES] == w[..MANIFEST_BYTES]
  {
    ManifestEncodesDecoding(v);
    ManifestEncodesDecoding(w);
    if v[..MANIFEST_BYTES] == w[..MANIFEST_BYTES] {
      ManifestDecodesEncoding(DecodeManifest(w).value, v);
    }
  }

  // ---- records and their bytes, closed ----
  //
  // Record, Encoding and ManifestOf are DecodeMetadata, MetadataBytes and DecodeManifest behind a descent that
  // the verifier does not follow; the lemmas after them are all that the other components use.

  function Record(w: seq<u8>): Decoded<Metadata> { RecordBehind(w, 2 + |w|) }

  function RecordBehind(w: seq<u8>, depth: nat): Decoded<Metadata> {
    if depth == 0 then DecodeMetadata(w) else RecordBehind(w, depth - 1)
  }

  function ManifestOf(w: seq<u8>): (r: Decoded<Manifest>)
    ensures r.Ok? ==> SlotValid(r.value.slot) && r.value.base == SlotBase(r.value.slot)
    ensures r.Ok? ==> PAYLOAD_MIN <= r.value.length <= PAYLOAD_MAX && r.value.length % 4 == 0
    ensures r.Ok? ==> |w| >= MANIFEST_BYTES
  {
    ManifestBehind(w, 2 + |w|)
  }

  function ManifestBehind(w: seq<u8>, depth: nat): (r: Decoded<Manifest>)
    ensures r.Ok? ==> SlotValid(r.value.slot) && r.value.base == SlotBase(r.value.slot)
    ensures r.Ok? ==> PAYLOAD_MIN <= r.value.length <= PAYLOAD_MAX && r.value.length % 4 == 0
    ensures r.Ok? ==> |w| >= MANIFEST_BYTES
  {
    if depth == 0 then DecodeManifest(w) else ManifestBehind(w, depth - 1)
  }

  lemma ManifestOpen(w: seq<u8>)
    ensures ManifestOf(w) == DecodeManifest(w)
  {
    ManifestDescent(w, 2 + |w|);
  }

  lemma {:induction false} ManifestDescent(w: seq<u8>, depth: nat)
    ensures ManifestBehind(w, depth) == DecodeManifest(w)
  {
    if depth != 0 { ManifestDescent(w, depth - 1); }
  }

  function Encoding(m: Metadata, commit: u32): (r: seq<u8>)
    ensures |r| == METADATA_BYTES
  {
    EncodingBehind(m, commit, 2 + m.sequence)
  }

  function EncodingBehind(m: Metadata, commit: u32, depth: nat): (r: seq<u8>)
    ensures |r| == METADATA_BYTES
  {
    if depth == 0 then MetadataBytes(m, commit) else EncodingBehind(m, commit, depth - 1)
  }

  lemma RecordOpen(w: seq<u8>)
    ensures Record(w) == DecodeMetadata(w)
  {
    RecordDescent(w, 2 + |w|);
  }

  lemma {:induction false} RecordDescent(w: seq<u8>, depth: nat)
    ensures RecordBehind(w, depth) == DecodeMetadata(w)
  {
    if depth != 0 { RecordDescent(w, depth - 1); }
  }

  lemma EncodingOpen(m: Metadata, commit: u32)
    ensures Encoding(m, commit) == MetadataBytes(m, commit)
  {
    var depth: nat := 2 + m.sequence;
    assert Encoding(m, commit) == EncodingBehind(m, commit, depth);
    EncodingDescent(m, commit, depth);
  }

  lemma {:induction false} EncodingDescent(m: Metadata, commit: u32, depth: nat)
    ensures EncodingBehind(m, commit, depth) == MetadataBytes(m, commit)
  {
    if depth != 0 { EncodingDescent(m, commit, depth - 1); }
  }

  /** A prefix holds a record exactly when it is the record's committed encoding. */
  lemma RecordIsEncoding(w: seq<u8>, m: Metadata)
    requires |w| == METADATA_BYTES
    ensures Record(w) == Ok(m) <==> Valid(m) && w == Encoding(m, COMMIT_VALID)
  {
    RecordOpen(w);
    EncodingOpen(m, COMMIT_VALID);
    assert w[..METADATA_BYTES] == w;
    if DecodeMetadata(w) == Ok(m) { MetadataEncodesDecoding(w); }
    if Valid(m) && w == MetadataBytes(m, COMMIT_VALID) { MetadataDecodesEncoding(m, w); }
  }

  lemma RecordValid(w: seq<u8>)
    requires Record(w).Ok?
    ensures Valid(Record(w).value)
  {
    RecordOpen(w);
  }

  lemma RecordSize(w: seq<u8>)
    ensures Record(w).Ok? ==> |w| >= METADATA_BYTES
  {
    RecordOpen(w);
  }

  lemma RecordMarks(w: seq<u8>)
    requires |w| == METADATA_BYTES && Record(w).Ok?
    ensures w[0] == 0x41 && Get32(w, 164) == COMMIT_VALID
  {
    RecordOpen(w);
    LowByte(w, METADATA_MAGIC);
  }

  lemma LowByte(w: seq<u8>, v: u32)
    requires |w| >= 4 && Get32(w, 0) == v
    ensures w[0] == v % 0x100
  {
    PutOfGet(w, 0);
  }

  lemma EncodingInjective(m: Metadata, n: Metadata)
    requires Valid(m) && Valid(n) && Encoding(m, COMMIT_VALID) == Encoding(n, COMMIT_VALID)
    ensures m == n
  {
    RecordIsEncoding(Encoding(m, COMMIT_VALID), m);
    RecordIsEncoding(Encoding(m, COMMIT_VALID), n);
  }

  /** An encoding by its body, check word and commit word. */
  lemma EncodingBlocks(m: Metadata, commit: u32, w: seq<u8>)
    requires |w| == METADATA_BYTES
    ensures w == Encoding(m, commit) <==>
            && w[..METADATA_CRC_BYTES] == MetadataBody(m)
            && Get32(w, 160) == Crc.Crc32(MetadataBody(m)) && Get32(w, 164) == commit
  {
    EncodingOpen(m, commit);
    PrefixBlocks(m, commit, w);
    assert w[..METADATA_BYTES] == w;
  }

  lemma SamePrefix(v: seq<u8>, w: seq<u8>, n: nat)
    requires n <= |v| && n <= |w| && v[..n] == w[..n]
    ensures forall at {:trigger Get32(v, at)} :: 0 <= at && at + 4 <= n ==> Get32(v, at) == Get32(w, at)
    ensures forall k {:trigger v[..k]} :: 0 <= k <= n ==> v[..k] == w[..k]
  {
    forall at {:trigger Get32(v, at)} | 0 <= at && at + 4 <= n ensures Get32(v, at) == Get32(w, at) {
      assert v[at..at + 4] == v[..n][at..at + 4] == w[at..at + 4];
    }
    forall k {:trigger v[..k]} | 0 <= k <= n ensures v[..k] == w[..k] {
      assert v[..k] == v[..n][..k] == w[..k];
    }
  }

  /** The two encodings of a record differ in the commit word only. */
  lemma EncodingCommit(m: Metadata, w: seq<u8>)
    requires |w| == METADATA_BYTES
    requires w[..164] == Encoding(m, COMMIT_ERASED)[..164] && w[164..] == Put32(COMMIT_VALID)
    ensures w == Encoding(m, COMMIT_VALID)
  {
    var staged := Encoding(m, COMMIT_ERASED);
    CommitAfterStaging(m, staged, w);
  }

  lemma CommitAfterStaging(m: Metadata, staged: seq<u8>, w: seq<u8>)
    requires |w| == METADATA_BYTES == |staged| && staged == Encoding(m, COMMIT_ERASED)
    requires w[..164] == staged[..164] && w[164..] == Put32(COMMIT_VALID)
    ensures w == Encoding(m, COMMIT_VALID)
  {
    assert staged[..METADATA_CRC_BYTES] == MetadataBody(m) && Get32(staged, 160) == Crc.Crc32(MetadataBody(m)) by {
      EncodingBlocks(m, COMMIT_ERASED, staged);
    }
    assert w[..METADATA_CRC_BYTES] == staged[..METADATA_CRC_BYTES] && Get32(w, 160) == Get32(staged, 160) by {
      SamePrefix(w, staged, 164);
    }
    GetOfPut(w, 164, COMMIT_VALID);
    EncodingBlocks(m, COMMIT_VALID, w);
  }

  lemma EncodingMarks(m: Metadata)
    ensures Encoding(m, COMMIT_ERASED)[0] == 0x41
    ensures Encoding(m, COMMIT_ERASED)[164..] == Put32(COMMIT_ERASED)
  {
    var w := Encoding(m, COMMIT_ERASED);
    assert w[..METADATA_CRC_BYTES] == MetadataBody(m) && Get32(w, 164) == COMMIT_ERASED by {
      EncodingBlocks(m, COMMIT_ERASED, w);
    }
    PutOfGet(w, 164);
    assert Get32(w, 0) == METADATA_MAGIC by {
      BodyBlocks(m, w);
      HeaderRead(m, w);
    }
    LowByte(w, METADATA_MAGIC);
  }

  // ---- page selection ----

  datatype Selection = Selected(record: Metadata, page: nat) | NoRecord | Conflict

  /** boot_metadata_select. */
  function SelectPage(page0: seq<u8>, page1: seq<u8>): Selection {
    var r0, r1 := Record(page0), Record(page1);
    RecordSize(page0);
    RecordSize(page1);
    if r0.Err? && r1.Err? then NoRecord
    else if r0.Ok? && r1.Ok? then
      if r0.value.sequence == r1.value.sequence && page0[..METADATA_BYTES] != page1[..METADATA_BYTES] then Conflict
      else if r1.value.sequence > r0.value.sequence then Selected(r1.value, 1)
      else Selected(r0.value, 0)
    else if r0.Ok? then Selected(r0.value, 0)
    else Selected(r1.value, 1)
  }

  // ---- in-place encoders ----

  /** put32 at an offset of a buffer. */
  method Store32(wire: array<u8>, at: nat, v: u32)
    requires at + 4 <= wire.Length
    modifies wire
    ensures wire[..] == old(wire[..at]) + Put32(v) + old(wire[at + 4..])
  {
    var bytes := Put32(v);
    wire[at], wire[at + 1], wire[at + 2], wire[at + 3] := bytes[0], bytes[1], bytes[2], bytes[3];
  }

  /** memcpy into a buffer. */
  method Copy(wire: array<u8>, at: nat, bytes: seq<u8>)
    requires at + |bytes| <= wire.Length
    modifies wire
    ensures wire[..at + |bytes|] == old(wire[..at]) + bytes
    ensures wire[at + |bytes|..] == old(wire[at + |bytes|..])
  {
    forall i | 0 <= i < |bytes| {
      wire[at + i] := bytes[i];
    }
  }

  /** Writes consecutive words. */
  method StoreWords(wire: array<u8>, at: nat, ws: seq<u32>)
    requires at + 4 * |ws| <= wire.Length
    modifies wire
    ensures wire[..at + 4 * |ws|] == old(wire[..at]) + Words(ws)
    ensures wire[at + 4 * |ws|..] == old(wire[at + 4 * |ws|..])
  {
    ghost var first := wire[..];
    for i := 0 to |ws|
      invariant wire[..] == first[..at] + Words(ws[..i]) + first[at + 4 * i..]
    {
      ghost var before := wire[..];
      Store32(wire, at + 4 * i, ws[i]);
      WordsAppend(ws[..i], [ws[i]]);
      assert ws[..i + 1] == ws[..i] + [ws[i]];
      assert Words([ws[i]]) == Put32(ws[i]);
      assert before[..at + 4 * i] == first[..at] + Words(ws[..i]);
      assert before[at + 4 * i + 4..] == first[at + 4 * (i + 1)..];
    }
    assert ws[..|ws|] == ws;
  }

  /** boot_metadata_encode: validates first, then fills only the fixed prefix. */
  method EncodeMetadata(m: Metadata, commit: u32, wire: array<u8>) returns (status: Status)
    modifies wire
    ensures status == (if wire.Length < METADATA_BYTES then SIZE
                       else if commit != COMMIT_ERASED && commit != COMMIT_VALID then COMMIT
                       else MetadataValidate(m))
    ensures status == OK ==> wire[..] == MetadataBytes(m, commit) + old(wire[METADATA_BYTES..])
    ensures status != OK ==> wire[..] == old(wire[..])
  {
    if wire.Length < METADATA_BYTES { return SIZE; }
    if commit != COMMIT_ERASED && commit != COMMIT_VALID { return COMMIT; }
    status := MetadataValidate(m);
    if status != OK { return; }
    assert wire[METADATA_CRC_BYTES..][8..] == wire[METADATA_BYTES..];
    EncodeBody(m, wire);
    EncodeTail(m, commit, wire);
    assert wire[..] == wire[..METADATA_BYTES] + wire[METADATA_BYTES..];
  }

  method EncodeTail(m: Metadata, commit: u32, wire: array<u8>)
    requires METADATA_BYTES <= wire.Length && wire[..METADATA_CRC_BYTES] == MetadataBody(m)
    modifies wire
    ensures wire[..METADATA_BYTES] == MetadataBytes(m, commit)
    ensures wire[METADATA_BYTES..] == old(wire[METADATA_CRC_BYTES..][8..])
  {
    var crc := Crc.Compute(wire[..METADATA_CRC_BYTES]);
    PowerOf32();
    Crc.CrcOpen(wire[..METADATA_CRC_BYTES]);
    ghost var tail := wire[METADATA_CRC_BYTES..];
    assert tail[8..] == wire[METADATA_BYTES..];
    StoreWords(wire, METADATA_CRC_BYTES, [Value(crc), commit]);
  }

  method EncodeBody(m: Metadata, wire: array<u8>)
    requires METADATA_BYTES <= wire.Length
    modifies wire
    ensures wire[..METADATA_CRC_BYTES] == MetadataBody(m)
    ensures wire[METADATA_CRC_BYTES..] == old(wire[METADATA_CRC_BYTES..])
  {
    ghost var tail := wire[METADATA_CRC_BYTES..];
    StoreWords(wire, 0, HeaderWords(m));
    assert wire[METADATA_CRC_BYTES..] == wire[32..][128..] == tail;
    EncodeEntry(m.imageA, wire, 32);
    assert wire[METADATA_CRC_BYTES..] == wire[80..][80..] == tail;
    EncodeEntry(m.imageB, wire, 80);
    assert wire[METADATA_CRC_BYTES..] == wire[128..][32..] == tail;
    StoreWords(wire, 128, IntentWords(m));
  }

  method EncodeEntry(e: Entry, wire: array<u8>, at: nat)
    requires at + 48 <= wire.Length
    modifies wire
    ensures wire[..at + 48] == old(wire[..at]) + EntryBytes(e)
    ensures wire[at + 48..] == old(wire[at + 48..])
  {
    Copy(wire, at, e.hash);
    StoreWords(wire, at + 32, EntryWords(e));
  }

  /** boot_manifest_encode. */
  method EncodeManifest(m: Manifest, wire: array<u8>) returns (status: Status)
    modifies wire
    ensures status == (if wire.Length < MANIFEST_BYTES then SIZE else ManifestValidate(m))
    ensures status == OK ==> wire[..] == ManifestBytes(m) + old(wire[MANIFEST_BYTES..])
    ensures status != OK ==> wire[..] == old(wire[..])
  {
    if wire.Length < MANIFEST_BYTES { return SIZE; }
    status := ManifestValidate(m);
    if status != OK { return; }
    Copy(wire, 0, Zeros(MANIFEST_BYTES));
    assert wire[80..][..16] == wire[..MANIFEST_BYTES][80..96] == Zeros(16);
    assert wire[80..][80..] == wire[MANIFEST_BYTES..];
    EncodeManifestHeader(m, wire);
    assert wire[..96] == wire[..80] + wire[80..][..16];
    assert wire[96..][64..] == wire[80..][80..];
    Copy(wire, 96, m.signature);
    assert wire[..] == wire[..MANIFEST_BYTES] + wire[MANIFEST_BYTES..];
  }

  method EncodeManifestHeader(m: Manifest, wire: array<u8>)
    requires MANIFEST_BYTES <= wire.Length
    modifies wire
    ensures wire[..80] == MANIFEST_DOMAIN + Words(ManifestHeader(m)) + m.hash
    ensures wire[80..] == old(wire[80..])
  {
    Copy(wire, 0, MANIFEST_DOMAIN);
    assert wire[80..] == wire[16..][64..] == old(wire[80..]);
    StoreWords(wire, 16, ManifestHeader(m));
    assert wire[80..] == wire[48..][32..] == old(wire[80..]);
    Copy(wire, 48, m.hash);
  }
}
