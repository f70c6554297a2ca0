/** The RAM file: one committed buffer, one staging buffer, and a commit that swaps their roles. */
module RamFile {
  import opened Bytes

  const NAME_MAX: nat := 63

  datatype StorageResult = STORED | CAPACITY_EXCEEDED | INVALID_STATE

  predicate NameCharacter(c: char) {
    'A' <= c <= 'Z' || 'a' <= c <= 'z' || '0' <= c <= '9' || c == '.' || c == '_' || c == '-'
  }

  predicate NameValid(name: string) {
    && 0 < |name| <= NAME_MAX && name != "." && name != ".."
    && forall i :: 0 <= i < |name| ==> NameCharacter(name[i])
  }

  class File {
    const bufferA: array<u8>
    const bufferB: array<u8>
    const capacity: nat
    const basename: string
    var committed: nat
    var committedLength: nat
    var stagingLength: nat
    var present: bool
    var uploading: bool
    /** The committed file: what every reader sees. */
    ghost var contents: Option<seq<u8>>
    /** What the current upload has appended so far. */
    ghost var staging: seq<u8>

    /** ram_file_init with arguments that it accepts: an absent file and no upload. */
    constructor (bufferA: array<u8>, bufferB: array<u8>, capacity: nat, basename: string)
      requires bufferA != bufferB && bufferA.Length >= capacity && bufferB.Length >= capacity
      requires 0 < capacity <= UINT32_MAX && NameValid(basename)
      ensures Valid() && contents == None && !uploading
      ensures this.bufferA == bufferA && this.bufferB == bufferB && this.capacity == capacity && this.basename == basename
    {
      this.bufferA, this.bufferB, this.capacity, this.basename := bufferA, bufferB, capacity, basename;
      committed, committedLength, stagingLength, present, uploading := 0, 0, 0, false, false;
      contents, staging := None, [];
      new;
      ValidOpen();
    }

    ghost predicate Meaning()
      reads this, bufferA, bufferB
    {
      && bufferA != bufferB && bufferA.Length >= capacity && bufferB.Length >= capacity
      && 0 < capacity <= UINT32_MAX && NameValid(basename)
      && committed <= 1 && committedLength <= capacity && stagingLength <= capacity
      && (!present ==> committedLength == 0) && (!uploading ==> stagingLength == 0)
      && contents == (if present then Some(Buffer(committed)[..committedLength]) else None)
      && staging == Buffer(1 - committed)[..stagingLength]
    }

    ghost predicate Valid()
      reads this, bufferA, bufferB
    {
      ValidBehind(2 + capacity) == Yes
    }

    /** The same, behind a descent that the verifier does not follow (see ValidOpen). */
    ghost function ValidBehind(depth: nat): (v: Verdict)
      reads this, bufferA, bufferB
      decreases depth
      ensures v == Yes ==> (contents.Some? ==> |contents.value| <= capacity) && |staging| <= capacity <= UINT32_MAX
    {
      if depth != 0 then ValidBehind(depth - 1) else if Meaning() then Yes else No
    }

    lemma {:induction false} ValidDescent(depth: nat)
      ensures ValidBehind(depth) == Yes <==> Meaning()
    {
      if depth != 0 { ValidDescent(depth - 1); }
    }

    lemma ValidOpen()
      ensures Valid() <==> Meaning()
    {
      ValidDescent(2 + capacity);
    }

    function Buffer(role: nat): array<u8> { if role == 0 then bufferA else bufferB }

    /** The basename, alone or behind one slash. */
    predicate MatchesName(name: string) {
      && 0 < |name| <= NAME_MAX + 1
      && (if name[0] == '/' then name[1..] else name) == basename
    }

    /** inspect. */
    method Inspect() returns (view: Option<seq<u8>>)
      requires Valid()
      ensures view == contents
    {
      ValidOpen();
      return if present then Some(Buffer(committed)[..committedLength]) else None;
    }

    method Clear()
      requires Valid()
      modifies this
      ensures Valid() && contents == None && !uploading
    {
      ValidOpen();
      committedLength, stagingLength, present, uploading := 0, 0, false, false;
      contents, staging := None, [];
      ValidOpen();
    }

    method Begin() returns (ok: bool)
      requires Valid()
      modifies this`stagingLength, this`uploading, this`staging
      ensures Valid() && (ok <==> !old(uploading))
      ensures uploading && staging == if ok then [] else old(staging)
    {
      if uploading { return false; }
      ValidOpen();
      stagingLength, uploading, staging := 0, true, [];
      ValidOpen();
      return true;
    }

    /** The whole chunk or nothing, and never into the committed buffer. */
    method Append(bytes: seq<u8>) returns (result: StorageResult)
      requires Valid()
      modifies this`stagingLength, this`staging, bufferA, bufferB
      ensures Valid()
      ensures result == (if !uploading then INVALID_STATE
                         else if |old(staging)| + |bytes| <= capacity then STORED else CAPACITY_EXCEEDED)
      ensures staging == if result == STORED then old(staging) + bytes else old(staging)
    {
      if !uploading { return INVALID_STATE; }
      if |bytes| == 0 {
        assert staging + bytes == staging;
        return STORED;
      }
      ValidOpen();
      if |bytes| > capacity - stagingLength { return CAPACITY_EXCEEDED; }
      var target := Buffer(1 - committed);
      ghost var file := Buffer(committed)[..];
      forall i | 0 <= i < |bytes| {
        target[stagingLength + i] := bytes[i];
      }
      assert target[..stagingLength + |bytes|] == staging + bytes;
      assert Buffer(committed)[..] == file && Buffer(committed)[..committedLength] == file[..committedLength];
      stagingLength, staging := stagingLength + |bytes|, staging + bytes;
      ValidOpen();
      return STORED;
    }

    method Abort()
      requires Valid()
      modifies this`stagingLength, this`uploading, this`staging
      ensures Valid() && !uploading
    {
      ValidOpen();
      stagingLength, uploading, staging := 0, false, [];
      ValidOpen();
    }

    /** Everything appended becomes the file at once, or nothing changes. */
    method Commit() returns (ok: bool)
      requires Valid()
      modifies this
      ensures Valid() && !uploading
      ensures ok <==> old(uploading)
      ensures contents == if ok then Some(old(staging)) else old(contents)
    {
      if !uploading { return false; }
      ValidOpen();
      committed, committedLength, present := 1 - committed, stagingLength, true;
      contents := Some(staging);
      stagingLength, uploading, staging := 0, false, [];
      ValidOpen();
      return true;
    }
  }
}
