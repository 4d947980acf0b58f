/** Copying a received firmware image into the update slot, 256 bytes at a time. */
module FuotaCopy {
  import opened Errors
  import opened Bytes

  const APPLY_CHUNK := 256
  const OFFSET_RANGE := 0x1_0000_0000

  /** One buffered write to the slot. */
  datatype Write = Write(data: seq<byte>, flush: bool)

  /** The writes that copy an image from an offset on. */
  function Chunks(image: seq<byte>, offset: nat): seq<Write>
    requires offset <= |image|
    decreases |image| - offset
  {
    var remaining := |image| - offset;
    if remaining == 0 then []
    else
      var request := Min(remaining, APPLY_CHUNK);
      [Write(image[offset..offset + request], remaining <= APPLY_CHUNK)] + Chunks(image, offset + request)
  }

  function Concat(writes: seq<Write>): seq<byte> {
    if writes == [] then [] else writes[0].data + Concat(writes[1..])
  }

  /** The copy is complete and in order. */
  lemma {:induction false} ChunksCoverImage(image: seq<byte>, offset: nat)
    requires offset <= |image|
    ensures Concat(Chunks(image, offset)) == image[offset..]
    decreases |image| - offset
  {
    if offset < |image| {
      var request := Min(|image| - offset, APPLY_CHUNK);
      ChunksCoverImage(image, offset + request);
      assert image[offset..] == image[offset..offset + request] + image[offset + request..];
    }
  }

  /** Chunks are full but for the last, and only the last is flushed. */
  lemma {:induction false} OnlyTheLastIsFlushed(image: seq<byte>, offset: nat)
    requires offset <= |image|
    ensures var writes := Chunks(image, offset);
            && |writes| == (|image| - offset + APPLY_CHUNK - 1) / APPLY_CHUNK
            && forall i | 0 <= i < |writes| ::
                 && 1 <= |writes[i].data| <= APPLY_CHUNK
                 && (writes[i].flush <==> i == |writes| - 1)
                 && (i < |writes| - 1 ==> |writes[i].data| == APPLY_CHUNK)
    decreases |image| - offset
  {
    if offset < |image| {
      OnlyTheLastIsFlushed(image, offset + Min(|image| - offset, APPLY_CHUNK));
    }
  }

  lemma {:induction false} ConcatPrefix(writes: seq<Write>, k: nat)
    requires k <= |writes|
    ensures Concat(writes[..k]) <= Concat(writes)
  {
    if k > 0 {
      assert writes[..k][1..] == writes[1..][..k - 1];
      ConcatPrefix(writes[1..], k - 1);
    }
  }

  /** The writes so far and the chunks from here on are the whole copy. */
  ghost predicate CopiedTo(image: seq<byte>, written: seq<Write>, offset: nat) {
    offset <= |image| && written + Chunks(image, offset) == Chunks(image, 0)
  }

  lemma NextChunk(image: seq<byte>, written: seq<Write>, offset: nat, request: nat, flush: bool)
    requires CopiedTo(image, written, offset) && offset < |image|
    requires request == Min(|image| - offset, APPLY_CHUNK) && flush == (|image| - offset <= APPLY_CHUNK)
    ensures CopiedTo(image, written + [Write(image[offset..offset + request], flush)], offset + request)
    ensures written <= Chunks(image, 0)
  {
    var next, rest := Write(image[offset..offset + request], flush), Chunks(image, offset + request);
    assert Chunks(image, offset) == [next] + rest;
    assert (written + [next]) + rest == written + ([next] + rest);
  }

  lemma CopyIsDone(image: seq<byte>, written: seq<Write>)
    requires CopiedTo(image, written, |image|)
    ensures written == Chunks(image, 0)
  {
    assert written + [] == written;
  }

  /** The stored image behind the backend, the slot, and the boot request. */
  class Target {
    const image: seq<byte>
    ghost var written: seq<Write>
    ghost var upgradeRequested: bool
    ghost var faulted: bool

    constructor (image: seq<byte>)
      ensures this.image == image && written == [] && !upgradeRequested && !faulted
    {
      this.image := image;
      written, upgradeRequested, faulted := [], false, false;
    }

    /** The backend's image read; it must stay within the image. */
    method ReadImage(offset: nat, chunk: array<byte>, size: nat) returns (rc: int)
      requires size <= chunk.Length && offset + size <= |image|
      modifies this`faulted, chunk
      ensures faulted == (old(faulted) || rc != OK)
      ensures rc == OK ==> chunk[..size] == image[offset..offset + size]
    {
      rc := *;
      faulted := faulted || rc != OK;
      if rc == OK {
        for i := 0 to size
          modifies chunk
          invariant chunk[..i] == image[offset..offset + i]
        {
          chunk[i] := image[offset + i];
        }
      }
    }

    method WriteSlot(chunk: array<byte>, size: nat, flush: bool) returns (rc: int)
      requires size <= chunk.Length
      modifies this`written, this`faulted
      ensures faulted == (old(faulted) || rc != OK)
      ensures written == if rc == OK then old(written) + [Write(chunk[..size], flush)] else old(written)
    {
      rc := *;
      faulted := faulted || rc != OK;
      if rc == OK {
        written := written + [Write(chunk[..size], flush)];
      }
    }

    method RequestUpgrade() returns (rc: int)
      modifies this`upgradeRequested, this`faulted
      ensures upgradeRequested && faulted == (old(faulted) || rc != OK)
    {
      rc := *;
      faulted := faulted || rc != OK;
      upgradeRequested := true;
    }

    method CopyChunk(offset: nat, request: nat, flush: bool, chunk: array<byte>) returns (rc: int)
      requires request <= chunk.Length && offset + request <= |image| <= OFFSET_RANGE && 0 < request
      modifies this`written, this`faulted, chunk
      ensures faulted == (old(faulted) || rc != OK)
      ensures written
           == if rc == OK then old(written) + [Write(image[offset..offset + request], flush)] else old(written)
    {
      rc := ReadImage(offset % OFFSET_RANGE, chunk, request);
      if rc == OK {
        rc := WriteSlot(chunk, request, flush);
      }
    }

    /**
     * The copy loop. On success the writes are exactly the chunks of the image; on any failure they are a
     * prefix of them. The upgrade is requested only after the last chunk.
     */
    method CopyImageToSlot(readable: bool, initRc: int) returns (rc: int)
      requires |image| <= OFFSET_RANGE && written == [] && !upgradeRequested && !faulted
      modifies this
      ensures written <= Chunks(image, 0)
      ensures upgradeRequested ==> written == Chunks(image, 0)
      ensures rc == OK <==> readable && initRc == OK && !faulted
      ensures rc == OK ==> upgradeRequested
      ensures !readable ==> rc == ERR_NOT_SUPPORTED && written == []
      ensures readable && initRc != OK ==> rc == initRc && written == []
    {
      if !readable {
        return ERR_NOT_SUPPORTED;
      }
      rc := initRc;
      if rc != OK {
        return;
      }
      var chunk := new byte[APPLY_CHUNK](_ => 0);
      var remaining, offset := |image|, 0;
      while remaining > 0
        invariant 0 <= remaining && remaining + offset == |image| && CopiedTo(image, written, offset)
        invariant !upgradeRequested && !faulted
        decreases remaining
      {
        var request := Min(remaining, APPLY_CHUNK);
        var flush := remaining <= APPLY_CHUNK;
        NextChunk(image, written, offset, request, flush);
        rc := CopyChunk(offset, request, flush, chunk);
        if rc != OK {
          return;
        }
        offset := offset + request;
        remaining := remaining - request;
      }
      CopyIsDone(image, written);
      rc := RequestUpgrade();
    }
  }

  /** What a successful copy means for the slot, and a failed one at any point. */
  lemma CopyMeaning(image: seq<byte>, written: seq<Write>)
    requires written <= Chunks(image, 0)
    ensures Concat(written) <= image
    ensures written == Chunks(image, 0) ==> Concat(written) == image
    ensures forall i | 0 <= i < |written| :: written[i].flush ==> written == Chunks(image, 0) && i == |written| - 1
  {
    ChunksCoverImage(image, 0);
    OnlyTheLastIsFlushed(image, 0);
    assert image[0..] == image;
    var k := |written|;
    assert Chunks(image, 0)[..k] == written;
    ConcatPrefix(Chunks(image, 0), k);
  }
}
