/** Putting a stream into the file store and into the object store. */
module BlobStores {
  import opened Wrappers
  import opened Bytes
  import opened Streams

  const CHUNK_SIZE := 8 * 1024 * 1024

  datatype PutError = BlobTooLarge | StoreFailed

  /** What the operating system refuses during one Put; space is what the disk takes before a write fails. */
  datatype FsFaults = FsFaults(create: bool, space: Option<nat>, close: bool, remove: bool)

  const NO_FS_FAULTS := FsFaults(false, None, false, false)

  /** When a stream of this length is accepted under this cap. The largest cap there is accepts nothing. */
  predicate Fits(length: int, maxBytes: int) {
    length <= maxBytes < MAX_INT64
  }

  /** When reading a stream through the cap runs into the cap, given whether its end comes with its last bytes. */
  predicate Overflows(length: int, endsWithData: bool, maxBytes: int) {
    || !(0 <= maxBytes < MAX_INT64)
    || length > maxBytes + 1
    || (length == maxBytes + 1 && !endsWithData)
  }

  /** How much of a stream is let through the cap. */
  function Readable(length: int, maxBytes: int): int {
    if !(0 <= maxBytes < MAX_INT64) then 0 else if length <= maxBytes then length else maxBytes + 1
  }

  lemma CapLeft(maxBytes: int)
    requires MIN_INT64 <= maxBytes <= MAX_INT64
    ensures maxBytes < MAX_INT64 ==> Wrap64(maxBytes + 1) == maxBytes + 1
    ensures maxBytes == MAX_INT64 ==> Wrap64(maxBytes + 1) == MIN_INT64
  {
  }

  class FsStorage {
    var files: map<string, Bytes>

    constructor ()
      ensures files == map[]
    {
      files := map[];
    }

    method RemoveFile(key: string, fails: bool)
      modifies this
      ensures files == if fails then old(files) else old(files) - {key}
    {
      if !fails {
        files := files - {key};
      }
    }

    /** Appends to the file, as far as there is space. */
    method WriteChunk(key: string, data: Bytes, space: Option<nat>) returns (failed: bool)
      requires key in files && (space.Some? ==> |files[key]| <= space.value)
      modifies this
      ensures failed <==> space.Some? && |old(files)[key]| + |data| > space.value
      ensures files == old(files)[key := old(files)[key] + if failed then data[..space.value - |old(files)[key]|] else data]
    {
      var part := data;
      failed := space.Some? && |files[key]| + |data| > space.value;
      if failed {
        part := data[..space.value - |files[key]|];
      }
      files := files[key := files[key] + part];
    }

    /** Copies the reader into the file, a chunk at a time, until the reader ends or a write fails. */
    method CopyBuffer(key: string, reader: CapReader, faults: FsFaults, ghost stream: Bytes, ghost maxBytes: int)
      returns (status: Status, failed: bool)
      requires key in files && files[key] == [] && stream == reader.r.Rest()
      requires reader.n == 0 && !reader.overflowed && reader.left == Wrap64(maxBytes + 1)
      modifies this, reader, reader.r
      ensures key in files && files - {key} == old(files) - {key}
      ensures Progress(stream, files[key], reader.r.Rest(), status, reader.r.fails, failed)
      ensures Accounting(reader, maxBytes, |stream| - |reader.r.Rest()|, status, old(reader.r.EndsWithData()))
      ensures Spent(faults.space, |files[key]|, |stream| - |reader.r.Rest()|, failed)
      ensures status == More ==> failed
      ensures failed ==> status != TooLarge
    {
      status, failed := More, false;
      LastIsNonEmpty(reader.r.segments);
      while status == More && !failed
        invariant key in files && files - {key} == old(files) - {key}
        invariant Progress(stream, files[key], reader.r.Rest(), status, reader.r.fails, failed)
        invariant Accounting(reader, maxBytes, |stream| - |reader.r.Rest()|, status, old(reader.r.EndsWithData()))
        invariant Spent(faults.space, |files[key]|, |stream| - |reader.r.Rest()|, failed)
        invariant failed ==> status != TooLarge
        decreases if status == More && !failed then 1 else 0, reader.r.Size()
      {
        var data;
        ghost var rest := reader.r.Rest();
        data, status := reader.Read(CHUNK_SIZE);
        ghost var stored := files[key];
        failed := WriteChunk(key, data, faults.space);
        ProgressStep(stream, stored, data, reader.r.Rest(), files[key], status, reader.r.fails, failed);
      }
    }

    /**
     Streams r into key. Success means the whole stream, and nothing but the stream, is stored; given
     a working disk and a stream that ends cleanly, exactly the streams within the cap succeed, the
     others fail as too large, and no more than one byte beyond the cap is ever read. A failed Put
     leaves something under a key that was free exactly when removing the file fails as well, and then
     it is the beginning of the stream.
     */
    method Put(key: string, r: Source, maxBytes: int, faults: FsFaults) returns (res: Result<int, PutError>)
      requires MIN_INT64 <= maxBytes <= MAX_INT64
      modifies this, r
      ensures res.Success? ==> res.value == |old(r.Rest())| && Fits(res.value, maxBytes) && files == old(files)[key := old(r.Rest())]
      ensures res.Success? <==> FsStores(|old(r.Rest())|, r.fails, maxBytes, faults)
      ensures res.Failure? && !faults.remove ==> files == if faults.create then old(files) else old(files) - {key}
      ensures res.Failure? && key !in old(files) ==> (key in files <==> faults.remove && !faults.create)
      ensures res.Failure? && faults.remove && !faults.create ==> key in files && files[key] <= old(r.Rest())
      ensures files - {key} == old(files) - {key}
      ensures res == Failure(BlobTooLarge) <==>
              && !faults.create
              && (faults.space.Some? ==> Readable(|old(r.Rest())|, maxBytes) <= faults.space.value)
              && (Overflows(|old(r.Rest())|, old(r.EndsWithData()), maxBytes) || (!r.fails && |old(r.Rest())| > maxBytes))
      ensures res == Failure(BlobTooLarge) ==> !Fits(|old(r.Rest())|, maxBytes)
      ensures |old(r.Rest())| - |r.Rest()| <= if 0 <= maxBytes < MAX_INT64 then maxBytes + 1 else 0
    {
      ghost var stream := r.Rest();
      CapLeft(maxBytes);
      if faults.create {
        return Failure(StoreFailed);
      }
      files := files[key := []];
      var reader := new CapReader(r, maxBytes);
      var status, failed := CopyBuffer(key, reader, faults, stream, maxBytes);
      hide Wrap64;
      var written := |files[key]|;
      if failed || status != Eof {
        RemoveFile(key, faults.remove);
        return Failure(if reader.overflowed then BlobTooLarge else StoreFailed);
      }
      assert files[key] == stream;
      if written > maxBytes {
        RemoveFile(key, faults.remove);
        return Failure(BlobTooLarge);
      }
      if faults.close {
        RemoveFile(key, faults.remove);
        return Failure(StoreFailed);
      }
      assert files == (files - {key})[key := stream];
      return Success(written);
    }
  }

  /** When the file store stores a stream of this length. */
  predicate FsStores(length: int, fails: bool, maxBytes: int, faults: FsFaults) {
    && !fails && Fits(length, maxBytes)
    && !faults.create && !faults.close && (faults.space.Some? ==> length <= faults.space.value)
  }

  /** How the object store answers an upload whose whole body it was sent. */
  datatype Answer = Accepted | Rejected | AnswerLost

  /** leftover is a partial object that an upload cut short may leave; part is the size of one buffered part. */
  datatype S3Faults = S3Faults(answer: Answer, leftover: Option<Bytes>, deleteFails: bool, part: nat)

  class S3Storage {
    const prefix: string
    var objects: map<string, Bytes>

    constructor (prefix: string)
      ensures this.prefix == prefix && objects == map[]
    {
      this.prefix, objects := prefix, map[];
    }

    function ObjectKey(key: string): string {
      prefix + key
    }

    method Delete(key: string, fails: bool) returns (ok: bool)
      modifies this
      ensures ok <==> !fails
      ensures objects == if fails then old(objects) else old(objects) - {ObjectKey(key)}
    {
      ok := !fails;
      if ok {
        objects := objects - {ObjectKey(key)};
      }
    }

    /** Sends everything the reader yields; a reader that fails leaves nothing, or a partial object. */
    method UploadObject(key: string, reader: CapReader, faults: S3Faults) returns (ok: bool, ghost sent: Bytes, ghost status: Status)
      requires faults.part > 0 && !reader.overflowed && reader.n == 0
      requires MIN_INT64 <= reader.left <= MAX_INT64
      modifies this, reader, reader.r
      ensures old(reader.r.Rest()) == sent + reader.r.Rest() && reader.n == |sent|
      ensures status == Eof || status == Failed || status == TooLarge
      ensures old(reader.left) <= 0 ==> status == TooLarge
      ensures reader.overflowed <==> status == TooLarge
      ensures status == TooLarge ==> reader.n >= old(reader.left)
      ensures status == TooLarge && old(reader.r.EndsWithData()) ==> reader.r.Rest() != []
      ensures status != TooLarge && !old(reader.r.EndsWithData()) ==> reader.n < old(reader.left)
      ensures reader.n <= if old(reader.left) > 0 then old(reader.left) else 0
      ensures status == Eof ==> reader.r.Rest() == [] && !reader.r.fails && old(reader.left) > 0
      ensures status == Failed ==> reader.r.Rest() == [] && reader.r.fails && old(reader.left) > 0
      ensures ok <==> status == Eof && faults.answer == Accepted
      ensures objects ==
              if status == Eof then
                if faults.answer == Rejected then old(objects) else old(objects)[ObjectKey(key) := sent]
              else if faults.leftover.Some? then old(objects)[ObjectKey(key) := faults.leftover.value]
              else old(objects)
    {
      var body: Bytes := [];
      status := More;
      var last := More;
      LastIsNonEmpty(reader.r.segments);
      while last == More
        invariant last == status
        invariant old(reader.r.Rest()) == body + reader.r.Rest()
        invariant reader.n == |body| && reader.left == old(reader.left) - |body|
        invariant reader.overflowed <==> status == TooLarge
        invariant status == TooLarge ==> reader.left <= 0
        invariant old(reader.left) > 0 ==> reader.left >= 0
        invariant old(reader.left) <= 0 ==> body == [] && (status == More || status == TooLarge)
        invariant status == Eof ==> reader.r.Rest() == [] && !reader.r.fails
        invariant status == Failed ==> reader.r.fails
        invariant status == More ==> (reader.r.EndsWithData() <==> old(reader.r.EndsWithData()))
        invariant (status == More || status == TooLarge) && old(reader.r.EndsWithData()) ==> reader.r.Rest() != []
        invariant (status == Eof || status == Failed) && !old(reader.r.EndsWithData()) ==> reader.left > 0
        invariant (status == Eof || status == Failed) ==> reader.r.Rest() == []
        invariant objects == old(objects)
        decreases if last == More then 1 else 0, reader.r.Size()
      {
        var data;
        data, last := reader.Read(faults.part);
        status := last;
        body := body + data;
      }
      sent := body;
      if last == Eof {
        if faults.answer != Rejected {
          objects := objects[ObjectKey(key) := body];
        }
        return faults.answer == Accepted, body, last;
      }
      if faults.leftover.Some? {
        objects := objects[ObjectKey(key) := faults.leftover.value];
      }
      return false, body, last;
    }

    /**
     Streams r into the object for key, with the same promise as the file store for a stream that ends
     cleanly and a store that answers. A failure other than an oversized stream is not cleaned up here:
     the object may then hold a partial body, or the whole one when only the answer was lost. Whether a
     failed Put leaves an object under a key that was free is settled by what the stream and the store do.
     */
    method Put(key: string, r: Source, maxBytes: int, faults: S3Faults) returns (res: Result<int, PutError>)
      requires MIN_INT64 <= maxBytes <= MAX_INT64 && faults.part > 0
      modifies this, r
      ensures res.Success? ==>
                && res.value == |old(r.Rest())| && Fits(res.value, maxBytes)
                && objects == old(objects)[ObjectKey(key) := old(r.Rest())]
      ensures res.Success? <==> faults.answer == Accepted && !r.fails && Fits(|old(r.Rest())|, maxBytes)
      ensures res == Failure(BlobTooLarge) <==>
              || Overflows(|old(r.Rest())|, old(r.EndsWithData()), maxBytes)
              || (faults.answer == Accepted && !r.fails && |old(r.Rest())| > maxBytes)
      ensures res.Failure? && ObjectKey(key) !in old(objects) ==>
                (ObjectKey(key) in objects <==>
                 S3Leaves(|old(r.Rest())|, old(r.EndsWithData()), r.fails, maxBytes, faults))
      ensures res == Failure(BlobTooLarge) ==> !Fits(|old(r.Rest())|, maxBytes)
      ensures res == Failure(BlobTooLarge) && !faults.deleteFails ==> objects == old(objects) - {ObjectKey(key)}
      ensures res == Failure(StoreFailed) ==>
                || objects == old(objects)
                || (r.fails && faults.leftover.Some? && objects == old(objects)[ObjectKey(key) := faults.leftover.value])
                || (faults.answer == AnswerLost && objects == old(objects)[ObjectKey(key) := old(r.Rest())])
      ensures |old(r.Rest())| - |r.Rest()| <= if 0 <= maxBytes < MAX_INT64 then maxBytes + 1 else 0
    {
      CapLeft(maxBytes);
      var reader := new CapReader(r, maxBytes);
      var ok, sent, status := UploadObject(key, reader, faults);
      assert sent + [] == sent;
      if !ok {
        if reader.overflowed {
          var _ := Delete(key, faults.deleteFails);
          return Failure(BlobTooLarge);
        }
        return Failure(StoreFailed);
      }
      if reader.n > maxBytes {
        var _ := Delete(key, faults.deleteFails);
        return Failure(BlobTooLarge);
      }
      return Success(reader.n);
    }
  }

  /** When an object that was not there before is there after a failed Put into the object store. */
  predicate S3Leaves(length: int, endsWithData: bool, fails: bool, maxBytes: int, faults: S3Faults) {
    if Overflows(length, endsWithData, maxBytes) then faults.leftover.Some? && faults.deleteFails
    else if fails then faults.leftover.Some?
    else
      match faults.answer
      case Accepted => faults.deleteFails
      case Rejected => false
      case AnswerLost => true
  }

  /** "A failed Put leaves nothing behind" fails of the file store: a stream that breaks off, and a removal that fails. */
  method FailedFilePutLeavesABlob() returns (store: FsStorage, res: Result<int, PutError>)
    ensures res.Failure? && "ab/cde" in store.files
  {
    store := new FsStorage();
    var broken := new Source([[1]], true, false);
    res := store.Put("ab/cde", broken, 10, FsFaults(false, None, false, true));
  }

  /** It fails of the object store even when every removal works: the answer to a complete upload is lost. */
  method FailedObjectPutLeavesABlob() returns (store: S3Storage, res: Result<int, PutError>)
    ensures res.Failure? && store.prefix == "blobs/" && "blobs/ab/cde" in store.objects
  {
    store := new S3Storage("blobs/");
    var body := new Source([[1]], false, false);
    ghost var rest := Concat([[1]]);
    assert rest == [1] by {
      assert [[1]][1..] == [];
    }
    res := store.Put("ab/cde", body, 10, S3Faults(AnswerLost, None, false, CHUNK_SIZE));
    assert "blobs/" + "ab/cde" == "blobs/ab/cde";
  }

  /** What has been stored and what is still to come make up the stream. */
  ghost predicate Progress(stream: Bytes, stored: Bytes, rest: Bytes, status: Status, fails: bool, failed: bool) {
    && |rest| <= |stream|
    && stored <= stream
    && (!failed ==> stored + rest == stream)
    && (status == Eof ==> rest == [] && !fails)
    && (status == Failed ==> rest == [] && fails)
  }

  lemma ProgressStep(stream: Bytes, stored: Bytes, data: Bytes, rest: Bytes, now: Bytes, status: Status, fails: bool, failed: bool)
    requires stored + (data + rest) == stream && stored <= now <= stored + data && (!failed ==> now == stored + data)
    requires status == Eof || status == Failed ==> rest == []
    requires (status == Eof ==> !fails) && (status == Failed ==> fails)
    ensures Progress(stream, now, rest, status, fails, failed)
  {
    assert stored + (data + rest) == (stored + data) + rest;
  }

  /** The cap reader has let `seen` bytes through and refuses exactly once it has seen more than the cap. */
  ghost predicate Accounting(reader: CapReader, maxBytes: int, seen: int, status: Status, endsWithData: bool)
    reads reader, reader.r
  {
    && reader.n == seen
    && reader.left == Wrap64(maxBytes + 1) - seen
    && (reader.overflowed <==> status == TooLarge)
    && (status == TooLarge ==> reader.left <= 0)
    && (Wrap64(maxBytes + 1) > 0 ==> reader.left >= 0)
    && (Wrap64(maxBytes + 1) <= 0 ==> seen == 0 && (status == More || status == TooLarge))
    && (status == More ==> (reader.r.EndsWithData() <==> endsWithData))
    && ((status == More || status == TooLarge) && endsWithData ==> reader.r.Rest() != [])
    && ((status == Eof || status == Failed) && !endsWithData ==> reader.left > 0)
  }

  /** A write fails exactly when more has come than there is space for. */
  predicate Spent(space: Option<nat>, stored: nat, seen: int, failed: bool) {
    if failed then space.Some? && stored == space.value < seen
    else stored == seen && (space.Some? ==> stored <= space.value)
  }
}
