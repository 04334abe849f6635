/** Reading an object through ranged requests, and copying it out. */
module RangedReader {
  import opened Wrappers
  import opened Bytes
  import opened Streams

  datatype ReadError = EndOfFile | UnexpectedEnd | RequestFailed | TransferFailed

  /** Whence a seek is measured; anything else is refused. */
  datatype Whence = FromStart | FromCurrent | FromEnd | Invalid

  function From(blob: Bytes, n: nat): Bytes {
    if n <= |blob| then blob[n..] else []
  }

  /** The bytes a GET with "Range: bytes=N-" selects, or the whole object without one (RFC 9110, section 14.1.2). */
  function Selected(blob: Bytes, range: Option<nat>): Bytes {
    match range
    case None => blob
    case Some(n) => From(blob, n)
  }

  /** A body answers a request when it carries a leading part of what the request selects: all of it, or less if cut short. */
  ghost predicate Answers(body: Source, blob: Bytes, range: Option<nat>)
    reads body
  {
    body.Rest() <= Selected(blob, range)
  }

  /** A body that will deliver everything from pos on, and then end cleanly. */
  ghost predicate Complete(body: Source?, blob: Bytes, pos: nat)
    reads body
  {
    body != null && !body.fails && body.Rest() == From(blob, pos)
  }

  /**
   Reads `blob` from position `pos` on. `size` is what a HEAD request said about the object some time
   before; nothing makes the two agree when the object is replaced in between.
   */
  class S3ReadSeeker {
    ghost const blob: Bytes
    const size: nat
    var pos: nat
    var body: Source?

    /** An open body is always positioned at pos. */
    ghost predicate Valid()
      reads this, body
    {
      body != null ==> body.Rest() <= From(blob, pos)
    }

    constructor (ghost blob: Bytes, size: nat)
      ensures Valid() && this.blob == blob && this.size == size && pos == 0 && body == null
    {
      this.blob, this.size := blob, size;
      pos, body := 0, null;
    }

    /** The body a read reads from: the open one, or else the answer to its request. */
    static function Used(body: Source?, response: Source?): Source? {
      if body == null then response else body
    }

    /** The Range header of the request for the bytes at pos. */
    function RangeHeader(): (header: Option<nat>)
      reads this
      ensures header == None <==> pos == 0
      ensures header.Some? ==> header.value == pos
    {
      if pos > 0 then Some(pos) else None
    }

    method CloseBody()
      requires Valid()
      modifies this`body
      ensures Valid() && body == null
    {
      body := null;
    }

    method Close()
      requires Valid()
      modifies this`body
      ensures Valid() && body == null
    {
      CloseBody();
    }

    /**
     Moves the position; a move elsewhere abandons the open body, and a refused one changes nothing. The
     numbers are 64-bit: a sum beyond them wraps to a negative one, which is refused like any other.
     */
    method Seek(offset: int, whence: Whence) returns (r: Option<nat>)
      requires Valid() && pos <= MAX_INT64 && size <= MAX_INT64 && MIN_INT64 <= offset <= MAX_INT64
      modifies this
      ensures Valid()
      ensures var target := match whence
                            case FromStart => offset
                            case FromCurrent => old(pos) + offset
                            case FromEnd => size + offset
                            case Invalid => -1;
              if target < 0 || target > MAX_INT64 then r == None && pos == old(pos) && body == old(body)
              else r == Some(target) && pos == target && body == if target == old(pos) then old(body) else null
    {
      var target := 0;
      match whence {
        case FromStart => target := offset;
        case FromCurrent => target := Wrap64(pos + offset);
        case FromEnd => target := Wrap64(size + offset);
        case Invalid => return None;
      }
      if target < 0 {
        return None;
      }
      if target != pos {
        CloseBody();
      }
      pos := target;
      return Some(target);
    }

    /**
     Reads up to len bytes. response is how the store answers the GET this read may need: null when the
     request fails. Whatever is returned is the object's bytes at the position, the position moves past
     them, and end of file is reported only at or beyond size.
     */
    method Read(len: nat, response: Source?) returns (data: Bytes, err: Option<ReadError>)
      requires Valid()
      requires body == null && pos < size && response != null ==> Answers(response, blob, RangeHeader())
      modifies this, body, response
      ensures Valid()
      ensures |data| <= len && pos == old(pos) + |data|
      ensures data != [] ==> pos <= |blob| && data == blob[old(pos)..pos]
      ensures err == Some(EndOfFile) ==> pos >= size
      ensures old(pos) >= size ==> data == [] && err == Some(EndOfFile) && (response != null ==> unchanged(response))
      ensures err == Some(UnexpectedEnd) ==> pos < size && body == null
      ensures err == Some(RequestFailed) <==> old(pos) < size && old(body) == null && response == null
      ensures err == Some(RequestFailed) ==> data == []
      ensures old(pos) < size && Used(old(body), response) != null ==>
                var used := Used(old(body), response);
                && old(Used(body, response).Rest()) == data + used.Rest()
                && (err.Some? ==> used.Rest() == [])
                && (err == Some(TransferFailed) ==> used.fails)
                && (err == Some(UnexpectedEnd) || err == Some(EndOfFile) ==> !used.fails)
      ensures body == null || body == old(body) || body == response
      ensures size <= |blob| && (if old(body) == null then old(Complete(response, blob, pos)) else old(Complete(body, blob, pos))) ==>
                (err == None || err == Some(EndOfFile)) && (body != null && err == None ==> Complete(body, blob, pos))
      ensures err == None ==> body != null
      ensures err == None && len > 0 ==>
                if old(body) != null then body == old(body) && body.Size() < old(body.Size())
                else body == response && body.Size() < old(response.Size())
    {
      if pos >= size {
        return [], Some(EndOfFile);
      }
      if body == null {
        var ok := OpenAt(response);
        if !ok {
          return [], Some(RequestFailed);
        }
      }
      data, err := ReadBody(len);
    }

    /** Requests the object from the position on. */
    method OpenAt(response: Source?) returns (ok: bool)
      requires Valid() && body == null
      requires response != null ==> Answers(response, blob, RangeHeader())
      modifies this`body
      ensures Valid() && body == response && (ok <==> response != null)
    {
      assert RangeHeader() == None ==> Selected(blob, None) == From(blob, pos);
      body := response;
      ok := response != null;
    }

    /** Reads from the open body, and closes it at its end. */
    method ReadBody(len: nat) returns (data: Bytes, err: Option<ReadError>)
      requires Valid() && body != null && pos < size
      modifies this, body
      ensures Valid()
      ensures |data| <= len && pos == old(pos) + |data|
      ensures data != [] ==> pos <= |blob| && data == blob[old(pos)..pos]
      ensures err == Some(EndOfFile) ==> pos >= size
      ensures err == Some(UnexpectedEnd) ==> pos < size && body == null
      ensures err != Some(RequestFailed)
      ensures old(body.Rest()) == data + old(body).Rest()
      ensures err.Some? ==> old(body).Rest() == []
      ensures err == Some(TransferFailed) ==> old(body).fails
      ensures err == Some(UnexpectedEnd) || err == Some(EndOfFile) ==> !old(body).fails
      ensures body == null || body == old(body)
      ensures size <= |blob| && old(Complete(body, blob, pos)) ==>
                (err == None || err == Some(EndOfFile)) && (err == None ==> Complete(body, blob, pos))
      ensures err == None ==> body != null && (len > 0 ==> body.Size() < old(body.Size()))
    {
      hide From, Concat;
      ghost var ahead := body.Rest();
      var status;
      data, status := body.Read(len);
      assert ahead == data + body.Rest();
      PrefixSplits(blob, pos, data, body.Rest());
      SuffixSplits(blob, pos, data, body.Rest());
      pos := pos + |data|;
      if status == Eof {
        CloseBody();
        if pos < size {
          return data, Some(UnexpectedEnd);
        }
        return data, Some(EndOfFile);
      }
      return data, if status == Failed then Some(TransferFailed) else None;
    }
  }

  lemma PrefixSplits(blob: Bytes, pos: nat, data: Bytes, rest: Bytes)
    requires data + rest <= From(blob, pos)
    ensures rest <= From(blob, pos + |data|)
    ensures data != [] ==> pos + |data| <= |blob| && data == blob[pos..pos + |data|]
  {
    if pos <= |blob| {
      var tail := blob[pos..];
      assert |data| + |rest| <= |tail|;
      assert tail[|data|..] == blob[pos + |data|..];
      assert (data + rest)[|data|..] == rest && (data + rest)[..|data|] == data;
      assert rest == tail[|data|..|data| + |rest|];
      assert data == tail[..|data|];
    }
  }

  lemma SuffixSplits(blob: Bytes, pos: nat, data: Bytes, rest: Bytes)
    ensures data + rest == From(blob, pos) ==>
              rest == From(blob, pos + |data|) && (rest == [] ==> pos + |data| >= |blob|)
  {
    if data + rest == From(blob, pos) {
      assert (data + rest)[|data|..] == rest;
    }
  }

  /**
   Copies what the reader still yields, up to limit bytes, buf at a time. A copy that ends without an
   error is a leading part of the object from where the reader stood, and either reaches size or was
   stopped by the limit: a transfer cut short never looks complete. A complete transfer never fails.
   */
  method CopyLimited(reader: S3ReadSeeker, limit: nat, buf: nat, response: Source?) returns (data: Bytes, err: Option<ReadError>)
    requires reader.Valid() && reader.body == null && buf > 0
    requires reader.pos < reader.size && response != null ==> Answers(response, reader.blob, reader.RangeHeader())
    modifies reader, response
    ensures data != [] ==> old(reader.pos) <= |reader.blob| && data <= reader.blob[old(reader.pos)..]
    ensures |data| <= limit && (old(reader.pos) >= reader.size ==> data == [])
    ensures err == None ==> |data| == limit || old(reader.pos) + |data| >= reader.size
    ensures err == None && |data| < limit && reader.size == |reader.blob| ==> data == From(reader.blob, old(reader.pos))
    ensures response != null && !response.fails && old(reader.pos) + |old(response.Rest())| >= reader.size ==> err == None
    ensures data <= old(RestOf(response))
    ensures err.Some? && response != null ==> data == old(response.Rest())
  {
    ghost var start, stream := reader.pos, RestOf(response);
    assert start < reader.size && response != null ==> stream <= From(reader.blob, start);
    hide Concat, Selected, From, Complete, IsSplit, Answers, S3ReadSeeker.Valid;
    data, err := [], None;
    StartSplit(stream);
    var ended := false;
    while |data| < limit && !ended
      invariant reader.Valid() && (reader.body == null || reader.body == response)
      invariant |data| <= limit && reader.pos == start + |data|
      invariant IsSplit(stream, data, RestOf(response))
      invariant reader.body == null && !ended ==> data == [] && reader.pos == start
      invariant reader.body == null && !ended && reader.pos < reader.size && response != null ==>
                  Answers(response, reader.blob, reader.RangeHeader())
      invariant ended && err == None ==> reader.pos >= reader.size
      invariant start >= reader.size ==> data == [] && err == None
      invariant !ended ==> err == None
      invariant response == null ==> data == []
      invariant err.Some? && response != null ==> RestOf(response) == [] && (!response.fails ==> reader.pos < reader.size)
      decreases !ended, if response != null then response.Size() else 0
    {
      var want := if limit - |data| < buf then limit - |data| else buf;
      ghost var ahead := RestOf(response);
      var piece, e := reader.Read(want, response);
      MoreSplit(stream, data, ahead, piece, RestOf(response));
      data := data + piece;
      if e.Some? {
        ended := true;
        err := if e.value == EndOfFile then None else e;
      }
    }
    SplitEnds(stream, data, RestOf(response));
    if start < reader.size && response != null {
      CopyIsOfObject(reader.blob, start, stream, data);
    }
    if start >= reader.size {
      NothingBeyond(reader.blob, start);
    }
  }

  ghost function RestOf(response: Source?): Bytes
    reads response
  {
    if response != null then response.Rest() else []
  }

  /** What has been copied and what is still to come make up the answer. */
  predicate IsSplit(stream: Bytes, data: Bytes, rest: Bytes) {
    stream == data + rest
  }

  lemma StartSplit(stream: Bytes)
    ensures IsSplit(stream, [], stream)
  {
    assert [] + stream == stream;
  }

  lemma MoreSplit(stream: Bytes, data: Bytes, ahead: Bytes, piece: Bytes, rest: Bytes)
    requires IsSplit(stream, data, ahead) && ahead == piece + rest
    ensures IsSplit(stream, data + piece, rest)
  {
    assert data + (piece + rest) == (data + piece) + rest;
  }

  lemma SplitEnds(stream: Bytes, data: Bytes, rest: Bytes)
    requires IsSplit(stream, data, rest)
    ensures data <= stream && |stream| == |data| + |rest| && (rest == [] ==> data == stream)
  {
  }

  lemma CopyIsOfObject(blob: Bytes, start: nat, stream: Bytes, data: Bytes)
    requires data <= stream <= From(blob, start)
    ensures data != [] ==> start <= |blob| && data <= blob[start..]
    ensures start + |data| >= |blob| ==> data == From(blob, start)
  {
  }

  lemma NothingBeyond(blob: Bytes, start: nat)
    ensures start >= |blob| ==> From(blob, start) == []
  {
  }
}
