/** Readers that deliver their data in pieces of any size, and the size cap uploads are read through. */
module Streams {
  import opened Bytes

  const MAX_INT64 := 0x7FFF_FFFF_FFFF_FFFF
  const MIN_INT64 := -0x8000_0000_0000_0000

  /** The value a 64-bit signed addition leaves behind. */
  function Wrap64(x: int): int {
    (x - MIN_INT64) % 0x1_0000_0000_0000_0000 + MIN_INT64
  }

  function Concat(segments: seq<Bytes>): Bytes {
    if segments == [] then [] else segments[0] + Concat(segments[1..])
  }

  /** What a read reports besides its data. */
  datatype Status = More | Eof | Failed | TooLarge

  /**
   A stream whose pieces are fixed beforehand: a read delivers the next piece, or as much of it as was
   asked for. The pieces stand for every way a network can chop data, empty reads included. The end is
   a clean end of file or an error, reported on its own or together with the last bytes.
   */
  class Source {
    var segments: seq<Bytes>
    const fails: bool
    const together: bool

    constructor (segments: seq<Bytes>, fails: bool, together: bool)
      ensures this.segments == segments && this.fails == fails && this.together == together
    {
      this.segments, this.fails, this.together := segments, fails, together;
    }

    /** The data still to come. */
    ghost function Rest(): Bytes
      reads this
    {
      Concat(segments)
    }

    /** The end is reported together with data. */
    ghost predicate EndsWithData()
      reads this
    {
      together && segments != [] && segments[|segments| - 1] != []
    }

    /** Bounds the number of reads that can still report More. */
    ghost function Size(): nat
      reads this
    {
      |segments| + |Rest()|
    }

    method Read(len: nat) returns (data: Bytes, status: Status)
      modifies this
      ensures |data| <= len && old(Rest()) == data + Rest()
      ensures status == More || status == if fails then Failed else Eof
      ensures status != More ==> Rest() == []
      ensures status == More && len > 0 ==> Size() < old(Size())
      ensures status == More ==> (EndsWithData() <==> old(EndsWithData())) && (EndsWithData() ==> Rest() != [])
      ensures status != More && !old(EndsWithData()) ==> data == []
    {
      LastIsNonEmpty(segments);
      if segments == [] {
        return [], if fails then Failed else Eof;
      }
      var first := segments[0];
      if len < |first| {
        data, status := first[..len], More;
        segments := [first[len..]] + segments[1..];
        assert first == first[..len] + first[len..];
        assert segments[1..] == old(segments)[1..];
      } else {
        data := first;
        segments := segments[1..];
        status := if segments == [] && together then (if fails then Failed else Eof) else More;
      }
      LastIsNonEmpty(segments);
    }
  }

  lemma LastIsNonEmpty(segments: seq<Bytes>)
    ensures segments != [] && segments[|segments| - 1] != [] ==> Concat(segments) != []
  {
    if |segments| > 1 {
      LastIsNonEmpty(segments[1..]);
    }
  }

  /** Lets one byte more than the cap through, which is what tells a full stream from an oversized one. */
  class CapReader {
    const r: Source
    var left: int
    var n: int
    var overflowed: bool

    constructor (r: Source, maxBytes: int)
      ensures this.r == r && left == Wrap64(maxBytes + 1) && n == 0 && !overflowed
    {
      this.r := r;
      left, n, overflowed := Wrap64(maxBytes + 1), 0, false;
    }

    method Read(len: nat) returns (data: Bytes, status: Status)
      modifies this, r
      ensures |data| <= len && old(r.Rest()) == data + r.Rest()
      ensures left == old(left) - |data| && n == old(n) + |data|
      ensures old(left) > 0 ==> left >= 0
      ensures overflowed == (old(overflowed) || old(left) <= 0)
      ensures status == TooLarge <==> old(left) <= 0
      ensures status == TooLarge ==> data == []
      ensures status == Eof || status == Failed ==> r.Rest() == []
      ensures status == Eof ==> !r.fails
      ensures status == Failed ==> r.fails
      ensures status == More && len > 0 ==> r.Size() < old(r.Size())
      ensures status == More ==> (r.EndsWithData() <==> old(r.EndsWithData())) && (r.EndsWithData() ==> r.Rest() != [])
      ensures (status == Eof || status == Failed) && !old(r.EndsWithData()) ==> data == []
    {
      if left <= 0 {
        overflowed := true;
        return [], TooLarge;
      }
      var p := if len > left then left else len;
      data, status := r.Read(p);
      left := left - |data|;
      n := n + |data|;
    }
  }
}
