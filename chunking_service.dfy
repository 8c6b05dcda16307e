/**
 * The content-defined chunker (ChunkingService.java): bytes are appended to a
 * buffer; once the buffer holds at least MinChunkSize bytes each new byte is
 * also pushed into the splitter, and the buffer becomes a chunk when the
 * splitter signals a cut or the buffer reaches MaxChunkSize. The splitter is
 * reset after every in-loop cut only: neither the start of `chunkFile` nor the
 * trailing chunk resets it, so its state carries over to the next call.
 */
module Chunking {
  import opened Bytes
  import opened Hex
  import opened RabinKarpSplitter
  import opened Chunks

  const MinChunkSize: int := 4096
  const MaxChunkSize: int := 65536

  /** A SHA-256 digest: 32 bytes. */
  type Digest32 = d: seq<byte> | |d| == 32 witness seq(32, _ => 0)

  /** The chunker's state between two bytes: finished chunks, the buffer, and the splitter's bytes since its reset. */
  datatype Scan = Scan(done: seq<seq<byte>>, buf: seq<byte>, pushed: seq<byte>)

  /** One iteration of the read loop. The splitter sees the byte only once the buffer holds MinChunkSize bytes. */
  function Feed(poly: RabinPoly, s: Scan, b: byte): Scan
  {
    var buf := s.buf + [b];
    var pushed := if |buf| >= MinChunkSize then s.pushed + [b] else s.pushed;
    if (|buf| >= MinChunkSize && IsCut(poly, pushed)) || |buf| >= MaxChunkSize then
      Scan(s.done + [buf], [], [])
    else
      Scan(s.done, buf, pushed)
  }

  /** The read loop over `bytes`, starting from `s`. */
  function FeedAll(poly: RabinPoly, s: Scan, bytes: seq<byte>): Scan
  {
    if bytes == [] then s else Feed(poly, FeedAll(poly, s, bytes[..|bytes| - 1]), bytes[|bytes| - 1])
  }

  /** The loop's state after the whole input, from a splitter that had already seen `carried`. */
  function ScanInput(poly: RabinPoly, carried: seq<byte>, input: seq<byte>): Scan
  {
    FeedAll(poly, Scan([], [], carried), input)
  }

  /** The data of the chunks `chunkFile` emits: the loop's chunks, then the non-empty remainder. */
  function ChunkPieces(poly: RabinPoly, carried: seq<byte>, input: seq<byte>): seq<seq<byte>>
  {
    var s := ScanInput(poly, carried, input);
    if s.buf == [] then s.done else s.done + [s.buf]
  }

  /** The splitter's bytes since its last reset when `chunkFile` returns. */
  function CarriedAfter(poly: RabinPoly, carried: seq<byte>, input: seq<byte>): seq<byte>
  {
    ScanInput(poly, carried, input).pushed
  }

  /** The chunk list built from the pieces: each with its SHA-256 hex and its running byte offset. */
  function Assemble(sha256: seq<byte> -> Digest32, pieces: seq<seq<byte>>): (cs: seq<Chunk>)
    ensures |cs| == |pieces|
  {
    if pieces == [] then []
    else
      var n := |pieces| - 1;
      Assemble(sha256, pieces[..n]) + [NewChunk(pieces[n], HexEncode(sha256(pieces[n])), |Flatten(pieces[..n])|)]
  }

  /** Chunk k holds piece k, its SHA-256 hex, and the total length of the pieces before it as position. */
  lemma {:induction false} AssembleAt(sha256: seq<byte> -> Digest32, pieces: seq<seq<byte>>, k: int)
    requires 0 <= k < |pieces|
    ensures Assemble(sha256, pieces)[k]
         == NewChunk(pieces[k], HexEncode(sha256(pieces[k])), |Flatten(pieces[..k])|)
  {
    var n := |pieces| - 1;
    if k < n {
      AssembleAt(sha256, pieces[..n], k);
      assert pieces[..n][..k] == pieces[..k];
    }
  }

  /** What stays true of the loop's state from one byte to the next. */
  ghost predicate ScanInvariant(carried: seq<byte>, s: Scan)
  {
    && (forall k :: 0 <= k < |s.done| ==> MinChunkSize <= |s.done[k]| <= MaxChunkSize)
    && (forall k :: 0 <= k < |s.done| ==>
          |s.done[k]| == MaxChunkSize
          || |s.done[k]| >= MinChunkSize + WindowSize - 1 - (if k == 0 then |carried| else 0))
    && |s.buf| < MaxChunkSize
    && s.pushed == (if s.done == [] then carried else [])
                   + (if |s.buf| >= MinChunkSize then s.buf[MinChunkSize - 1..] else [])
  }

  /** One byte keeps the invariant. */
  lemma FeedStep(poly: RabinPoly, carried: seq<byte>, s: Scan, b: byte)
    requires ScanInvariant(carried, s)
    ensures ScanInvariant(carried, Feed(poly, s, b))
  {
    var t := Feed(poly, s, b);
    var buf := s.buf + [b];
    if |buf| >= MinChunkSize {
      if |s.buf| >= MinChunkSize {
        assert buf[MinChunkSize - 1..] == s.buf[MinChunkSize - 1..] + [b];
      } else {
        assert buf[MinChunkSize - 1..] == [b];
      }
    }
    if t.done != s.done {
      assert t.done == s.done + [buf];
      assert (s.done + [buf])[..|s.done|] == s.done;
    }
  }

  /** One byte ends up after everything seen so far, whether or not it closes a chunk. */
  lemma FeedContents(poly: RabinPoly, s: Scan, b: byte)
    ensures var t := Feed(poly, s, b); Flatten(t.done) + t.buf == Flatten(s.done) + s.buf + [b]
  {
    var t := Feed(poly, s, b);
    if t.done != s.done {
      FlattenSnoc(s.done, s.buf + [b]);
    }
  }

  /** The loop's state after any input keeps the invariant and holds exactly the input so far. */
  lemma {:induction false} ScanFacts(poly: RabinPoly, carried: seq<byte>, input: seq<byte>)
    ensures ScanInvariant(carried, ScanInput(poly, carried, input))
    ensures var s := ScanInput(poly, carried, input); Flatten(s.done) + s.buf == input
  {
    if input != [] {
      var n := |input| - 1;
      ScanFacts(poly, carried, input[..n]);
      FeedStep(poly, carried, ScanInput(poly, carried, input[..n]), input[n]);
      FeedContents(poly, ScanInput(poly, carried, input[..n]), input[n]);
      assert input[..n] + [input[n]] == input;
    }
  }

  /**
   * The chunk pieces: their concatenation is the input; none is empty or longer
   * than MaxChunkSize; all but the last hold at least MinChunkSize bytes and end
   * either at MaxChunkSize or at a content-defined cut, which needs 47 bytes
   * pushed after the first MinChunkSize ones (fewer in the first piece when the
   * splitter arrived with `carried` bytes); an empty input gives no piece.
   */
  lemma ChunkPiecesProperties(poly: RabinPoly, carried: seq<byte>, input: seq<byte>)
    ensures var ps := ChunkPieces(poly, carried, input);
      && Flatten(ps) == input
      && (ps == [] <==> input == [])
      && (forall k :: 0 <= k < |ps| ==> 0 < |ps[k]| <= MaxChunkSize)
      && (forall k :: 0 <= k < |ps| - 1 ==> MinChunkSize <= |ps[k]|)
      && (forall k :: 0 <= k < |ps| - 1 ==>
            |ps[k]| == MaxChunkSize
            || |ps[k]| >= MinChunkSize + WindowSize - 1 - (if k == 0 then |carried| else 0))
  {
    var s := ScanInput(poly, carried, input);
    ScanFacts(poly, carried, input);
    var ps := ChunkPieces(poly, carried, input);
    if s.buf != [] {
      assert ps == s.done + [s.buf];
      assert ps[..|ps| - 1] == s.done;
      assert Flatten(ps) == Flatten(s.done) + s.buf;
    } else {
      assert Flatten(s.done) == input;
    }
  }

  /**
   * The splitter after a call holds the bytes pushed since the last in-loop
   * cut, preceded by the carried bytes when there was no such cut: the
   * trailing chunk does not reset it. An input shorter than MinChunkSize
   * gives at most one chunk and leaves the splitter exactly as it was.
   */
  lemma CarriedAfterCall(poly: RabinPoly, carried: seq<byte>, input: seq<byte>)
    ensures var s := ScanInput(poly, carried, input);
      CarriedAfter(poly, carried, input)
        == (if s.done == [] then carried else []) + (if |s.buf| >= MinChunkSize then s.buf[MinChunkSize - 1..] else [])
    ensures |input| < MinChunkSize ==>
      CarriedAfter(poly, carried, input) == carried && |ChunkPieces(poly, carried, input)| <= 1
  {
    var s := ScanInput(poly, carried, input);
    ScanFacts(poly, carried, input);
    if s.done != [] {
      FlattenSplit(s.done, 0);
    }
  }

  /**
   * Chunk positions are running byte offsets: the first is 0 and each next one
   * is the previous position plus the previous size.
   */
  lemma ChunkPositions(sha256: seq<byte> -> Digest32, pieces: seq<seq<byte>>)
    ensures var cs := Assemble(sha256, pieces);
      && (|cs| > 0 ==> cs[0].position == 0)
      && (forall k :: 0 <= k < |cs| - 1 ==> cs[k + 1].position == cs[k].position + cs[k].originalSize)
  {
    var cs := Assemble(sha256, pieces);
    if |cs| > 0 {
      AssembleAt(sha256, pieces, 0);
    }
    forall k | 0 <= k < |cs| - 1
      ensures cs[k + 1].position == cs[k].position + cs[k].originalSize
    {
      AssembleAt(sha256, pieces, k);
      AssembleAt(sha256, pieces, k + 1);
      FlattenPrefixStep(pieces, k);
    }
  }

  /** Every chunk's data is the slice of the concatenated pieces that starts at its position. */
  lemma ChunkSlices(sha256: seq<byte> -> Digest32, pieces: seq<seq<byte>>)
    ensures var cs := Assemble(sha256, pieces);
      forall k :: 0 <= k < |cs| ==>
        && 0 <= cs[k].position
        && cs[k].position + |cs[k].data| <= |Flatten(pieces)|
        && Flatten(pieces)[cs[k].position..cs[k].position + |cs[k].data|] == cs[k].data
  {
    var cs := Assemble(sha256, pieces);
    forall k | 0 <= k < |cs|
      ensures && 0 <= cs[k].position
              && cs[k].position + |cs[k].data| <= |Flatten(pieces)|
              && Flatten(pieces)[cs[k].position..cs[k].position + |cs[k].data|] == cs[k].data
    {
      AssembleAt(sha256, pieces, k);
      FlattenSplit(pieces, k);
    }
  }

  /**
   * Chunks assembled from non-empty pieces tile the concatenation by byte
   * offset: the first starts at 0, each one starts where the previous one
   * ends, so positions strictly increase, and the last one ends at the end.
   */
  lemma AssembledOffsets(sha256: seq<byte> -> Digest32, pieces: seq<seq<byte>>)
    requires forall k :: 0 <= k < |pieces| ==> pieces[k] != []
    ensures var cs := Assemble(sha256, pieces);
      && (forall k :: 0 <= k < |cs| - 1 ==>
            cs[k].position < cs[k + 1].position && cs[k + 1].position == cs[k].position + cs[k].originalSize)
      && (cs != [] ==> cs[0].position == 0 && cs[|cs| - 1].position + cs[|cs| - 1].originalSize == |Flatten(pieces)|)
  {
    var cs := Assemble(sha256, pieces);
    ChunkPositions(sha256, pieces);
    forall k | 0 <= k < |cs| - 1
      ensures cs[k].position < cs[k + 1].position
    {
      AssembleAt(sha256, pieces, k);
    }
    if cs != [] {
      var n := |cs| - 1;
      AssembleAt(sha256, pieces, n);
      FlattenPrefixStep(pieces, n);
      assert pieces[..n + 1] == pieces;
    }
  }

  /** Reading the data back out of the assembled chunks gives the pieces. */
  lemma {:induction false} AssembledData(sha256: seq<byte> -> Digest32, pieces: seq<seq<byte>>)
    ensures DataOf(Assemble(sha256, pieces)) == pieces
  {
    if pieces != [] {
      var n := |pieces| - 1;
      AssembledData(sha256, pieces[..n]);
      assert Assemble(sha256, pieces)[..n] == Assemble(sha256, pieces[..n]);
      assert pieces == pieces[..n] + [pieces[n]];
    }
  }

  /** The chunks `chunkFile` returns carry its input, tiled by strictly increasing byte offsets. */
  lemma ChunkOffsets(poly: RabinPoly, carried: seq<byte>, sha256: seq<byte> -> Digest32, input: seq<byte>)
    ensures var cs := Assemble(sha256, ChunkPieces(poly, carried, input));
      && Flatten(DataOf(cs)) == input
      && (forall k :: 0 <= k < |cs| - 1 ==>
            cs[k].position < cs[k + 1].position && cs[k + 1].position == cs[k].position + cs[k].originalSize)
      && (cs != [] ==> cs[0].position == 0 && cs[|cs| - 1].position + cs[|cs| - 1].originalSize == |input|)
  {
    var ps := ChunkPieces(poly, carried, input);
    ChunkPiecesProperties(poly, carried, input);
    AssembledOffsets(sha256, ps);
    AssembledData(sha256, ps);
  }

  class ChunkingService {
    const rabinKarp: RabinKarp
    /** The SHA-256 message digest. */
    const sha256: seq<byte> -> Digest32

    ghost predicate Valid()
      reads rabinKarp
    {
      rabinKarp.Valid()
    }

    constructor (poly: RabinPoly, sha256: seq<byte> -> Digest32)
      ensures Valid() && fresh(rabinKarp)
      ensures rabinKarp.poly == poly && rabinKarp.pushed == [] && this.sha256 == sha256
    {
      rabinKarp := new RabinKarp(poly);
      this.sha256 := sha256;
    }

    /**
     * Splits the input into chunks. The chunks are those of ChunkPieces for the
     * bytes the splitter had seen since its last reset, and the splitter is left
     * holding the bytes pushed since the last in-loop cut.
     */
    method ChunkFile(input: seq<byte>) returns (chunks: seq<Chunk>)
      requires Valid()
      modifies rabinKarp
      ensures Valid()
      ensures chunks == Assemble(sha256, ChunkPieces(rabinKarp.poly, old(rabinKarp.pushed), input))
      ensures rabinKarp.pushed == CarriedAfter(rabinKarp.poly, old(rabinKarp.pushed), input)
    {
      ghost var carried := rabinKarp.pushed;
      ghost var poly := rabinKarp.poly;
      ghost var done: seq<seq<byte>> := [];
      chunks := [];
      var currentChunk: seq<byte> := [];
      var currentPosition := 0;
      var currentChunkSize := 0;
      var i := 0;
      while i < |input|
        invariant 0 <= i <= |input|
        invariant rabinKarp.Valid() && rabinKarp.poly == poly
        invariant FeedAll(poly, Scan([], [], carried), input[..i]) == Scan(done, currentChunk, rabinKarp.pushed)
        invariant currentChunkSize == |currentChunk|
        invariant currentPosition == |Flatten(done)|
        invariant chunks == Assemble(sha256, done)
      {
        var b := input[i];
        assert input[..i + 1][..i] == input[..i];
        currentChunk := currentChunk + [b];
        currentChunkSize := currentChunkSize + 1;
        var cut := false;
        if currentChunkSize >= MinChunkSize {
          cut := rabinKarp.PushByte(b);
        }
        if cut || currentChunkSize >= MaxChunkSize {
          var hash := CalculateHash(currentChunk);
          chunks := chunks + [NewChunk(currentChunk, hash, currentPosition)];
          assert (done + [currentChunk])[..|done|] == done;
          done := done + [currentChunk];
          currentPosition := currentPosition + currentChunkSize;
          currentChunkSize := 0;
          currentChunk := [];
          rabinKarp.Reset();
        }
        i := i + 1;
      }
      assert input[..i] == input;
      if currentChunkSize > 0 {
        var hash := CalculateHash(currentChunk);
        chunks := chunks + [NewChunk(currentChunk, hash, currentPosition)];
        assert (done + [currentChunk])[..|done|] == done;
      }
    }

    /** The digest as lowercase hex: two digits per byte, a '0' prefixed to single digits. */
    method CalculateHash(data: seq<byte>) returns (hex: string)
      ensures hex == HexEncode(sha256(data))
      ensures |hex| == 64
    {
      var hash := sha256(data);
      hex := "";
      for i := 0 to |hash|
        invariant hex == HexEncode(hash[..i])
      {
        assert hash[..i + 1][..i] == hash[..i];
        var h := ToHexString(hash[i] as int);
        if |h| == 1 {
          hex := hex + "0";
        }
        hex := hex + h;
        PaddedToHexString(hash[i]);
      }
      assert hash[..|hash|] == hash;
    }
  }
}
