/**
 * Chunk compression (CompressionService.java). LZ4 output is wrapped in a
 * hand-written frame: the original length and the compressed length as
 * big-endian 32-bit ints, then the LZ4 block. Zstd and Snappy produce their
 * own self-describing frames. The three libraries themselves are parameters.
 */
module Compression {
  import opened Wrappers
  import opened Bytes

  datatype CompressionType = LZ4 | ZSTD | SNAPPY

  /** `CompressionType.name()`. */
  function Name(t: CompressionType): string
  {
    match t
    case LZ4 => "LZ4"
    case ZSTD => "ZSTD"
    case SNAPPY => "SNAPPY"
  }

  /** `CompressionType.valueOf(s)`: None where Java throws IllegalArgumentException. */
  function ValueOf(s: string): (r: Option<CompressionType>)
    ensures r.Some? <==> s == "LZ4" || s == "ZSTD" || s == "SNAPPY"
    ensures r.Some? ==> Name(r.value) == s
  {
    if s == "LZ4" then Some(LZ4)
    else if s == "ZSTD" then Some(ZSTD)
    else if s == "SNAPPY" then Some(SNAPPY)
    else None
  }

  /** A stored type name parses back to the type. */
  lemma ValueOfName(t: CompressionType)
    ensures ValueOf(Name(t)) == Some(t)
  {
  }

  /** Frames announcing a larger original length are refused. */
  const MaxOriginalLength: int := 100_000_000
  /** The largest LZ4 block that fits in a Java array behind the 8-byte header. */
  const MaxCompressedLength: int := 0x7FFF_FFF7

  /** The LZ4 block codec: `compress(src)` and `decompress(src, destLen)`, None for a malformed block. */
  datatype Lz4Library = Lz4Library(compress: seq<byte> -> seq<byte>, decompress: (seq<byte>, int) -> Option<seq<byte>>)
  /** A self-framing codec (Zstd, Snappy): None for malformed input. */
  datatype FramedCodec = FramedCodec(compress: seq<byte> -> seq<byte>, decompress: seq<byte> -> Option<seq<byte>>)
  datatype Codecs = Codecs(lz4: Lz4Library, zstd: FramedCodec, snappy: FramedCodec)

  /** Why decoding failed. */
  datatype Cause =
    | BufferUnderflow                  // fewer than 8 header bytes
    | InvalidOriginalLength(length: int)
    | InvalidCompressedLength(length: int)
    | CorruptInput                     // the library rejected the payload
  /** The RuntimeException `decompress` throws, wrapping the cause. */
  datatype DecompressionFailed = DecompressionFailed(cause: Cause)

  /** `ByteBuffer.putInt`: the int's 32 bits, most significant byte first. */
  function IntBytes(n: int): (r: seq<byte>)
    ensures |r| == 4
  {
    var u := n % 0x1_0000_0000;
    [(u / 0x100_0000) as byte, (u / 0x1_0000 % 0x100) as byte, (u / 0x100 % 0x100) as byte, (u % 0x100) as byte]
  }

  /** `ByteBuffer.getInt` at offset `at`: four bytes read as a signed big-endian int. */
  function ReadInt(b: seq<byte>, at: int): (n: int)
    requires 0 <= at && at + 4 <= |b|
    ensures -0x8000_0000 <= n < 0x8000_0000
  {
    var u := b[at] as int * 0x100_0000 + b[at + 1] as int * 0x1_0000 + b[at + 2] as int * 0x100 + b[at + 3] as int;
    if u < 0x8000_0000 then u else u - 0x1_0000_0000
  }

  /** Writing a Java int and reading it back gives the int. */
  lemma ReadIntBytes(n: int)
    requires -0x8000_0000 <= n < 0x8000_0000
    ensures ReadInt(IntBytes(n), 0) == n
  {
    var u := n % 0x1_0000_0000;
    var q1, a3 := u / 0x100, u % 0x100;
    var q2, a2 := q1 / 0x100, q1 % 0x100;
    var a0, a1 := q2 / 0x100, q2 % 0x100;
    assert u / 0x1_0000 == q2 && u / 0x100_0000 == a0;
    assert IntBytes(n) == [a0 as byte, a1 as byte, a2 as byte, a3 as byte];
    assert u == a0 * 0x100_0000 + a1 * 0x1_0000 + a2 * 0x100 + a3;
  }

  /** `compressLZ4`: original length, compressed length, then the LZ4 block. */
  function Lz4Frame(lz4: Lz4Library, data: seq<byte>): seq<byte>
  {
    var compressed := lz4.compress(data);
    IntBytes(|data|) + IntBytes(|compressed|) + compressed
  }

  /** The header checks of `decompressLZ4`: the announced original length and the LZ4 block. */
  function ParseLz4Frame(bytes: seq<byte>): Result<(int, seq<byte>), Cause>
  {
    if |bytes| < 8 then Err(BufferUnderflow)
    else
      var originalLength := ReadInt(bytes, 0);
      var compressedLength := ReadInt(bytes, 4);
      if originalLength <= 0 || originalLength > MaxOriginalLength then Err(InvalidOriginalLength(originalLength))
      else if compressedLength <= 0 || compressedLength > |bytes| - 8 then Err(InvalidCompressedLength(compressedLength))
      else Ok((originalLength, bytes[8..8 + compressedLength]))
  }

  /** `decompressLZ4`: the header checks, then the block decoded to the announced length. */
  function DecompressLz4Frame(lz4: Lz4Library, bytes: seq<byte>): Result<seq<byte>, Cause>
  {
    match ParseLz4Frame(bytes)
    case Err(cause) => Err(cause)
    case Ok((originalLength, block)) =>
      match lz4.decompress(block, originalLength)
      case None => Err(CorruptInput)
      case Some(data) => Ok(data)
  }

  /** `compress(data, type)`. */
  function CompressWith(codecs: Codecs, data: seq<byte>, t: CompressionType): seq<byte>
  {
    match t
    case LZ4 => Lz4Frame(codecs.lz4, data)
    case ZSTD => codecs.zstd.compress(data)
    case SNAPPY => codecs.snappy.compress(data)
  }

  /** `decompress(bytes, type, originalLength)`: the length is only logged, never used. */
  function DecompressWith(codecs: Codecs, bytes: seq<byte>, t: CompressionType, originalLength: int)
    : Result<seq<byte>, DecompressionFailed>
  {
    var r := match t
      case LZ4 => DecompressLz4Frame(codecs.lz4, bytes)
      case ZSTD => if codecs.zstd.decompress(bytes).Some? then Ok(codecs.zstd.decompress(bytes).value) else Err(CorruptInput)
      case SNAPPY => if codecs.snappy.decompress(bytes).Some? then Ok(codecs.snappy.decompress(bytes).value) else Err(CorruptInput);
    match r
    case Ok(data) => Ok(data)
    case Err(cause) => Err(DecompressionFailed(cause))
  }

  /** What the LZ4 library is taken to guarantee for inputs the frame admits. */
  ghost predicate Lz4Lossless(lz4: Lz4Library)
  {
    forall x: seq<byte> {:trigger lz4.compress(x)} :: |x| <= MaxOriginalLength ==>
      && 0 < |lz4.compress(x)| <= MaxCompressedLength
      && lz4.decompress(lz4.compress(x), |x|) == Some(x)
  }

  /** What a self-framing library is taken to guarantee. */
  ghost predicate FramedLossless(codec: FramedCodec)
  {
    forall x: seq<byte> {:trigger codec.compress(x)} :: codec.decompress(codec.compress(x)) == Some(x)
  }

  ghost predicate Lossless(codecs: Codecs, t: CompressionType)
  {
    match t
    case LZ4 => Lz4Lossless(codecs.lz4)
    case ZSTD => FramedLossless(codecs.zstd)
    case SNAPPY => FramedLossless(codecs.snappy)
  }

  /**
   * Frame layout: 8 header bytes plus the block; bytes 0-3 read back as the
   * data length and bytes 4-7 as the block length; the block follows.
   */
  lemma Lz4FrameLayout(lz4: Lz4Library, data: seq<byte>)
    requires |data| < 0x8000_0000 && |lz4.compress(data)| < 0x8000_0000
    ensures var frame, block := Lz4Frame(lz4, data), lz4.compress(data);
      && |frame| == 8 + |block|
      && ReadInt(frame, 0) == |data|
      && ReadInt(frame, 4) == |block|
      && frame[8..] == block
  {
    var frame, block := Lz4Frame(lz4, data), lz4.compress(data);
    ReadIntBytes(|data|);
    ReadIntBytes(|block|);
    assert frame[..4] == IntBytes(|data|);
    assert frame[4..8] == IntBytes(|block|);
    assert ReadInt(frame, 0) == ReadInt(frame[..4], 0);
    assert ReadInt(frame, 4) == ReadInt(frame[4..8], 0);
  }

  /** A frame made from non-empty data the header admits decodes to that data. */
  lemma Lz4RoundTrip(lz4: Lz4Library, data: seq<byte>)
    requires Lz4Lossless(lz4)
    requires 0 < |data| <= MaxOriginalLength
    ensures ParseLz4Frame(Lz4Frame(lz4, data)) == Ok((|data|, lz4.compress(data)))
    ensures DecompressLz4Frame(lz4, Lz4Frame(lz4, data)) == Ok(data)
  {
    var block := lz4.compress(data);
    assert 0 < |block| <= MaxCompressedLength;
    Lz4FrameLayout(lz4, data);
    var frame := Lz4Frame(lz4, data);
    assert frame[8..8 + |block|] == block;
  }

  /** The frame of the empty input announces length 0, which decoding refuses. */
  lemma Lz4EmptyFrameRefused(lz4: Lz4Library)
    requires |lz4.compress([])| < 0x8000_0000
    ensures DecompressLz4Frame(lz4, Lz4Frame(lz4, [])) == Err(InvalidOriginalLength(0))
  {
    Lz4FrameLayout(lz4, []);
  }

  /**
   * Decoding succeeds only with 8 header bytes, an original length in
   * 1..100,000,000 and a block length in 1..(input length - 8); the block is
   * the bytes right after the header, and bytes beyond it are ignored.
   */
  lemma Lz4HeaderChecks(lz4: Lz4Library, bytes: seq<byte>, extra: seq<byte>)
    ensures ParseLz4Frame(bytes).Ok? <==>
      && |bytes| >= 8
      && 0 < ReadInt(bytes, 0) <= MaxOriginalLength
      && 0 < ReadInt(bytes, 4) <= |bytes| - 8
    ensures ParseLz4Frame(bytes).Ok? ==>
      && ParseLz4Frame(bytes).value == (ReadInt(bytes, 0), bytes[8..8 + ReadInt(bytes, 4)])
      && DecompressLz4Frame(lz4, bytes + extra) == DecompressLz4Frame(lz4, bytes)
  {
    if |bytes| >= 8 {
      var whole := bytes + extra;
      assert ReadInt(whole, 0) == ReadInt(bytes, 0);
      assert ReadInt(whole, 4) == ReadInt(bytes, 4);
      if ParseLz4Frame(bytes).Ok? {
        assert whole[8..8 + ReadInt(bytes, 4)] == bytes[8..8 + ReadInt(bytes, 4)];
      }
    }
  }

  /**
   * Codec round trip through `compress` and `decompress`, whatever length is
   * passed; only the LZ4 frame's header check bounds the data length.
   */
  lemma CompressionRoundTrip(codecs: Codecs, data: seq<byte>, t: CompressionType, originalLength: int)
    requires Lossless(codecs, t)
    requires t == LZ4 ==> 0 < |data| <= MaxOriginalLength
    ensures DecompressWith(codecs, CompressWith(codecs, data, t), t, originalLength) == Ok(data)
  {
    if t == LZ4 {
      Lz4RoundTrip(codecs.lz4, data);
    }
  }

  /** A byte buffer with a cursor (java.nio.ByteBuffer, heap-backed). */
  class ByteBuffer {
    const hb: array<byte>
    var position: nat

    ghost predicate Valid()
      reads this
    {
      position <= hb.Length
    }

    /** `ByteBuffer.allocate(capacity)`: a zero-filled backing array. */
    constructor Allocate(capacity: nat)
      ensures Valid() && fresh(hb) && hb.Length == capacity && position == 0
      ensures forall i :: 0 <= i < capacity ==> hb[i] == 0
    {
      hb := new byte[capacity](_ => 0);
      position := 0;
    }

    /** `ByteBuffer.wrap(bytes)`. */
    constructor Wrap(bytes: seq<byte>)
      ensures Valid() && fresh(hb) && hb[..] == bytes && position == 0
    {
      hb := new byte[|bytes|](i requires 0 <= i < |bytes| => bytes[i]);
      position := 0;
    }

    /** `put(src)`: copies src at the cursor and advances it. */
    method Put(src: seq<byte>)
      requires Valid() && position + |src| <= hb.Length
      modifies this, hb
      ensures Valid() && position == old(position) + |src|
      ensures hb[..] == old(hb[..position]) + src + old(hb[position + |src|..])
    {
      var i := 0;
      while i < |src|
        invariant 0 <= i <= |src| && position == old(position)
        invariant hb[..] == old(hb[..position]) + src[..i] + old(hb[position + i..])
      {
        hb[position + i] := src[i];
        i := i + 1;
      }
      position := position + |src|;
    }

    /** `putInt(n)`. */
    method PutInt(n: int)
      requires Valid() && position + 4 <= hb.Length
      modifies this, hb
      ensures Valid() && position == old(position) + 4
      ensures hb[..] == old(hb[..position]) + IntBytes(n) + old(hb[position + 4..])
    {
      Put(IntBytes(n));
    }

    /** `getInt()`: None where Java throws BufferUnderflowException. */
    method GetInt() returns (r: Option<int>)
      requires Valid()
      modifies this
      ensures Valid()
      ensures old(position) + 4 <= hb.Length ==> r == Some(ReadInt(hb[..], old(position))) && position == old(position) + 4
      ensures old(position) + 4 > hb.Length ==> r == None && position == old(position)
    {
      if position + 4 > hb.Length {
        return None;
      }
      r := Some(ReadInt(hb[..], position));
      position := position + 4;
    }

    /** `get(dst)` for a `dst` of length n. */
    method Get(n: nat) returns (dst: seq<byte>)
      requires Valid() && position + n <= hb.Length
      modifies this
      ensures Valid() && position == old(position) + n
      ensures dst == hb[old(position)..old(position) + n]
    {
      dst := hb[position..position + n];
      position := position + n;
    }
  }

  class CompressionService {
    const codecs: Codecs

    constructor (codecs: Codecs)
      ensures this.codecs == codecs
    {
      this.codecs := codecs;
    }

    method Compress(data: seq<byte>, t: CompressionType) returns (r: seq<byte>)
      ensures r == CompressWith(codecs, data, t)
    {
      match t
      case LZ4 => r := CompressLz4(data);
      case ZSTD => r := codecs.zstd.compress(data);
      case SNAPPY => r := codecs.snappy.compress(data);
    }

    method Decompress(bytes: seq<byte>, t: CompressionType, originalLength: int)
      returns (r: Result<seq<byte>, DecompressionFailed>)
      ensures r == DecompressWith(codecs, bytes, t, originalLength)
    {
      var inner: Result<seq<byte>, Cause>;
      match t {
        case LZ4 =>
          inner := DecompressLz4(bytes);
        case ZSTD =>
          var d := codecs.zstd.decompress(bytes);
          inner := if d.Some? then Ok(d.value) else Err(CorruptInput);
        case SNAPPY =>
          var d := codecs.snappy.decompress(bytes);
          inner := if d.Some? then Ok(d.value) else Err(CorruptInput);
      }
      r := match inner
        case Ok(data) => Ok(data)
        case Err(cause) => Err(DecompressionFailed(cause));
    }

    /** Writes the 8-byte header and the block into a buffer of exactly their size. */
    method CompressLz4(data: seq<byte>) returns (frame: seq<byte>)
      ensures frame == Lz4Frame(codecs.lz4, data)
      ensures |frame| == 8 + |codecs.lz4.compress(data)|
    {
      var compressed := codecs.lz4.compress(data);
      var buffer := new ByteBuffer.Allocate(8 + |compressed|);
      buffer.PutInt(|data|);
      buffer.PutInt(|compressed|);
      buffer.Put(compressed);
      frame := buffer.hb[..];
      assert frame == IntBytes(|data|) + IntBytes(|compressed|) + compressed;
    }

    /** Reads the header with the buffer's cursor, checks it, and decodes the block. */
    method DecompressLz4(bytes: seq<byte>) returns (r: Result<seq<byte>, Cause>)
      ensures r == DecompressLz4Frame(codecs.lz4, bytes)
    {
      var buffer := new ByteBuffer.Wrap(bytes);
      var originalLength := buffer.GetInt();
      if originalLength.None? {
        return Err(BufferUnderflow);
      }
      var compressedLength := buffer.GetInt();
      if compressedLength.None? {
        return Err(BufferUnderflow);
      }
      if originalLength.value <= 0 || originalLength.value > MaxOriginalLength {
        return Err(InvalidOriginalLength(originalLength.value));
      }
      if compressedLength.value <= 0 || compressedLength.value > |bytes| - 8 {
        return Err(InvalidCompressedLength(compressedLength.value));
      }
      var compressedOnly := buffer.Get(compressedLength.value);
      var data := codecs.lz4.decompress(compressedOnly, originalLength.value);
      r := if data.Some? then Ok(data.value) else Err(CorruptInput);
    }
  }
}
