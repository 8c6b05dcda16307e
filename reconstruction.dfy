/**
 * Rebuilding a stored file (FileReconstructionService.reconstructFile): the
 * file's links in position order, each record's bytes decompressed when it
 * carries a compression tag, concatenated.
 */
module Reconstruction {
  import opened Wrappers
  import opened Bytes
  import opened Compression
  import opened Entities
  import opened Repositories

  /** Why one record could not be decoded. */
  datatype DecodeFailure =
    | UnknownCompressionType(tag: string)   // `CompressionType.valueOf` refused the tag
    | Failed(error: DecompressionFailed)

  datatype ReconstructError =
    | FileNotFound(fileId: int)             // IllegalArgumentException
    | NoChunks(fileId: int)                 // IllegalStateException
    | DecompressionError(cause: DecodeFailure)  // IOException wrapping the cause

  /** The length handed to `decompress`: the stored original size, else twice the stored length. */
  function LengthHint(r: ChunkRecord): int
  {
    if r.originalSize.Some? then r.originalSize.value else |r.data| * 2
  }

  /** The bytes one record contributes. */
  function DecodeRecord(codecs: Codecs, r: ChunkRecord): Result<seq<byte>, DecodeFailure>
  {
    match r.compressionType
    case None => Ok(r.data)
    case Some(tag) =>
      match ValueOf(tag)
      case None => Err(UnknownCompressionType(tag))
      case Some(t) =>
        match DecompressWith(codecs, r.data, t, LengthHint(r))
        case Ok(data) => Ok(data)
        case Err(e) => Err(Failed(e))
  }

  /**
   * A record holds the given bytes verbatim when untagged; a tagged record
   * decodes as `decompress` with the named type, and a tag that names no
   * type fails; the stored original size never changes the outcome.
   */
  lemma DecodeRecordCases(codecs: Codecs, r: ChunkRecord, size: Option<int>)
    ensures r.compressionType == None ==> DecodeRecord(codecs, r) == Ok(r.data)
    ensures r.compressionType.Some? && ValueOf(r.compressionType.value) == None ==>
      DecodeRecord(codecs, r) == Err(UnknownCompressionType(r.compressionType.value))
    ensures forall t :: r.compressionType == Some(Name(t)) ==>
      match DecompressWith(codecs, r.data, t, 0)
      case Ok(data) => DecodeRecord(codecs, r) == Ok(data)
      case Err(e) => DecodeRecord(codecs, r) == Err(Failed(e))
    ensures DecodeRecord(codecs, r.(originalSize := size)) == DecodeRecord(codecs, r)
  {
    forall t | r.compressionType == Some(Name(t)) {
      ValueOfName(t);
    }
  }

  /** Records written by the store loop decode to the chunk bytes they were made from. */
  lemma DecodeNewRecord(codecs: Codecs, data: seq<byte>, alg: HashingAlgorithm, hash: string, compression: Option<CompressionType>)
    requires compression.Some? ==> Lossless(codecs, compression.value)
    requires compression == Some(LZ4) ==> 0 < |data| <= MaxOriginalLength
    ensures var r := if compression.None? then NewRecord(data, alg, hash, None)
                     else NewRecord(CompressWith(codecs, data, compression.value), alg, hash, Some(Name(compression.value)));
      DecodeRecord(codecs, r) == Ok(data)
  {
    if compression.Some? {
      ValueOfName(compression.value);
      CompressionRoundTrip(codecs, data, compression.value, |CompressWith(codecs, data, compression.value)| * 2);
    }
  }

  /** The stream after writing every link's bytes in order; the first failure aborts. */
  function DecodeAll(codecs: Codecs, links: seq<FileChunk>): Result<seq<byte>, DecodeFailure>
  {
    if links == [] then Ok([])
    else
      match DecodeAll(codecs, links[..|links| - 1])
      case Err(e) => Err(e)
      case Ok(prefix) =>
        match DecodeRecord(codecs, links[|links| - 1].chunk)
        case Err(e) => Err(e)
        case Ok(data) => Ok(prefix + data)
  }

  /** When every record decodes, the output is their concatenation, as long as they are together. */
  lemma {:induction false} DecodeAllPieces(codecs: Codecs, links: seq<FileChunk>, pieces: seq<seq<byte>>)
    requires |pieces| == |links|
    requires forall i :: 0 <= i < |links| ==> DecodeRecord(codecs, links[i].chunk) == Ok(pieces[i])
    ensures DecodeAll(codecs, links) == Ok(Flatten(pieces))
    ensures |DecodeAll(codecs, links).value| == TotalLength(pieces)
  {
    if links != [] {
      var n := |links| - 1;
      DecodeAllPieces(codecs, links[..n], pieces[..n]);
      assert pieces == pieces[..n] + [pieces[n]];
      FlattenSnoc(pieces[..n], pieces[n]);
    }
    FlattenLength(pieces);
  }

  /** The first record that fails decides the error, and no partial output escapes. */
  lemma {:induction false} DecodeAllFirstFailure(codecs: Codecs, links: seq<FileChunk>, k: int)
    requires 0 <= k < |links|
    requires forall i :: 0 <= i < k ==> DecodeRecord(codecs, links[i].chunk).Ok?
    requires DecodeRecord(codecs, links[k].chunk).Err?
    ensures DecodeAll(codecs, links) == Err(DecodeRecord(codecs, links[k].chunk).error)
  {
    var n := |links| - 1;
    if k == n {
      DecodeAllOkPrefix(codecs, links[..n]);
    } else {
      assert links[..n][k] == links[k];
      DecodeAllFirstFailure(codecs, links[..n], k);
    }
  }

  lemma {:induction false} DecodeAllOkPrefix(codecs: Codecs, links: seq<FileChunk>)
    requires forall i :: 0 <= i < |links| ==> DecodeRecord(codecs, links[i].chunk).Ok?
    ensures DecodeAll(codecs, links).Ok?
  {
    if links != [] {
      DecodeAllOkPrefix(codecs, links[..|links| - 1]);
    }
  }

  /** `reconstructFile` over the repositories' contents. */
  function Reconstruct(files: map<int, FileEntity>, links: seq<FileChunk>, codecs: Codecs, fileId: int)
    : Result<seq<byte>, ReconstructError>
  {
    if fileId !in files then Err(FileNotFound(fileId))
    else
      var ordered := SortByPosition(LinksOf(links, fileId));
      if ordered == [] then Err(NoChunks(fileId))
      else
        match DecodeAll(codecs, ordered)
        case Err(e) => Err(DecompressionError(e))
        case Ok(data) => Ok(data)
  }

  /**
   * The outcomes: an unknown file, a file without links, or the decoded links
   * of the file in position order, whatever order they were saved in.
   */
  lemma ReconstructOutcomes(files: map<int, FileEntity>, links: seq<FileChunk>, codecs: Codecs, fileId: int)
    ensures fileId !in files <==> Reconstruct(files, links, codecs, fileId) == Err(FileNotFound(fileId))
    ensures fileId in files && LinksOf(links, fileId) == [] <==>
      Reconstruct(files, links, codecs, fileId) == Err(NoChunks(fileId))
    ensures Reconstruct(files, links, codecs, fileId).Ok? ==>
      var ordered := SortByPosition(LinksOf(links, fileId));
      && SortedByPosition(ordered)
      && multiset(ordered) == multiset(LinksOf(links, fileId))
      && DecodeAll(codecs, ordered) == Ok(Reconstruct(files, links, codecs, fileId).value)
  {
    var owned := LinksOf(links, fileId);
    if owned != [] {
      assert |SortByPosition(owned)| == |owned| by {
        assert |multiset(SortByPosition(owned))| == |multiset(owned)|;
      }
    }
    SortByPositionSorted(owned);
  }

  /**
   * Links of other files followed by the file's own links, already in
   * position order: the file is rebuilt from its own links in that order.
   */
  lemma ReconstructInOrder(files: map<int, FileEntity>, others: seq<FileChunk>, own: seq<FileChunk>, codecs: Codecs, fileId: int)
    requires fileId in files && own != []
    requires forall i :: 0 <= i < |others| ==> others[i].fileId != fileId
    requires forall i :: 0 <= i < |own| ==> own[i].fileId == fileId
    requires SortedByPosition(own)
    ensures Reconstruct(files, others + own, codecs, fileId) ==
      match DecodeAll(codecs, own)
      case Ok(data) => Ok(data)
      case Err(e) => Err(DecompressionError(e))
  {
    assert LinksOf(others + own, fileId) == own by {
      LinksOfAppend(others, own, fileId);
      LinksOfNoneOwned(others, fileId);
      LinksOfAllOwned(own, fileId);
      assert [] + own == own;
    }
    SortByPositionSortedInput(own);
  }

  /** An uncompressed record holding `data`. */
  function PlainRecord(id: int, data: seq<byte>): ChunkRecord
  {
    ChunkRecord(id, data, None, None, None, None, None)
  }

  /** The ASCII bytes of "Hello ", "World", "!" and "Hello World!". */
  const HelloBytes: seq<byte> := [72, 101, 108, 108, 111, 32]
  const WorldBytes: seq<byte> := [87, 111, 114, 108, 100]
  const BangBytes: seq<byte> := [33]
  const HelloWorldBytes: seq<byte> := [72, 101, 108, 108, 111, 32, 87, 111, 114, 108, 100, 33]

  /** The bytes each link's record holds. */
  function StoredData(links: seq<FileChunk>): seq<seq<byte>>
  {
    seq(|links|, i requires 0 <= i < |links| => links[i].chunk.data)
  }

  /**
   * Untagged records contribute their stored bytes verbatim: a file whose
   * links are all uncompressed is rebuilt as their concatenation in
   * position order.
   */
  lemma PlainInOrder(files: map<int, FileEntity>, others: seq<FileChunk>, own: seq<FileChunk>, codecs: Codecs, fileId: int)
    requires fileId in files && own != []
    requires forall i :: 0 <= i < |others| ==> others[i].fileId != fileId
    requires forall i :: 0 <= i < |own| ==> own[i].fileId == fileId && own[i].chunk.compressionType == None
    requires SortedByPosition(own)
    ensures Reconstruct(files, others + own, codecs, fileId) == Ok(Flatten(StoredData(own)))
  {
    ReconstructInOrder(files, others, own, codecs, fileId);
    var pieces := StoredData(own);
    forall i | 0 <= i < |own|
      ensures DecodeRecord(codecs, own[i].chunk) == Ok(pieces[i])
    {
      DecodeRecordCases(codecs, own[i].chunk, None);
    }
    DecodeAllPieces(codecs, own, pieces);
  }

  /** Three untagged records at positions 0, 1, 2 of file 1 give their concatenation. */
  lemma ThreePlainChunks(files: map<int, FileEntity>, codecs: Codecs, x: seq<byte>, y: seq<byte>, z: seq<byte>)
    requires 1 in files
    ensures Reconstruct(files, [FileChunk(1, PlainRecord(1, x), 0),
                                FileChunk(1, PlainRecord(2, y), 1),
                                FileChunk(1, PlainRecord(3, z), 2)], codecs, 1) == Ok(x + y + z)
  {
    var own := [FileChunk(1, PlainRecord(1, x), 0),
                FileChunk(1, PlainRecord(2, y), 1),
                FileChunk(1, PlainRecord(3, z), 2)];
    forall i | 0 <= i < |own|
      ensures own[i].position == i && own[i].fileId == 1 && own[i].chunk.compressionType == None
    {
      if i == 0 {} else if i == 1 {} else {}
    }
    PlainTriple(files, codecs, own);
  }

  /** A file made of three untagged links at positions 0, 1, 2 and nothing else. */
  lemma PlainTriple(files: map<int, FileEntity>, codecs: Codecs, own: seq<FileChunk>)
    requires 1 in files && |own| == 3
    requires forall i :: 0 <= i < |own| ==> own[i].position == i && own[i].fileId == 1 && own[i].chunk.compressionType == None
    ensures Reconstruct(files, own, codecs, 1) == Ok(own[0].chunk.data + own[1].chunk.data + own[2].chunk.data)
  {
    assert [] + own == own;
    var pieces := StoredData(own);
    FlattenThree(pieces);
    PlainInOrder(files, [], own, codecs, 1);
  }

  lemma FlattenThree(pieces: seq<seq<byte>>)
    requires |pieces| == 3
    ensures Flatten(pieces) == pieces[0] + pieces[1] + pieces[2]
  {
    assert pieces[..0] == [];
    FlattenPrefixStep(pieces, 0);
    FlattenPrefixStep(pieces, 1);
    FlattenPrefixStep(pieces, 2);
    assert pieces[..3] == pieces;
  }

  /** The chunks "Hello ", "World" and "!" at positions 0, 1, 2 give "Hello World!". */
  lemma HelloWorld(files: map<int, FileEntity>, codecs: Codecs)
    requires 1 in files
    ensures Reconstruct(files, [FileChunk(1, PlainRecord(1, HelloBytes), 0),
                                FileChunk(1, PlainRecord(2, WorldBytes), 1),
                                FileChunk(1, PlainRecord(3, BangBytes), 2)], codecs, 1) == Ok(HelloWorldBytes)
  {
    ThreePlainChunks(files, codecs, HelloBytes, WorldBytes, BangBytes);
    assert HelloBytes + WorldBytes + BangBytes == HelloWorldBytes;
  }

  class FileReconstructionService {
    const fileRepository: FileRepository
    const fileChunkRepository: FileChunkRepository
    const compressionService: CompressionService

    constructor (fileRepository: FileRepository, fileChunkRepository: FileChunkRepository, compressionService: CompressionService)
      ensures this.fileRepository == fileRepository && this.fileChunkRepository == fileChunkRepository
      ensures this.compressionService == compressionService
    {
      this.fileRepository := fileRepository;
      this.fileChunkRepository := fileChunkRepository;
      this.compressionService := compressionService;
    }

    /** Writes each link's (decompressed) bytes into an output buffer, in position order. */
    method ReconstructFile(fileId: int) returns (r: Result<seq<byte>, ReconstructError>)
      ensures r == Reconstruct(fileRepository.files, fileChunkRepository.links, compressionService.codecs, fileId)
    {
      var file := fileRepository.FindById(fileId);
      if file.None? {
        return Err(FileNotFound(fileId));
      }
      var chunks := fileChunkRepository.FindByFileIdOrderByPosition(fileId);
      if chunks == [] {
        return Err(NoChunks(fileId));
      }
      var codecs := compressionService.codecs;
      var outputStream: seq<byte> := [];
      for i := 0 to |chunks|
        invariant DecodeAll(codecs, chunks[..i]) == Ok(outputStream)
      {
        var chunkData := DecodeChunk(chunks[i].chunk);
        if chunkData.Err? {
          DecodeAllFirstFailureAt(codecs, chunks, i);
          return Err(DecompressionError(chunkData.error));
        }
        DecodeAllStep(codecs, chunks, i);
        outputStream := outputStream + chunkData.value;
      }
      assert chunks[..|chunks|] == chunks;
      r := Ok(outputStream);
    }

    /** One link's bytes: decompressed with the tagged type when there is a tag. */
    method DecodeChunk(record: ChunkRecord) returns (r: Result<seq<byte>, DecodeFailure>)
      ensures r == DecodeRecord(compressionService.codecs, record)
    {
      var chunkData := record.data;
      if record.compressionType.Some? {
        var t := ValueOf(record.compressionType.value);
        if t.None? {
          return Err(UnknownCompressionType(record.compressionType.value));
        }
        var decompressed := compressionService.Decompress(chunkData, t.value, LengthHint(record));
        if decompressed.Err? {
          return Err(Failed(decompressed.error));
        }
        chunkData := decompressed.value;
      }
      r := Ok(chunkData);
    }
  }

  /** One more record that decodes extends the output by its bytes. */
  lemma DecodeAllStep(codecs: Codecs, links: seq<FileChunk>, i: int)
    requires 0 <= i < |links|
    requires DecodeAll(codecs, links[..i]).Ok? && DecodeRecord(codecs, links[i].chunk).Ok?
    ensures DecodeAll(codecs, links[..i + 1]) == Ok(DecodeAll(codecs, links[..i]).value + DecodeRecord(codecs, links[i].chunk).value)
  {
    assert links[..i + 1][..i] == links[..i];
  }

  /** A failure at link i after i decoded links is the failure of the whole stream. */
  lemma DecodeAllFirstFailureAt(codecs: Codecs, links: seq<FileChunk>, i: int)
    requires 0 <= i < |links|
    requires DecodeAll(codecs, links[..i]).Ok?
    requires DecodeRecord(codecs, links[i].chunk).Err?
    ensures DecodeAll(codecs, links) == Err(DecodeRecord(codecs, links[i].chunk).error)
  {
    forall j | 0 <= j < i
      ensures DecodeRecord(codecs, links[j].chunk).Ok?
    {
      DecodeAllOkElements(codecs, links[..i], j);
    }
    DecodeAllFirstFailure(codecs, links, i);
  }

  /** A stream that decodes had every record decode. */
  lemma {:induction false} DecodeAllOkElements(codecs: Codecs, links: seq<FileChunk>, j: int)
    requires 0 <= j < |links|
    requires DecodeAll(codecs, links).Ok?
    ensures DecodeRecord(codecs, links[j].chunk).Ok?
  {
    var n := |links| - 1;
    if j < n {
      assert links[..n][j] == links[j];
      DecodeAllOkElements(codecs, links[..n], j);
    }
  }
}
