/**
 * DuplicationService: chunk a file and either report how often each chunk
 * hash occurs (`analyzeFile`) or store the file with every chunk saved once
 * (`processAndStoreFile`, `processAndStoreFileCompressed`). The file's bytes
 * are given directly; reading them from disk is not modelled.
 */
module Duplication {
  import opened Wrappers
  import opened Bytes
  import opened Hex
  import opened Chunks
  import opened Chunking
  import opened Compression
  import opened Entities
  import opened Repositories
  import opened DuplicationStats
  import opened DuplicationStore
  import Pipeline

  /** `UnsupportedOperationException`: the service was built without the repositories it needs. */
  datatype UnsupportedOperation = MissingDependencies

  /** The result map of the two store methods; `compressionType` and `totalCompressedSize` only for the compressed one. */
  datatype StoreResult = StoreResult(
    fileId: int,
    fileName: string,
    extension: string,
    fileSize: int,
    algorithm: string,
    compressionType: Option<string>,
    totalChunks: int,
    uniqueChunks: int,
    duplicateChunks: int,
    savedStorage: int,
    deduplicationRatio: real,
    totalCompressedSize: Option<int>)

  /** The chunk hashes in chunk order. */
  function Hashes(d: Digests, alg: HashingAlgorithm, chunks: seq<Chunk>): seq<string>
  {
    seq(|chunks|, k requires 0 <= k < |chunks| => HashOf(d, alg, chunks[k].data))
  }

  /** The duplicate share of the chunks, 0 for a file without chunks. */
  function Ratio(duplicateChunks: int, totalChunks: int): (r: real)
    ensures totalChunks <= 0 ==> r == 0.0
    ensures totalChunks > 0 ==> r * totalChunks as real == duplicateChunks as real
    ensures 0 <= duplicateChunks <= totalChunks ==> 0.0 <= r <= 1.0
  {
    if totalChunks > 0 then duplicateChunks as real / totalChunks as real else 0.0
  }

  /** The result map built from the saved file, the chunk count and the loop's counters. */
  function Summary(file: FileEntity, alg: HashingAlgorithm, compression: Option<CompressionType>, totalChunks: int, tally: Tally): StoreResult
  {
    StoreResult(file.id, file.name, file.extension, file.size, AlgorithmName(alg),
      if compression.Some? then Some(Name(compression.value)) else None,
      totalChunks, tally.uniqueChunks, tally.duplicateChunks, tally.savedStorage,
      Ratio(tally.duplicateChunks, totalChunks),
      if compression.Some? then Some(tally.totalCompressedSize) else None)
  }

  class DuplicationService {
    const chunkingService: ChunkingService
    const fileRepository: FileRepository?
    const chunkRepository: ChunkRepository?
    const fileChunkRepository: FileChunkRepository?
    const compressionService: CompressionService?
    /** The message digests `calculateHash` uses. */
    const digests: Digests

    constructor (chunkingService: ChunkingService, fileRepository: FileRepository?, chunkRepository: ChunkRepository?,
                 fileChunkRepository: FileChunkRepository?, compressionService: CompressionService?, digests: Digests)
      ensures this.chunkingService == chunkingService && this.fileRepository == fileRepository
      ensures this.chunkRepository == chunkRepository && this.fileChunkRepository == fileChunkRepository
      ensures this.compressionService == compressionService && this.digests == digests
    {
      this.chunkingService := chunkingService;
      this.fileRepository := fileRepository;
      this.chunkRepository := chunkRepository;
      this.fileChunkRepository := fileChunkRepository;
      this.compressionService := compressionService;
      this.digests := digests;
    }

    /** The constructor for tests: only the chunker, so only `analyzeFile` is usable. */
    constructor ForAnalysis(chunkingService: ChunkingService, digests: Digests)
      ensures this.chunkingService == chunkingService && this.digests == digests
      ensures fileRepository == null && chunkRepository == null && fileChunkRepository == null && compressionService == null
    {
      this.chunkingService := chunkingService;
      this.fileRepository := null;
      this.chunkRepository := null;
      this.fileChunkRepository := null;
      this.compressionService := null;
      this.digests := digests;
    }

    /** `calculateHash`: the selected algorithm's digest as lowercase hex. */
    method CalculateHash(data: seq<byte>, alg: HashingAlgorithm) returns (hash: string)
      ensures hash == HashOf(digests, alg, data)
      ensures HexDecode(hash) == Some(Digest(digests, alg, data))
    {
      HashOfDecodes(digests, alg, data);
      match alg
      case SHA1 => hash := HexEncode(digests.sha1(data));
      case SHA256 => hash := HexEncode(digests.sha256(data));
      case BLAKE3 => hash := HexEncode(digests.blake3(data));
    }

    /** The loop of `analyzeFile`: each chunk's hash merged into the counting map, in chunk order. */
    method CountHashes(chunks: seq<Chunk>, alg: HashingAlgorithm) returns (duplicates: map<string, int>)
      ensures duplicates == Counts(Hashes(digests, alg, chunks))
    {
      ghost var hashes := Hashes(digests, alg, chunks);
      duplicates := map[];
      for i := 0 to |chunks|
        invariant duplicates == Counts(hashes[..i])
      {
        var hash := CalculateHash(chunks[i].data, alg);
        CountsStep(hashes, i);
        duplicates := duplicates[hash := if hash in duplicates then duplicates[hash] + 1 else 1];
      }
      assert hashes[..|chunks|] == hashes;
    }

    /**
     * Chunks the file and counts the occurrences of every chunk hash; the
     * statistics are those of `Analyze` over the chunk hashes in order.
     */
    method AnalyzeFile(input: seq<byte>, fileName: string, alg: HashingAlgorithm) returns (a: Analysis)
      requires chunkingService.Valid()
      modifies chunkingService.rabinKarp
      ensures chunkingService.Valid()
      ensures var chunks := Assemble(chunkingService.sha256,
                                     ChunkPieces(chunkingService.rabinKarp.poly, old(chunkingService.rabinKarp.pushed), input));
        a == Analyze(fileName, alg, Hashes(digests, alg, chunks))
      ensures chunkingService.rabinKarp.pushed == CarriedAfter(chunkingService.rabinKarp.poly, old(chunkingService.rabinKarp.pushed), input)
    {
      var chunks := chunkingService.ChunkFile(input);
      var duplicates := CountHashes(chunks, alg);
      var details := map h | h in duplicates && duplicates[h] > 1 :: duplicates[h];
      a := Analysis(fileName, |chunks|, |duplicates|, |details|, AlgorithmName(alg), details);
    }

    /** Every stored link belongs to a file of the file repository. */
    ghost predicate LinksOwned()
      reads fileRepository, fileChunkRepository
    {
      fileRepository != null && fileChunkRepository != null ==>
        LinksOfSavedFiles(fileChunkRepository.links, fileRepository.files)
    }

    /** The repositories' contents and the counters, as one loop state. */
    ghost function State(tally: Tally): Ingest
      requires chunkRepository != null && fileChunkRepository != null
      reads chunkRepository, fileChunkRepository
    {
      Ingest(StoreState(chunkRepository.records, chunkRepository.nextId, fileChunkRepository.links), tally)
    }

    /**
     * One iteration of the store loop: look the chunk up by its hash; when it
     * is missing, save a new record (compressed when `compression` is given);
     * link the file to the record at the chunk's position.
     */
    method StoreChunk(fileId: int, chunk: Chunk, alg: HashingAlgorithm, compression: Option<CompressionType>, ghost storage: Storage, tally: Tally)
      returns (tally': Tally)
      requires chunkRepository != null && fileChunkRepository != null
      requires compression.None? ==> storage == Plain
      requires compression.Some? ==> compressionService != null && storage == Compressed(compression.value, compressionService.codecs)
      modifies chunkRepository, fileChunkRepository
      ensures State(tally') == IngestStep(digests, alg, storage, fileId, old(State(tally)), chunk)
    {
      tally' := tally;
      var hash := CalculateHash(chunk.data, alg);
      var existingChunk := chunkRepository.FindByHash(alg, hash);
      var chunkEntity: ChunkRecord;
      if existingChunk.Some? {
        chunkEntity := existingChunk.value;
        tally' := tally'.(duplicateChunks := tally'.duplicateChunks + 1, savedStorage := tally'.savedStorage + chunk.originalSize);
      } else {
        var data := chunk.data;
        var tag: Option<string> := None;
        if compression.Some? {
          data := compressionService.Compress(chunk.data, compression.value);
          tally' := tally'.(totalCompressedSize := tally'.totalCompressedSize + |data|);
          tag := Some(Name(compression.value));
        }
        chunkEntity := NewRecord(data, alg, hash, tag);
        chunkEntity := chunkRepository.Save(alg, hash, chunkEntity);
        tally' := tally'.(uniqueChunks := tally'.uniqueChunks + 1);
      }
      fileChunkRepository.Save(FileChunk(fileId, chunkEntity, chunk.position));
    }

    /** The loop both store methods run over the chunks: the repositories end as `IngestChunks` says, from counters at 0. */
    method StoreChunks(fileId: int, chunks: seq<Chunk>, alg: HashingAlgorithm, compression: Option<CompressionType>, ghost storage: Storage)
      returns (tally: Tally)
      requires chunkRepository != null && fileChunkRepository != null
      requires compression.None? ==> storage == Plain
      requires compression.Some? ==> compressionService != null && storage == Compressed(compression.value, compressionService.codecs)
      modifies chunkRepository, fileChunkRepository
      ensures State(tally) == IngestChunks(digests, alg, storage, fileId, old(State(Tally(0, 0, 0, 0))), chunks)
    {
      ghost var g0 := State(Tally(0, 0, 0, 0));
      tally := Tally(0, 0, 0, 0);
      for i := 0 to |chunks|
        invariant State(tally) == IngestChunks(digests, alg, storage, fileId, g0, chunks[..i])
      {
        assert chunks[..i + 1][..i] == chunks[..i];
        tally := StoreChunk(fileId, chunks[i], alg, compression, storage, tally);
      }
      assert chunks[..|chunks|] == chunks;
    }

    /**
     * `processAndStoreFile`: without the repositories, refuses and changes
     * nothing; otherwise saves the file under the next file id with the name
     * and extension of `SplitFileName`, chunks it, and runs the store loop
     * with chunks saved verbatim. A chunk table whose records all decode,
     * under the reconstruction `codecs`, to bytes hashing to their keys
     * stays so.
     */
    method ProcessAndStoreFile(input: seq<byte>, fileName: string, fileSize: int, alg: HashingAlgorithm, ghost codecs: Codecs)
      returns (r: Result<StoreResult, UnsupportedOperation>)
      requires chunkingService.Valid()
      requires fileRepository != null ==> fileRepository.Valid()
      requires LinksOwned()
      modifies chunkingService.rabinKarp, fileRepository, chunkRepository, fileChunkRepository
      ensures r.Err? <==> fileRepository == null || chunkRepository == null || fileChunkRepository == null
      ensures r.Err? ==>
        && unchanged(chunkingService.rabinKarp)
        && (fileRepository != null ==> unchanged(fileRepository))
        && (chunkRepository != null ==> unchanged(chunkRepository))
        && (fileChunkRepository != null ==> unchanged(fileChunkRepository))
      ensures chunkingService.Valid() && (fileRepository != null ==> fileRepository.Valid()) && LinksOwned()
      ensures r.Ok? ==> forall i :: 0 <= i < |old(fileChunkRepository.links)| ==> old(fileChunkRepository.links)[i].fileId != old(fileRepository.nextId)
      ensures chunkRepository != null && Pipeline.Consistent(digests, codecs, old(chunkRepository.records)) ==>
        Pipeline.Consistent(digests, codecs, chunkRepository.records)
      ensures r.Ok? ==>
        var fileId := old(fileRepository.nextId);
        var file := FileEntity(fileId, SplitFileName(fileName).0, SplitFileName(fileName).1, fileSize);
        var chunks := Assemble(chunkingService.sha256,
                               ChunkPieces(chunkingService.rabinKarp.poly, old(chunkingService.rabinKarp.pushed), input));
        var g := IngestChunks(digests, alg, Plain, fileId,
          Ingest(StoreState(old(chunkRepository.records), old(chunkRepository.nextId), old(fileChunkRepository.links)), Tally(0, 0, 0, 0)),
          chunks);
        && fileRepository.files == old(fileRepository.files)[fileId := file]
        && fileRepository.nextId == old(fileRepository.nextId) + 1
        && chunkingService.rabinKarp.pushed == CarriedAfter(chunkingService.rabinKarp.poly, old(chunkingService.rabinKarp.pushed), input)
        && chunkRepository.records == g.store.records
        && chunkRepository.nextId == g.store.nextChunkId
        && fileChunkRepository.links == g.store.links
        && r.value == Summary(file, alg, None, |chunks|, g.tally)
    {
      if fileRepository == null || chunkRepository == null || fileChunkRepository == null {
        return Err(MissingDependencies);
      }
      var (name, extension) := SplitFileName(fileName);
      FreshIdHasNoLinks(fileChunkRepository.links, fileRepository.files, fileRepository.nextId);
      var fileEntity := fileRepository.Save(FileEntity(0, name, extension, fileSize));
      ghost var carried := chunkingService.rabinKarp.pushed;
      var chunks := chunkingService.ChunkFile(input);
      ghost var g0 := State(Tally(0, 0, 0, 0));
      if Pipeline.Consistent(digests, codecs, g0.store.records) {
        Pipeline.ChunkedIngestConsistent(digests, codecs, alg, Plain, chunkingService.rabinKarp.poly, carried, chunkingService.sha256,
          input, fileEntity.id, g0);
      }
      var tally := StoreChunks(fileEntity.id, chunks, alg, None, Plain);
      IngestLinksOfSavedFiles(digests, alg, Plain, fileEntity.id, g0, chunks, fileRepository.files);
      r := Ok(Summary(fileEntity, alg, None, |chunks|, tally));
    }

    /**
     * `processAndStoreFileCompressed`: as `ProcessAndStoreFile`, also
     * refusing without the compression service, with every new record
     * holding its chunk compressed with `compressionType` and tagged with
     * its name, and the compressed sizes of the new records summed. With a
     * lossless codec for `compressionType`, a consistent chunk table stays
     * consistent under the service's codecs.
     */
    method ProcessAndStoreFileCompressed(input: seq<byte>, fileName: string, fileSize: int, alg: HashingAlgorithm, compressionType: CompressionType)
      returns (r: Result<StoreResult, UnsupportedOperation>)
      requires chunkingService.Valid()
      requires fileRepository != null ==> fileRepository.Valid()
      requires LinksOwned()
      modifies chunkingService.rabinKarp, fileRepository, chunkRepository, fileChunkRepository
      ensures r.Err? <==> fileRepository == null || chunkRepository == null || fileChunkRepository == null || compressionService == null
      ensures r.Err? ==>
        && unchanged(chunkingService.rabinKarp)
        && (fileRepository != null ==> unchanged(fileRepository))
        && (chunkRepository != null ==> unchanged(chunkRepository))
        && (fileChunkRepository != null ==> unchanged(fileChunkRepository))
      ensures chunkingService.Valid() && (fileRepository != null ==> fileRepository.Valid()) && LinksOwned()
      ensures r.Ok? ==> forall i :: 0 <= i < |old(fileChunkRepository.links)| ==> old(fileChunkRepository.links)[i].fileId != old(fileRepository.nextId)
      ensures chunkRepository != null && compressionService != null && Lossless(compressionService.codecs, compressionType) ==>
        Pipeline.Consistent(digests, compressionService.codecs, old(chunkRepository.records)) ==>
        Pipeline.Consistent(digests, compressionService.codecs, chunkRepository.records)
      ensures r.Ok? ==>
        var fileId := old(fileRepository.nextId);
        var file := FileEntity(fileId, SplitFileName(fileName).0, SplitFileName(fileName).1, fileSize);
        var chunks := Assemble(chunkingService.sha256,
                               ChunkPieces(chunkingService.rabinKarp.poly, old(chunkingService.rabinKarp.pushed), input));
        var g := IngestChunks(digests, alg, Compressed(compressionType, compressionService.codecs), fileId,
          Ingest(StoreState(old(chunkRepository.records), old(chunkRepository.nextId), old(fileChunkRepository.links)), Tally(0, 0, 0, 0)),
          chunks);
        && fileRepository.files == old(fileRepository.files)[fileId := file]
        && fileRepository.nextId == old(fileRepository.nextId) + 1
        && chunkingService.rabinKarp.pushed == CarriedAfter(chunkingService.rabinKarp.poly, old(chunkingService.rabinKarp.pushed), input)
        && chunkRepository.records == g.store.records
        && chunkRepository.nextId == g.store.nextChunkId
        && fileChunkRepository.links == g.store.links
        && r.value == Summary(file, alg, Some(compressionType), |chunks|, g.tally)
    {
      if fileRepository == null || chunkRepository == null || fileChunkRepository == null || compressionService == null {
        return Err(MissingDependencies);
      }
      var (name, extension) := SplitFileName(fileName);
      FreshIdHasNoLinks(fileChunkRepository.links, fileRepository.files, fileRepository.nextId);
      var fileEntity := fileRepository.Save(FileEntity(0, name, extension, fileSize));
      ghost var carried := chunkingService.rabinKarp.pushed;
      var chunks := chunkingService.ChunkFile(input);
      ghost var g0 := State(Tally(0, 0, 0, 0));
      ghost var storage := Compressed(compressionType, compressionService.codecs);
      if Lossless(compressionService.codecs, compressionType) && Pipeline.Consistent(digests, compressionService.codecs, g0.store.records) {
        Pipeline.ChunkedIngestConsistent(digests, compressionService.codecs, alg, storage, chunkingService.rabinKarp.poly, carried,
          chunkingService.sha256, input, fileEntity.id, g0);
      }
      var tally := StoreChunks(fileEntity.id, chunks, alg, Some(compressionType), storage);
      IngestLinksOfSavedFiles(digests, alg, Compressed(compressionType, compressionService.codecs), fileEntity.id, g0, chunks, fileRepository.files);
      r := Ok(Summary(fileEntity, alg, Some(compressionType), |chunks|, tally));
    }
  }
}
