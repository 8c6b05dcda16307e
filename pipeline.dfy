/**
 * The store loop followed by reconstruction: a file stored by
 * `processAndStoreFile` or `processAndStoreFileCompressed` is rebuilt byte
 * for byte by `reconstructFile`, provided the records already in the chunk
 * table decode to bytes with the hash they are stored under, the codecs
 * are lossless and the digest has no collisions.
 */
module Pipeline {
  import opened Wrappers
  import opened Bytes
  import opened Chunks
  import opened Chunking
  import opened RabinKarpSplitter
  import opened Compression
  import opened Entities
  import opened Repositories
  import opened DuplicationStats
  import opened DuplicationStore
  import opened Reconstruction

  /** Every record decodes, and its bytes have the hash the record is stored under. */
  ghost predicate Consistent(d: Digests, codecs: Codecs, records: map<Key, ChunkRecord>)
  {
    forall key :: key in records ==>
      DecodeRecord(codecs, records[key]).Ok? && HashOf(d, key.0, DecodeRecord(codecs, records[key]).value) == key.1
  }

  /** The storage mode compresses only with lossless codecs that reconstruction also uses. */
  ghost predicate StorageDecodable(storage: Storage, codecs: Codecs)
  {
    storage.Compressed? ==> storage.codecs == codecs && Lossless(codecs, storage.compression)
  }

  /** The record saved for a missing chunk decodes to the chunk's bytes, whatever id it gets. */
  lemma NewRecordDecodes(d: Digests, codecs: Codecs, alg: HashingAlgorithm, storage: Storage, c: Chunk, id: int)
    requires StorageDecodable(storage, codecs)
    requires storage.Compressed? && storage.compression == LZ4 ==> 0 < |c.data| <= MaxOriginalLength
    ensures DecodeRecord(codecs, NewRecord(Stored(storage, c.data), alg, HashOf(d, alg, c.data), Tag(storage)).(id := id)) == Ok(c.data)
  {
    var compression := if storage.Compressed? then Some(storage.compression) else None;
    DecodeNewRecord(codecs, c.data, alg, HashOf(d, alg, c.data), compression);
  }

  /** One iteration keeps the table consistent. */
  lemma StepConsistent(d: Digests, codecs: Codecs, alg: HashingAlgorithm, storage: Storage, fileId: int, g: Ingest, c: Chunk)
    requires Consistent(d, codecs, g.store.records)
    requires StorageDecodable(storage, codecs)
    requires storage.Compressed? && storage.compression == LZ4 ==> 0 < |c.data| <= MaxOriginalLength
    ensures Consistent(d, codecs, IngestStep(d, alg, storage, fileId, g, c).store.records)
  {
    var key := KeyOf(d, alg, c);
    if key !in g.store.records {
      NewRecordDecodes(d, codecs, alg, storage, c, g.store.nextChunkId);
    }
  }

  /** The whole loop keeps the table consistent when LZ4-compressed chunks fit the frame header's limit. */
  lemma {:induction false} IngestConsistent(d: Digests, codecs: Codecs, alg: HashingAlgorithm, storage: Storage, fileId: int, g0: Ingest, chunks: seq<Chunk>)
    requires Consistent(d, codecs, g0.store.records)
    requires StorageDecodable(storage, codecs)
    requires storage.Compressed? && storage.compression == LZ4 ==> forall k :: 0 <= k < |chunks| ==> 0 < |chunks[k].data| <= MaxOriginalLength
    ensures Consistent(d, codecs, IngestChunks(d, alg, storage, fileId, g0, chunks).store.records)
  {
    if chunks != [] {
      var n := |chunks| - 1;
      assert forall k :: 0 <= k < n ==> chunks[..n][k] == chunks[k];
      IngestConsistent(d, codecs, alg, storage, fileId, g0, chunks[..n]);
      StepConsistent(d, codecs, alg, storage, fileId, IngestChunks(d, alg, storage, fileId, g0, chunks[..n]), chunks[n]);
    }
  }

  /**
   * Storing the chunks of any input keeps the table consistent: chunkFile's
   * pieces are never empty and never exceed the LZ4 frame's length limit.
   */
  lemma ChunkedIngestConsistent(
    d: Digests, codecs: Codecs, alg: HashingAlgorithm, storage: Storage,
    poly: RabinPoly, carried: seq<byte>, sha256: seq<byte> -> Digest32, input: seq<byte>, fileId: int, g0: Ingest)
    requires Consistent(d, codecs, g0.store.records)
    requires StorageDecodable(storage, codecs)
    ensures Consistent(d, codecs, IngestChunks(d, alg, storage, fileId, g0, Assemble(sha256, ChunkPieces(poly, carried, input))).store.records)
  {
    var pieces := ChunkPieces(poly, carried, input);
    ChunkPiecesProperties(poly, carried, input);
    AssembledChunks(sha256, pieces);
    IngestConsistent(d, codecs, alg, storage, fileId, g0, Assemble(sha256, pieces));
  }

  /** In a consistent table, with a collision-free digest, the record under a chunk's key decodes to the chunk's bytes. */
  lemma FoundRecordDecodes(d: Digests, codecs: Codecs, alg: HashingAlgorithm, records: map<Key, ChunkRecord>, data: seq<byte>)
    requires Consistent(d, codecs, records) && DigestInjective(d, alg)
    requires (alg, HashOf(d, alg, data)) in records
    ensures DecodeRecord(codecs, records[(alg, HashOf(d, alg, data))]) == Ok(data)
  {
    var decoded := DecodeRecord(codecs, records[(alg, HashOf(d, alg, data))]).value;
    HashOfInjective(d, alg, decoded, data);
  }

  /** Positions that never decrease from one link to the next never decrease at all. */
  lemma {:induction false} AdjacentSorted(ls: seq<FileChunk>)
    requires forall k :: 0 <= k < |ls| - 1 ==> ls[k].position <= ls[k + 1].position
    ensures SortedByPosition(ls)
  {
    if |ls| > 1 {
      var n := |ls| - 1;
      AdjacentSorted(ls[..n]);
      assert forall i :: 0 <= i < n ==> ls[..n][i] == ls[i];
      forall i | 0 <= i < n
        ensures ls[i].position <= ls[n].position
      {
        if i < n - 1 {
          assert ls[i].position <= ls[n - 1].position;
        }
      }
    }
  }

  /** The assembled chunks hold the pieces, in non-decreasing position order. */
  lemma AssembledChunks(sha256: seq<byte> -> Digest32, pieces: seq<seq<byte>>)
    ensures var cs := Assemble(sha256, pieces);
      && (forall k :: 0 <= k < |cs| ==> cs[k].data == pieces[k])
      && (forall k :: 0 <= k < |cs| - 1 ==> cs[k].position <= cs[k + 1].position)
  {
    var cs := Assemble(sha256, pieces);
    forall k | 0 <= k < |cs| ensures cs[k].data == pieces[k] && cs[k].originalSize >= 0 {
      AssembleAt(sha256, pieces, k);
    }
    ChunkPositions(sha256, pieces);
  }

  /** The links the loop appends for a file: one per chunk, owned by the file, at the chunk's position. */
  lemma AppendedLinks(d: Digests, alg: HashingAlgorithm, storage: Storage, fileId: int, g0: Ingest, chunks: seq<Chunk>)
    ensures var links := IngestChunks(d, alg, storage, fileId, g0, chunks).store.links;
      && |g0.store.links| <= |links|
      && var own := links[|g0.store.links|..];
      && links == g0.store.links + own
      && |own| == |chunks|
      && forall k :: 0 <= k < |chunks| ==> own[k].fileId == fileId && own[k].position == chunks[k].position
  {
    var links := IngestChunks(d, alg, storage, fileId, g0, chunks).store.links;
    var m := |g0.store.links|;
    IngestLinkCount(d, alg, storage, fileId, g0, chunks);
    IngestLinkPrefix(d, alg, storage, fileId, g0, chunks);
    var own := links[m..];
    assert links == links[..m] + own;
    forall k | 0 <= k < |chunks|
      ensures own[k].fileId == fileId && own[k].position == chunks[k].position
    {
      IngestLinkAt(d, alg, storage, fileId, g0, chunks, k);
      assert own[k] == links[m + k];
    }
  }

  /** In a consistent table, with a collision-free digest, each appended link decodes to its chunk's bytes. */
  lemma AppendedLinksDecode(d: Digests, codecs: Codecs, alg: HashingAlgorithm, storage: Storage, fileId: int, g0: Ingest, chunks: seq<Chunk>)
    requires Consistent(d, codecs, IngestChunks(d, alg, storage, fileId, g0, chunks).store.records) && DigestInjective(d, alg)
    ensures var links := IngestChunks(d, alg, storage, fileId, g0, chunks).store.links;
      && |g0.store.links| + |chunks| == |links|
      && forall k :: 0 <= k < |chunks| ==> DecodeRecord(codecs, links[|g0.store.links| + k].chunk) == Ok(chunks[k].data)
  {
    var g := IngestChunks(d, alg, storage, fileId, g0, chunks);
    IngestLinks(d, alg, storage, fileId, g0, chunks);
    forall k | 0 <= k < |chunks|
      ensures DecodeRecord(codecs, g.store.links[|g0.store.links| + k].chunk) == Ok(chunks[k].data)
    {
      FoundRecordDecodes(d, codecs, alg, g.store.records, chunks[k].data);
    }
  }

  /**
   * A file's own links appended after links of other files, in
   * non-decreasing position order, each decoding to its piece: the file is
   * rebuilt as the concatenation of the pieces.
   */
  lemma RebuildAppended(files: map<int, FileEntity>, others: seq<FileChunk>, own: seq<FileChunk>, codecs: Codecs, fileId: int, pieces: seq<seq<byte>>)
    requires fileId in files && own != [] && |pieces| == |own|
    requires forall i :: 0 <= i < |others| ==> others[i].fileId != fileId
    requires forall k :: 0 <= k < |own| ==> own[k].fileId == fileId && DecodeRecord(codecs, own[k].chunk) == Ok(pieces[k])
    requires forall k :: 0 <= k < |own| - 1 ==> own[k].position <= own[k + 1].position
    ensures Reconstruct(files, others + own, codecs, fileId) == Ok(Flatten(pieces))
  {
    AdjacentSorted(own);
    ReconstructInOrder(files, others, own, codecs, fileId);
    DecodeAllPieces(codecs, own, pieces);
  }

  /** The links appended for the chunks of a non-empty input each decode to their piece. */
  lemma StoredPiecesDecode(
    d: Digests, codecs: Codecs, alg: HashingAlgorithm, storage: Storage,
    poly: RabinPoly, carried: seq<byte>, sha256: seq<byte> -> Digest32, input: seq<byte>, fileId: int, g0: Ingest)
    requires Consistent(d, codecs, g0.store.records) && DigestInjective(d, alg)
    requires StorageDecodable(storage, codecs)
    ensures var pieces := ChunkPieces(poly, carried, input);
      var links := IngestChunks(d, alg, storage, fileId, g0, Assemble(sha256, pieces)).store.links;
      && |links| == |g0.store.links| + |pieces|
      && forall k :: 0 <= k < |pieces| ==> DecodeRecord(codecs, links[|g0.store.links| + k].chunk) == Ok(pieces[k])
  {
    var pieces := ChunkPieces(poly, carried, input);
    var chunks := Assemble(sha256, pieces);
    ChunkPiecesProperties(poly, carried, input);
    AssembledChunks(sha256, pieces);
    IngestConsistent(d, codecs, alg, storage, fileId, g0, chunks);
    AppendedLinksDecode(d, codecs, alg, storage, fileId, g0, chunks);
    var links := IngestChunks(d, alg, storage, fileId, g0, chunks).store.links;
    forall k | 0 <= k < |pieces| ensures DecodeRecord(codecs, links[|g0.store.links| + k].chunk) == Ok(pieces[k]) {
      assert chunks[k].data == pieces[k];
    }
  }

  /** An empty input stores no link for the file, so rebuilding it fails with `NoChunks`. */
  lemma StoreEmptyInput(
    d: Digests, codecs: Codecs, alg: HashingAlgorithm, storage: Storage,
    poly: RabinPoly, carried: seq<byte>, sha256: seq<byte> -> Digest32,
    files: map<int, FileEntity>, fileId: int, g0: Ingest)
    requires fileId in files
    requires forall i :: 0 <= i < |g0.store.links| ==> g0.store.links[i].fileId != fileId
    ensures var g := IngestChunks(d, alg, storage, fileId, g0, Assemble(sha256, ChunkPieces(poly, carried, [])));
      Reconstruct(files, g.store.links, codecs, fileId) == Err(NoChunks(fileId))
  {
    ChunkPiecesProperties(poly, carried, []);
    LinksOfNoneOwned(g0.store.links, fileId);
    ReconstructOutcomes(files, g0.store.links, codecs, fileId);
  }

  /**
   * The links stored for the chunks assembled from non-empty pieces, for a
   * file with no earlier links, rebuild the concatenation of the pieces.
   */
  lemma RebuildStoredPieces(
    d: Digests, codecs: Codecs, alg: HashingAlgorithm, storage: Storage, sha256: seq<byte> -> Digest32,
    pieces: seq<seq<byte>>, files: map<int, FileEntity>, fileId: int, g0: Ingest)
    requires fileId in files && pieces != [] && DigestInjective(d, alg)
    requires Consistent(d, codecs, IngestChunks(d, alg, storage, fileId, g0, Assemble(sha256, pieces)).store.records)
    requires forall i :: 0 <= i < |g0.store.links| ==> g0.store.links[i].fileId != fileId
    ensures var g := IngestChunks(d, alg, storage, fileId, g0, Assemble(sha256, pieces));
      Reconstruct(files, g.store.links, codecs, fileId) == Ok(Flatten(pieces))
  {
    var chunks := Assemble(sha256, pieces);
    var g := IngestChunks(d, alg, storage, fileId, g0, chunks);
    var m := |g0.store.links|;
    AssembledChunks(sha256, pieces);
    AppendedLinks(d, alg, storage, fileId, g0, chunks);
    AppendedLinksDecode(d, codecs, alg, storage, fileId, g0, chunks);
    var own := g.store.links[m..];
    forall k | 0 <= k < |own|
      ensures own[k].fileId == fileId && DecodeRecord(codecs, own[k].chunk) == Ok(pieces[k])
    {
      assert own[k] == g.store.links[m + k];
    }
    RebuildAppended(files, g0.store.links, own, codecs, fileId, pieces);
  }

  /** A non-empty input is rebuilt byte for byte from the links stored for it. */
  lemma StoreNonEmptyInput(
    d: Digests, codecs: Codecs, alg: HashingAlgorithm, storage: Storage,
    poly: RabinPoly, carried: seq<byte>, sha256: seq<byte> -> Digest32, input: seq<byte>,
    files: map<int, FileEntity>, fileId: int, g0: Ingest)
    requires Consistent(d, codecs, g0.store.records) && DigestInjective(d, alg)
    requires StorageDecodable(storage, codecs)
    requires fileId in files && input != []
    requires forall i :: 0 <= i < |g0.store.links| ==> g0.store.links[i].fileId != fileId
    ensures var g := IngestChunks(d, alg, storage, fileId, g0, Assemble(sha256, ChunkPieces(poly, carried, input)));
      Reconstruct(files, g.store.links, codecs, fileId) == Ok(input)
  {
    var pieces := ChunkPieces(poly, carried, input);
    var chunks := Assemble(sha256, pieces);
    ChunkPiecesProperties(poly, carried, input);
    AssembledChunks(sha256, pieces);
    IngestConsistent(d, codecs, alg, storage, fileId, g0, chunks);
    RebuildStoredPieces(d, codecs, alg, storage, sha256, pieces, files, fileId, g0);
  }

  /**
   * Storing the chunks of `input` for a file with no links yet and then
   * rebuilding that file gives `input` back; an empty input leaves the file
   * without chunks, and rebuilding it fails with `NoChunks`. The store
   * methods ensure the premise on earlier links for the file they save.
   */
  lemma StoreThenReconstruct(
    d: Digests, codecs: Codecs, alg: HashingAlgorithm, storage: Storage,
    poly: RabinPoly, carried: seq<byte>, sha256: seq<byte> -> Digest32, input: seq<byte>,
    files: map<int, FileEntity>, fileId: int, g0: Ingest)
    requires Consistent(d, codecs, g0.store.records) && DigestInjective(d, alg)
    requires StorageDecodable(storage, codecs)
    requires fileId in files
    requires forall i :: 0 <= i < |g0.store.links| ==> g0.store.links[i].fileId != fileId
    ensures var chunks := Assemble(sha256, ChunkPieces(poly, carried, input));
      var g := IngestChunks(d, alg, storage, fileId, g0, chunks);
      Reconstruct(files, g.store.links, codecs, fileId) == if input == [] then Err(NoChunks(fileId)) else Ok(input)
  {
    if input == [] {
      StoreEmptyInput(d, codecs, alg, storage, poly, carried, sha256, files, fileId, g0);
    } else {
      StoreNonEmptyInput(d, codecs, alg, storage, poly, carried, sha256, input, files, fileId, g0);
    }
  }
}
