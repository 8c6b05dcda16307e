/**
 * The persisted entities (ChunkEntity, FileEntity, FileChunkEntity) and the
 * hashing algorithms a chunk can be indexed by.
 */
module Entities {
  import opened Wrappers
  import opened Bytes

  datatype HashingAlgorithm = SHA1 | SHA256 | BLAKE3

  /** `HashingAlgorithm.name()`, as reported in the store results. */
  function AlgorithmName(a: HashingAlgorithm): string
  {
    match a
    case SHA1 => "SHA1"
    case SHA256 => "SHA256"
    case BLAKE3 => "BLAKE3"
  }

  /**
   * A stored chunk: its (possibly compressed) bytes, one hash column per
   * algorithm, and the compression tag and original size, both nullable.
   */
  datatype ChunkRecord = ChunkRecord(
    id: int,
    data: seq<byte>,
    hashSha1: Option<string>,
    hashSha256: Option<string>,
    hashBlake3: Option<string>,
    compressionType: Option<string>,
    originalSize: Option<int>)

  /** The hash column that lookups by `alg` read. */
  function HashColumn(r: ChunkRecord, alg: HashingAlgorithm): Option<string>
  {
    match alg
    case SHA1 => r.hashSha1
    case SHA256 => r.hashSha256
    case BLAKE3 => r.hashBlake3
  }

  /**
   * A new, unsaved chunk entity holding `data`, with only the column of
   * `alg` set to `hash`.
   */
  function NewRecord(data: seq<byte>, alg: HashingAlgorithm, hash: string, compressionType: Option<string>)
    : (r: ChunkRecord)
    ensures r.data == data && r.compressionType == compressionType && r.originalSize == None
    ensures forall a :: HashColumn(r, a) == (if a == alg then Some(hash) else None)
  {
    ChunkRecord(0, data,
      if alg == SHA1 then Some(hash) else None,
      if alg == SHA256 then Some(hash) else None,
      if alg == BLAKE3 then Some(hash) else None,
      compressionType, None)
  }

  datatype FileEntity = FileEntity(id: int, name: string, extension: string, size: int)

  /** A link from a file to one of its chunks, at the chunk's byte offset. */
  datatype FileChunk = FileChunk(fileId: int, chunk: ChunkRecord, position: int)
}
