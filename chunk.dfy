/** The immutable chunk value handed from the chunker to its callers (Chunk.java). */
module Chunks {
  import opened Bytes

  /**
   * A chunk: its bytes, the hex digest of those bytes, their count and the
   * offset of the first byte in the source. As a value it cannot be changed
   * through the array it was built from, nor through what `getData` returns.
   */
  datatype Chunk = Chunk(data: seq<byte>, hash: string, originalSize: int, position: int)
  {
    /** `originalSize` is the length of the data the chunk was built from. */
    predicate Valid()
    {
      originalSize == |data|
    }
  }

  /** The constructor: keeps a copy of the data, the hash and the position as given. */
  function NewChunk(data: seq<byte>, hash: string, position: int): (c: Chunk)
    ensures c.Valid()
    ensures c.data == data && c.hash == hash && c.position == position
  {
    Chunk(data, hash, |data|, position)
  }

  /** The data of every chunk, in order. */
  function DataOf(chunks: seq<Chunk>): (r: seq<seq<byte>>)
    ensures |r| == |chunks|
    ensures forall k :: 0 <= k < |chunks| ==> r[k] == chunks[k].data
  {
    if chunks == [] then [] else DataOf(chunks[..|chunks| - 1]) + [chunks[|chunks| - 1].data]
  }
}
