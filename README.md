# GoofyFiles deduplication core in Dafny

GoofyFiles stores files as content-defined chunks, and it stores each distinct chunk only once. This project models the sequential path that a file takes through the system:

- **Chunker.** A Rabin–Karp splitter (`RabinKarp`) signals cut points. `ChunkingService.chunkFile` cuts the byte stream into chunks of 4 KiB to 64 KiB (the last one may be shorter). Each chunk carries its byte offset and the lowercase-hex SHA-256 of its bytes.
- **LZ4 framing.** `CompressionService` writes and validates an 8-byte big-endian header (original length, compressed length) in front of the LZ4 block. It dispatches LZ4, Zstd and Snappy through `compress` and `decompress`.
- **Deduplicating store.** `DuplicationService.analyzeFile` counts chunk hashes. `processAndStoreFile` and `processAndStoreFileCompressed` run the find-or-insert loop. The chunk table is keyed by the selected algorithm's hash column. One link is appended per chunk, and the counters are updated on every pass.
- **Reconstruction.** `FileReconstructionService.reconstructFile` fetches a file's links in position order, decodes each record (decompressing it when it carries a compression tag), and concatenates the bytes. It has two typed error exits.

The main theorem is `Pipeline.StoreThenReconstruct`. Chunk any input, store the chunks (plain, or compressed with a lossless codec) for a file that has no links yet, then reconstruct that file. The result is the input. An empty input stores nothing, and reconstruction then fails with `NoChunks`. The theorem has two premises about the tables it starts from. No earlier link may carry the file's id, and every stored record must decode to bytes that hash to its key (`Consistent`); the digest must also be collision-free (`DigestInjective`). Both table premises hold of the empty tables, and the store methods keep them: every link belongs to a saved file, so the file just saved has no links yet, and `Pipeline.ChunkedIngestConsistent` keeps `Consistent` (for the compressed method, when its codec is lossless). So from empty tables onward, the theorem applies to every state the store methods produce.

## How the model is built

- The external libraries are function-valued fields of datatypes: `RabinPoly` for the fingerprint step, `Digests` for SHA-1, SHA-256 and BLAKE3, and `Codecs` for LZ4, Zstd and Snappy. Every property about them is an explicit precondition, such as `Lossless` or `DigestInjective`.
- Bytes are `byte` (0..255), and byte arrays are `seq<byte>`.
- Java objects whose fields change become classes. These are `RabinKarp`, `ChunkingService`, `ByteBuffer`, the three repositories and the services.
- Each loop is a Dafny loop, proved against a left fold that reads like the loop body:
  - `Feed` and `FeedAll` for `chunkFile`;
  - `Counts` for the `merge` loop;
  - `IngestStep` and `IngestChunks` for the store loop;
  - `DecodeAll` for the reconstruction loop.
- The repositories are a map of files, a map from `(algorithm, hash)` to chunk records, and an append-only list of links. `findByFileIdOrderByPosition` is a filter followed by a stable sort by position.

## Model

| member | source | states |
|---|---|---|
| RabinKarpSplitter.RabinKarp.constructor | java/src/main/java/com/goofy/GoofyFiles/chunking/RabinKarp.java:13-18 | A new splitter has pushed nothing: `windowPos` is 0 and the fingerprint is the polynomial's initial value. This is the same state as after `reset`. |
| RabinKarpSplitter.RabinKarp.Reset | java/src/main/java/com/goofy/GoofyFiles/chunking/RabinKarp.java:20-23 | `windowPos` goes back to 0, the fingerprint to its initial value, and the bytes pushed since reset to none. |
| RabinKarpSplitter.RabinKarp.PushByte | java/src/main/java/com/goofy/GoofyFiles/chunking/RabinKarp.java:25-32 | The byte is appended to the pushed bytes and `windowPos` grows by exactly 1. The fingerprint stays the fingerprint of the pushed bytes (`Valid`). The decision is `IsCut` of the bytes pushed since the last reset, and of nothing else. |
| RabinKarpSplitter.CutOfFingerprint | java/src/main/java/com/goofy/GoofyFiles/chunking/RabinKarp.java:29-31 | Given the fingerprint of the pushed bytes, `IsCut` holds iff at least 48 bytes were pushed and the low 13 bits of the fingerprint are zero. |
| RabinKarpSplitter.NoCutWhileWindowFills | java/src/main/java/com/goofy/GoofyFiles/chunking/RabinKarp.java:7-31 | With fewer than 48 bytes pushed since reset, the splitter never signals a cut. |
| Chunks.NewChunk | java/src/main/java/com/goofy/GoofyFiles/chunking/Chunk.java:11-16 | The chunk keeps the data, hash and position it was given, and `originalSize` is the data length (`Valid`). |
| Chunks.DataOf | java/src/main/java/com/goofy/GoofyFiles/chunking/Chunk.java:18-20 | `getData` returns, chunk by chunk, exactly the stored bytes. |
| Hex.HexEncodeDigits | java/src/main/java/com/goofy/GoofyFiles/chunking/ChunkingService.java:67-77 | Each digest byte becomes two lowercase hex digits, high nibble first, so a byte below 16 gets a leading zero. |
| Hex.HexRoundTrip | java/src/main/java/com/goofy/GoofyFiles/chunking/ChunkingService.java:67-77 | Decoding the hex string gives back the digest bytes. |
| Hex.HexEncodeInjective | java/src/main/java/com/goofy/GoofyFiles/chunking/ChunkingService.java:67-77 | Different digests never get the same hex string. |
| Chunking.ChunkingService.constructor | java/src/main/java/com/goofy/GoofyFiles/chunking/ChunkingService.java:23-26 | The service owns a fresh splitter that has pushed nothing, together with the SHA-256 digest. |
| Chunking.ChunkingService.ChunkFile | java/src/main/java/com/goofy/GoofyFiles/chunking/ChunkingService.java:28-65 | The chunks are the chunk pieces of the input (their properties are in `ChunkPiecesProperties`), hashed and placed at running offsets. Afterwards the splitter holds `CarriedAfter` of the bytes it held before and the input. |
| Chunking.ChunkingService.CalculateHash | java/src/main/java/com/goofy/GoofyFiles/chunking/ChunkingService.java:67-77 | The result is the hex encoding of the SHA-256 digest and is 64 characters long. |
| Chunking.Assemble | java/src/main/java/com/goofy/GoofyFiles/chunking/ChunkingService.java:43-50 | One chunk per piece, in order. |
| Chunking.FeedStep | java/src/main/java/com/goofy/GoofyFiles/chunking/ChunkingService.java:36-54 | One loop iteration keeps the invariant, which relates the emitted chunks to the buffer, the bounds, and the splitter's pushed bytes. |
| Chunking.ScanFacts | java/src/main/java/com/goofy/GoofyFiles/chunking/ChunkingService.java:36-54 | After the loop, the emitted chunks followed by the open buffer are exactly the input. |
| Chunking.ChunkPiecesProperties | java/src/main/java/com/goofy/GoofyFiles/chunking/ChunkingService.java:36-61 | The pieces concatenate to the input. There are no pieces iff the input is empty. Every piece is non-empty and at most 65536 bytes. Every piece but the last has at least 4096 bytes. Every piece but the last is either exactly 65536 bytes or at least 4096 + 47 bytes (fewer in the first piece when the splitter arrived holding bytes). |
| Chunking.CarriedAfterCall | java/src/main/java/com/goofy/GoofyFiles/chunking/ChunkingService.java:40-61 | The trailing chunk does not reset the splitter. It keeps the bytes pushed since the last in-loop cut, after the bytes it carried in when there was no such cut. An input shorter than 4096 bytes leaves the splitter unchanged and gives at most one chunk. |
| Chunking.ChunkPositions | java/src/main/java/com/goofy/GoofyFiles/chunking/ChunkingService.java:32-49 | The first chunk is at position 0. Each later chunk's position is the previous position plus the previous size. |
| Chunking.ChunkSlices | java/src/main/java/com/goofy/GoofyFiles/chunking/ChunkingService.java:32-61 | Each chunk's data is the slice of the concatenated pieces that starts at its position. |
| Chunking.AssembledOffsets | java/src/main/java/com/goofy/GoofyFiles/chunking/ChunkingService.java:32-61 | When no piece is empty, the chunks tile the concatenation by byte offset. The first starts at 0 and each one starts where the previous one ends. Positions therefore strictly increase, and the last chunk ends at the total length. |
| Chunking.AssembledData | java/src/main/java/com/goofy/GoofyFiles/chunking/ChunkingService.java:43-61 | Reading `getData` off the assembled chunks, in order, gives back exactly the pieces they were built from. |
| Chunking.ChunkOffsets | java/src/main/java/com/goofy/GoofyFiles/chunking/ChunkingService.java:28-65 | The chunks `chunkFile` returns tile its input: their data, concatenated in order, is the input. Their positions start at 0 and are strictly increasing and contiguous, and the last chunk ends at the input's length. |
| Compression.ValueOf | java/src/main/java/com/goofy/GoofyFiles/compression/CompressionService.java:22-26 | Only "LZ4", "ZSTD" and "SNAPPY" name a compression type, and the type found has that name. |
| Compression.ValueOfName | java/src/main/java/com/goofy/GoofyFiles/compression/CompressionService.java:22-26 | `valueOf(name())` gives back every type. |
| Compression.ReadIntBytes | java/src/main/java/com/goofy/GoofyFiles/compression/CompressionService.java:65-78 | Reading back a 32-bit int written big-endian gives the same int. |
| Compression.Lz4FrameLayout | java/src/main/java/com/goofy/GoofyFiles/compression/CompressionService.java:60-69 | A frame is 8 + (block length) bytes. Bytes 0-3 hold the data length and bytes 4-7 the block length, both big-endian, and the block follows. |
| Compression.Lz4RoundTrip | java/src/main/java/com/goofy/GoofyFiles/compression/CompressionService.java:60-98 | Parsing a frame built from 1 to 100,000,000 bytes recovers the original length and the exact block. With a lossless codec, decoding gives back the data. |
| Compression.Lz4EmptyFrameRefused | java/src/main/java/com/goofy/GoofyFiles/compression/CompressionService.java:79-81 | A frame made from empty data is rejected for its original length 0. |
| Compression.Lz4HeaderChecks | java/src/main/java/com/goofy/GoofyFiles/compression/CompressionService.java:71-98 | A frame parses iff it has at least 8 bytes, an original length in 1..100,000,000 and a block length in 1..(length − 8). The block is the bytes right after the header, and trailing bytes do not change the outcome. |
| Compression.CompressionRoundTrip | java/src/main/java/com/goofy/GoofyFiles/compression/CompressionService.java:34-58 | For each type with a lossless codec, `decompress(compress(data))` is the data, whatever `originalLength` is passed. ZSTD and SNAPPY need nothing more, the empty input included. LZ4 also needs 1 to 100,000,000 bytes, because its frame's header check refuses other lengths. |
| Compression.ByteBuffer.Allocate | java/src/main/java/com/goofy/GoofyFiles/compression/CompressionService.java:63 | A fresh, zero-filled buffer of the requested capacity, positioned at 0. |
| Compression.ByteBuffer.Wrap | java/src/main/java/com/goofy/GoofyFiles/compression/CompressionService.java:73 | A fresh buffer holding exactly the given bytes, positioned at 0. |
| Compression.ByteBuffer.Put | java/src/main/java/com/goofy/GoofyFiles/compression/CompressionService.java:67 | The bytes are written at the position, the rest of the buffer is unchanged, and the position advances by their length. |
| Compression.ByteBuffer.PutInt | java/src/main/java/com/goofy/GoofyFiles/compression/CompressionService.java:65-66 | Four big-endian bytes are written at the position, which advances by 4. |
| Compression.ByteBuffer.GetInt | java/src/main/java/com/goofy/GoofyFiles/compression/CompressionService.java:74-76 | With 4 bytes left, it reads the big-endian int there and advances. Otherwise it fails (the underflow) and leaves the position unchanged. |
| Compression.ByteBuffer.Get | java/src/main/java/com/goofy/GoofyFiles/compression/CompressionService.java:87-88 | It returns the next n bytes and advances by n. |
| Compression.CompressionService.constructor | java/src/main/java/com/goofy/GoofyFiles/compression/CompressionService.java:28-32 | The service uses the given codecs. |
| Compression.CompressionService.Compress | java/src/main/java/com/goofy/GoofyFiles/compression/CompressionService.java:34-44 | The dispatch by type. Its partner is `CompressionRoundTrip`. |
| Compression.CompressionService.Decompress | java/src/main/java/com/goofy/GoofyFiles/compression/CompressionService.java:46-58 | The dispatch by type. Each failure becomes an error result, and the partner is `CompressionRoundTrip`. |
| Compression.CompressionService.CompressLz4 | java/src/main/java/com/goofy/GoofyFiles/compression/CompressionService.java:60-69 | The buffer-built frame equals `Lz4Frame`, which has 8 + (block length) bytes (see `Lz4FrameLayout`). |
| Compression.CompressionService.DecompressLz4 | java/src/main/java/com/goofy/GoofyFiles/compression/CompressionService.java:71-98 | The buffer-reading decoder equals `DecompressLz4Frame`, whose checks are given in `Lz4HeaderChecks` and `Lz4RoundTrip`. |
| Entities.NewRecord | java/src/main/java/com/goofy/GoofyFiles/duplication/DuplicationService.java:182-201 | A new chunk record holds the bytes and the compression tag, has no original size, and fills only the selected algorithm's hash column. |
| Repositories.FileRepository.constructor | java/src/main/java/com/goofy/GoofyFiles/repository/FileRepository.java:9-11 | An empty file table. |
| Repositories.FileRepository.Save | java/src/main/java/com/goofy/GoofyFiles/duplication/DuplicationService.java:141-145 | The file gets the next unused id and is added under it. Nothing else changes. |
| Repositories.FreshIdHasNoLinks | java/src/main/java/com/goofy/GoofyFiles/duplication/DuplicationService.java:141-145 | When every link belongs to a saved file, the id the file table hands out next has no link. |
| Repositories.FileRepository.FindById | java/src/main/java/com/goofy/GoofyFiles/repository/FileRepository.java:10 | It finds a file iff its id is in the table, and then returns that file. |
| Repositories.ChunkRepository.constructor | java/src/main/java/com/goofy/GoofyFiles/repository/ChunkRepository.java:9-16 | An empty chunk table. |
| Repositories.ChunkRepository.FindByHash | java/src/main/java/com/goofy/GoofyFiles/repository/ChunkRepository.java:11-15 | The lookup by one algorithm's hash column: found iff that key is stored. |
| Repositories.ChunkRepository.Save | java/src/main/java/com/goofy/GoofyFiles/duplication/DuplicationService.java:199 | The record gets the next id and is stored under its key. |
| Repositories.LinksOf | java/src/main/java/com/goofy/GoofyFiles/repository/FileChunkRepository.java:12 | The links of one file: exactly the links with that file id. |
| Repositories.LinksOfAppend | java/src/main/java/com/goofy/GoofyFiles/repository/FileChunkRepository.java:12 | Filtering distributes over appending links. |
| Repositories.SortByPosition | java/src/main/java/com/goofy/GoofyFiles/repository/FileChunkRepository.java:12 | A permutation of its input. |
| Repositories.SortByPositionSorted | java/src/main/java/com/goofy/GoofyFiles/repository/FileChunkRepository.java:12 | The result is ordered by position. |
| Repositories.SortByPositionSortedInput | java/src/main/java/com/goofy/GoofyFiles/repository/FileChunkRepository.java:12 | Links already in position order keep their order. |
| Repositories.FileChunkRepository.constructor | java/src/main/java/com/goofy/GoofyFiles/repository/FileChunkRepository.java:11-13 | No links. |
| Repositories.FileChunkRepository.Save | java/src/main/java/com/goofy/GoofyFiles/duplication/DuplicationService.java:204-208 | The link is appended. |
| Repositories.FileChunkRepository.FindByFileIdOrderByPosition | java/src/main/java/com/goofy/GoofyFiles/repository/FileChunkRepository.java:12 | Exactly the file's links, as a permutation; the order comes from `SortByPositionSorted`. |
| Reconstruction.DecodeRecordCases | java/src/main/java/com/goofy/GoofyFiles/service/FileReconstructionService.java:50-75 | An untagged record yields its stored bytes. An unknown tag is an error. A known tag decompresses with that type. The stored `originalSize` never changes the outcome. |
| Reconstruction.DecodeNewRecord | java/src/main/java/com/goofy/GoofyFiles/service/FileReconstructionService.java:50-75 | A record written by either store loop decodes to the chunk bytes it was made from, given a lossless codec. Only an LZ4 record needs its data to be 1 to 100,000,000 bytes long. |
| Reconstruction.DecodeAllPieces | java/src/main/java/com/goofy/GoofyFiles/service/FileReconstructionService.java:47-81 | When every link decodes, the output is the concatenation in link order, and its length is the sum of the decoded lengths. |
| Reconstruction.DecodeAllFirstFailure | java/src/main/java/com/goofy/GoofyFiles/service/FileReconstructionService.java:72-75 | The first link that fails to decode aborts the whole call with its error, and no partial bytes are returned. |
| Reconstruction.DecodeAllOkPrefix | java/src/main/java/com/goofy/GoofyFiles/service/FileReconstructionService.java:49-79 | If every link decodes, the loop succeeds. |
| Reconstruction.DecodeAllOkElements | java/src/main/java/com/goofy/GoofyFiles/service/FileReconstructionService.java:49-79 | If the loop succeeds, every link decoded. |
| Reconstruction.ReconstructOutcomes | java/src/main/java/com/goofy/GoofyFiles/service/FileReconstructionService.java:38-86 | `FileNotFound` iff the id is unknown. `NoChunks` iff the file is known and has no links. On success the output is the decoding of the file's links sorted by position, as a permutation of those links. |
| Reconstruction.ReconstructInOrder | java/src/main/java/com/goofy/GoofyFiles/service/FileReconstructionService.java:42-79 | A file whose links are already in position order is rebuilt from them in that order, whatever other files' links are stored. |
| Reconstruction.PlainInOrder | java/src/main/java/com/goofy/GoofyFiles/service/FileReconstructionService.java:49-79 | Untagged links in position order contribute their stored bytes verbatim, concatenated. |
| Reconstruction.ThreePlainChunks | java/src/test/java/com/goofy/GoofyFiles/service/FileReconstructionServiceTest.java:152-199 | Three untagged chunks at positions 0, 1 and 2 rebuild as their concatenation. |
| Reconstruction.HelloWorld | java/src/test/java/com/goofy/GoofyFiles/service/FileReconstructionServiceTest.java:152-199 | "Hello ", "World" and "!" rebuild as "Hello World!". |
| Reconstruction.FileReconstructionService.constructor | java/src/main/java/com/goofy/GoofyFiles/service/FileReconstructionService.java:28-35 | The service uses the given repositories and compression service. |
| Reconstruction.FileReconstructionService.ReconstructFile | java/src/main/java/com/goofy/GoofyFiles/service/FileReconstructionService.java:38-86 | The loop over the links equals `Reconstruct`, whose outcomes are given in `ReconstructOutcomes`. |
| Reconstruction.FileReconstructionService.DecodeChunk | java/src/main/java/com/goofy/GoofyFiles/service/FileReconstructionService.java:50-75 | The per-link decoding (tag lookup, length hint, decompression) equals `DecodeRecord`; see `DecodeRecordCases`. |
| DuplicationStats.HashOfDecodes | java/src/main/java/com/goofy/GoofyFiles/duplication/DuplicationService.java:101-117 | The hash string is twice as long as the digest and decodes back to the digest, for all three algorithms. |
| DuplicationStats.HashOfInjective | java/src/main/java/com/goofy/GoofyFiles/duplication/DuplicationService.java:101-117 | With a collision-free digest, equal hash strings mean equal chunk bytes, and the converse holds too. |
| DuplicationStats.LastIndexOf | java/src/main/java/com/goofy/GoofyFiles/duplication/DuplicationService.java:134 | The index of the last occurrence of the character, or -1 if it does not occur. |
| DuplicationStats.SplitFileNameRebuild | java/src/main/java/com/goofy/GoofyFiles/duplication/DuplicationService.java:132-138 | The extension never holds a dot. A non-empty extension is the text after the last dot, and the name is the text before it. The download name rebuilds the file name iff the file name does not end in a dot after its first character. |
| DuplicationStats.CountsOccurrences | java/src/main/java/com/goofy/GoofyFiles/duplication/DuplicationService.java:72-77 | The merge loop counts every hash exactly as many times as it occurs, and only hashes that occur. |
| DuplicationStats.CountsSum | java/src/main/java/com/goofy/GoofyFiles/duplication/DuplicationService.java:72-77 | The counts add up to the number of chunks. |
| DuplicationStats.AnalyzeStatistics | java/src/main/java/com/goofy/GoofyFiles/duplication/DuplicationService.java:78-98 | `totalChunks` is the number of chunks and the sum of the counts. `uniqueChunks` is the number of distinct hashes. `duplicateDetails` holds exactly the hashes occurring more than once, with their counts. `duplicatedChunks` is the number of such hashes. `duplicatedChunks <= uniqueChunks <= totalChunks`. |
| DuplicationStore.StepRecords | java/src/main/java/com/goofy/GoofyFiles/duplication/DuplicationService.java:157-209 | One pass stores the chunk's key, keeps every earlier record, and appends one link to the found or new record at the chunk's offset. |
| DuplicationStore.StepGrowth | java/src/main/java/com/goofy/GoofyFiles/duplication/DuplicationService.java:162-201 | A hit leaves the table, the id generator and `uniqueChunks` alone. A miss grows each of them by one. |
| DuplicationStore.StepTally | java/src/main/java/com/goofy/GoofyFiles/duplication/DuplicationService.java:177-201 | A hit counts a duplicate and saves the chunk's size. A miss counts a unique chunk and, when compressing, adds the compressed length. |
| DuplicationStore.StepNewRecord | java/src/main/java/com/goofy/GoofyFiles/duplication/DuplicationService.java:182-201 | A miss saves the record made from the (possibly compressed) chunk, with the next id. |
| DuplicationStore.IngestRecords | java/src/main/java/com/goofy/GoofyFiles/duplication/DuplicationService.java:157-209 | The table keys after the loop are the earlier keys plus the chunks' keys. |
| DuplicationStore.IngestUntouched | java/src/main/java/com/goofy/GoofyFiles/duplication/DuplicationService.java:162-201 | The records stored before the loop are still present and unchanged. |
| DuplicationStore.IngestGrowth | java/src/main/java/com/goofy/GoofyFiles/duplication/DuplicationService.java:182-201 | The table and the id generator grow by exactly `uniqueChunks`, so there is at most one new record per distinct hash. |
| DuplicationStore.IngestLinks | java/src/main/java/com/goofy/GoofyFiles/duplication/DuplicationService.java:204-208 | Exactly one link per chunk is appended, in chunk order, at the chunk's offset, and points to the record under the chunk's key. |
| DuplicationStore.IngestLinksOfSavedFiles | java/src/main/java/com/goofy/GoofyFiles/duplication/DuplicationService.java:204-208 | Storing a saved file's chunks keeps every link belonging to a saved file. |
| DuplicationStore.IngestCounts | java/src/main/java/com/goofy/GoofyFiles/duplication/DuplicationService.java:177-201 | `duplicateChunks` counts the chunks whose key was already stored (before the loop or earlier in it), and `uniqueChunks` counts the others. |
| DuplicationStore.IngestSizes | java/src/main/java/com/goofy/GoofyFiles/duplication/DuplicationService.java:177-201 | `savedStorage` sums the sizes of the found chunks. `totalCompressedSize` sums the stored lengths of the new chunks. |
| DuplicationStore.IngestTally | java/src/main/java/com/goofy/GoofyFiles/duplication/DuplicationService.java:151-201 | All the counters together, including `duplicateChunks + uniqueChunks == totalChunks`. |
| DuplicationStore.IngestKnownChunks | java/src/main/java/com/goofy/GoofyFiles/duplication/DuplicationService.java:162-181 | Chunks whose keys are all stored change neither the table nor the id generator, and each counts as a duplicate. |
| DuplicationStore.IngestTwice | java/src/main/java/com/goofy/GoofyFiles/duplication/DuplicationService.java:162-201 | Storing the same chunks a second time inserts nothing and counts only duplicates. |
| DuplicationStore.IngestNewRecords | java/src/main/java/com/goofy/GoofyFiles/duplication/DuplicationService.java:298-321 | Every new record carries the mode's compression tag and no original size, and has its hash only in the selected algorithm's column. |
| DuplicationStore.IngestNewRecordData | java/src/main/java/com/goofy/GoofyFiles/duplication/DuplicationService.java:298-306 | Every new record holds one chunk's bytes with that chunk's key, compressed when the mode compresses. |
| Duplication.Ratio | java/src/main/java/com/goofy/GoofyFiles/duplication/DuplicationService.java:222 | 0 when there are no chunks. Otherwise the ratio times the chunk count is the duplicate count, and the ratio lies in [0, 1]. |
| Duplication.DuplicationService.constructor | java/src/main/java/com/goofy/GoofyFiles/duplication/DuplicationService.java:46-57 | The service uses the given collaborators. |
| Duplication.DuplicationService.ForAnalysis | java/src/main/java/com/goofy/GoofyFiles/duplication/DuplicationService.java:64-66 | Only the chunking service is set. Every repository and the compression service are absent. |
| Duplication.DuplicationService.CalculateHash | java/src/main/java/com/goofy/GoofyFiles/duplication/DuplicationService.java:101-117 | The selected algorithm's hex digest, which decodes back to the digest. |
| Duplication.DuplicationService.CountHashes | java/src/main/java/com/goofy/GoofyFiles/duplication/DuplicationService.java:72-77 | The merge loop computes `Counts` of the chunk hashes; see `CountsOccurrences`. |
| Duplication.DuplicationService.AnalyzeFile | java/src/main/java/com/goofy/GoofyFiles/duplication/DuplicationService.java:68-99 | The result is `Analyze` of the hashes of the file's chunks (see `AnalyzeStatistics`), and the splitter carries over as in `ChunkFile`. |
| Duplication.DuplicationService.StoreChunk | java/src/main/java/com/goofy/GoofyFiles/duplication/DuplicationService.java:158-208 | One pass against the repositories performs `IngestStep` on their contents and the counters. |
| Duplication.DuplicationService.StoreChunks | java/src/main/java/com/goofy/GoofyFiles/duplication/DuplicationService.java:157-209 | The loop leaves the repositories and counters as `IngestChunks` from zeroed counters. |
| Duplication.DuplicationService.ProcessAndStoreFile | java/src/main/java/com/goofy/GoofyFiles/duplication/DuplicationService.java:120-228 | It fails iff a repository is missing, and then changes nothing. Otherwise it saves the file (name and extension split) under the next id, chunks the input, ingests the chunks plain, and reports the counters and ratio. It keeps `LinksOwned`: every link belongs to a saved file. Before the store loop, no link carried the new file's id. For any codecs, a table in which every record decodes to bytes hashing to its key stays so (`Pipeline.Consistent`). |
| Duplication.DuplicationService.ProcessAndStoreFileCompressed | java/src/main/java/com/goofy/GoofyFiles/duplication/DuplicationService.java:231-352 | The same, except that it also fails when the compression service is missing, stores new chunks compressed and tagged, and reports the type and `totalCompressedSize`. It also keeps `LinksOwned`, and no link carried the new file's id before the loop. With a lossless codec for the chosen type, it keeps `Pipeline.Consistent` under the service's codecs. |
| Pipeline.NewRecordDecodes | java/src/main/java/com/goofy/GoofyFiles/duplication/DuplicationService.java:182-201 | A record saved by the store loop decodes in reconstruction to the chunk's bytes. Under LZ4 the chunk must be 1 to 100,000,000 bytes long. |
| Pipeline.StepConsistent | java/src/main/java/com/goofy/GoofyFiles/duplication/DuplicationService.java:157-209 | One pass keeps every stored record decoding to bytes whose hash is its key. |
| Pipeline.IngestConsistent | java/src/main/java/com/goofy/GoofyFiles/duplication/DuplicationService.java:157-209 | The whole loop keeps that invariant. |
| Pipeline.ChunkedIngestConsistent | java/src/main/java/com/goofy/GoofyFiles/duplication/DuplicationService.java:157-209 | Storing the chunks `chunkFile` produced keeps that invariant under every storage mode that decompresses with the same lossless codecs: no piece is empty or exceeds the LZ4 frame's length limit. |
| Pipeline.FoundRecordDecodes | java/src/main/java/com/goofy/GoofyFiles/duplication/DuplicationService.java:162-181 | With a collision-free digest, the record found for a chunk's hash decodes to that chunk's bytes. |
| Pipeline.AssembledChunks | java/src/main/java/com/goofy/GoofyFiles/chunking/ChunkingService.java:43-61 | For any pieces, empty ones included, the chunks carry the pieces in order, at non-decreasing positions; this is the form reconstruction's ordering needs. The strict order of `chunkFile`'s output is `Chunking.ChunkOffsets`. |
| Pipeline.AppendedLinks | java/src/main/java/com/goofy/GoofyFiles/duplication/DuplicationService.java:204-208 | The links appended for a file extend the old list: one per chunk, owned by the file, at the chunk's position. |
| Pipeline.AppendedLinksDecode | java/src/main/java/com/goofy/GoofyFiles/duplication/DuplicationService.java:204-208 | Each appended link decodes to its chunk's bytes. |
| Pipeline.RebuildAppended | java/src/main/java/com/goofy/GoofyFiles/service/FileReconstructionService.java:42-79 | A file's own links, in position order and each decoding to its piece, rebuild as the concatenation of the pieces. |
| Pipeline.StoredPiecesDecode | java/src/main/java/com/goofy/GoofyFiles/duplication/DuplicationService.java:148-209 | After chunking and storing, the k-th appended link decodes to the k-th piece. |
| Pipeline.StoreEmptyInput | java/src/main/java/com/goofy/GoofyFiles/service/FileReconstructionService.java:42-45 | An empty file stores no link, so reconstructing it fails with `NoChunks`. |
| Pipeline.StoreNonEmptyInput | java/src/main/java/com/goofy/GoofyFiles/service/FileReconstructionService.java:38-86 | A non-empty input is rebuilt byte for byte from the links stored for it. |
| Pipeline.StoreThenReconstruct | java/src/main/java/com/goofy/GoofyFiles/service/FileReconstructionService.java:38-86 | Chunk, store (plain or with a lossless codec), then reconstruct: the result is the input, or `NoChunks` for an empty input. The theorem requires that no earlier link carries the file's id, that the starting table is `Consistent` under the reconstruction codecs, and that the digest is collision-free. Both store methods ensure the first of the link table they start from and keep `Consistent` (the compressed one when its codec is lossless); both premises hold of empty tables. |

## Left out

- The Rabin polynomial arithmetic, the SHA-1, SHA-256 and BLAKE3 digests, and the LZ4, Zstd and Snappy codecs are not modelled. They are function parameters, and the properties the proofs need (a lossless codec, a collision-free digest) are preconditions.
- The codecs are total functions. A codec throwing on malformed input is modelled as an error only where the service itself checks (the LZ4 header) or where the codec reports failure.
- Zstd's `getFrameContentSize` and the Zstd/Snappy delegation are not modelled. They sit inside the `FramedCodec` parameter.
- File I/O is not modelled. The file is an in-memory byte sequence, so the `IOException` of reading it, the temp files, the output stream and the logging are left out.
- Transactions, concurrency and database constraints are not modelled; only the sequential loop is. The file record is saved before chunking, so ingestion is not all-or-nothing.
- `createdAt` timestamps and link ids are not modelled. They influence no result.
- Java's 32-bit `int` and 64-bit `long` counters are unbounded integers. Overflow of `currentPosition`, `savedStorage` or `totalCompressedSize` is not modelled.
- RabinKarpSplitter.RabinKarp.PushByte: `windowPos` is a Java `int` and is unbounded in the model. The chunker resets the splitter only after an in-loop cut, so the counter keeps growing across calls. In the source it would wrap negative after 2^31 pushes without a cut, and `windowPos >= 48` would then switch content-defined cuts off. The model does not capture that wrap, and its `IsCut` keeps cutting.
- Duplication.Ratio: `deduplicationRatio` is a Java `double`. The model uses an exact rational, so rounding is not captured.
- Repositories.FileChunkRepository.FindByFileIdOrderByPosition: links with equal positions are returned in insertion order (a stable sort). The database's tie order is unspecified.
- `ChunkEntity` (java/src/main/java/com/goofy/GoofyFiles/model/ChunkEntity.java) declares no `compressionType` or `originalSize`. Both services use them, so the record carries them as optional fields.
- Pipeline.StoreThenReconstruct assumes the selected digest is collision-free (`DigestInjective`). The code trusts the hash alone, so a collision would rebuild the wrong bytes. The premise asks for injectivity on all byte strings, which no fixed-length digest (20 or 32 bytes for SHA-1, SHA-256 and BLAKE3) can have. The real digests therefore never meet it; it stands for the weaker fact the store loop actually relies on, that no two different chunk contents it meets share a hash.
- `analyzeFile` reports `duplicatedChunks` as the number of repeated hashes (groups). The store methods report `duplicateChunks` as the number of found chunks (occurrences). Both are modelled as written.
- `Chunk` copies its byte array in and out. The copies are implicit in the value semantics of `seq`, so aliasing is not modelled.
- The unchecked `IllegalArgumentException` of an unknown hashing algorithm cannot happen, because the enumeration is closed.
- Controllers, application bootstrap and the performance tests are not part of this model. The filename rebuild of the download endpoint is the one exception: it is `DownloadName`.
