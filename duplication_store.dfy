/**
 * The find-or-insert loop shared by `processAndStoreFile` and
 * `processAndStoreFileCompressed`, as a fold over the chunk list: each chunk
 * is looked up by the selected algorithm's hash; a hit links the file to the
 * existing record, a miss saves a new record first. Counters follow along.
 */
module DuplicationStore {
  import opened Wrappers
  import opened Bytes
  import opened Chunks
  import opened Compression
  import opened Entities
  import opened Repositories
  import opened DuplicationStats

  /** How a new record stores chunk bytes: verbatim, or compressed with a tag. */
  datatype Storage = Plain | Compressed(compression: CompressionType, codecs: Codecs)

  function Stored(storage: Storage, data: seq<byte>): seq<byte>
  {
    match storage
    case Plain => data
    case Compressed(t, codecs) => CompressWith(codecs, data, t)
  }

  function Tag(storage: Storage): Option<string>
  {
    match storage
    case Plain => None
    case Compressed(t, _) => Some(Name(t))
  }

  /** The chunk table, its id generator, and the link table. */
  datatype StoreState = StoreState(records: map<Key, ChunkRecord>, nextChunkId: int, links: seq<FileChunk>)

  /** `duplicateChunks`, `uniqueChunks`, `savedStorage`, `totalCompressedSize`. */
  datatype Tally = Tally(duplicateChunks: int, uniqueChunks: int, savedStorage: int, totalCompressedSize: int)

  datatype Ingest = Ingest(store: StoreState, tally: Tally)

  /** The key a chunk is looked up and stored under. */
  function KeyOf(d: Digests, alg: HashingAlgorithm, c: Chunk): Key
  {
    (alg, HashOf(d, alg, c.data))
  }

  /** One iteration of the store loop. */
  function IngestStep(d: Digests, alg: HashingAlgorithm, storage: Storage, fileId: int, g: Ingest, c: Chunk): Ingest
  {
    var key := KeyOf(d, alg, c);
    var st := g.store;
    if key in st.records then
      var rec := st.records[key];
      Ingest(st.(links := st.links + [FileChunk(fileId, rec, c.position)]),
             g.tally.(duplicateChunks := g.tally.duplicateChunks + 1,
                      savedStorage := g.tally.savedStorage + c.originalSize))
    else
      var stored := Stored(storage, c.data);
      var rec := NewRecord(stored, alg, key.1, Tag(storage)).(id := st.nextChunkId);
      Ingest(StoreState(st.records[key := rec], st.nextChunkId + 1, st.links + [FileChunk(fileId, rec, c.position)]),
             g.tally.(uniqueChunks := g.tally.uniqueChunks + 1,
                      totalCompressedSize := g.tally.totalCompressedSize + (if storage.Compressed? then |stored| else 0)))
  }

  /** The store loop over `chunks`, from `g`. */
  function IngestChunks(d: Digests, alg: HashingAlgorithm, storage: Storage, fileId: int, g: Ingest, chunks: seq<Chunk>): Ingest
  {
    if chunks == [] then g
    else IngestStep(d, alg, storage, fileId, IngestChunks(d, alg, storage, fileId, g, chunks[..|chunks| - 1]), chunks[|chunks| - 1])
  }

  /** The keys of a list of chunks. */
  function KeySet(d: Digests, alg: HashingAlgorithm, chunks: seq<Chunk>): set<Key>
  {
    if chunks == [] then {}
    else KeySet(d, alg, chunks[..|chunks| - 1]) + {KeyOf(d, alg, chunks[|chunks| - 1])}
  }

  /** The key of every chunk of the list is in its key set. */
  lemma {:induction false} KeySetHas(d: Digests, alg: HashingAlgorithm, chunks: seq<Chunk>, k: int)
    requires 0 <= k < |chunks|
    ensures KeyOf(d, alg, chunks[k]) in KeySet(d, alg, chunks)
  {
    var n := |chunks| - 1;
    if k < n {
      assert chunks[..n][k] == chunks[k];
      KeySetHas(d, alg, chunks[..n], k);
    }
  }

  /**
   * The reference decision: chunk k is found when its key was stored before
   * the loop or belongs to an earlier chunk of the same file.
   */
  ghost function Found(d: Digests, alg: HashingAlgorithm, known: set<Key>, chunks: seq<Chunk>): (flags: seq<bool>)
    ensures |flags| == |chunks|
  {
    seq(|chunks|, k requires 0 <= k < |chunks| =>
      KeyOf(d, alg, chunks[k]) in known || KeyOf(d, alg, chunks[k]) in KeySet(d, alg, chunks[..k]))
  }

  /** The sum of the values whose flag is `want`. */
  function SumWhere(flags: seq<bool>, want: bool, values: seq<int>): int
    requires |flags| == |values|
  {
    if flags == [] then 0
    else
      var n := |flags| - 1;
      SumWhere(flags[..n], want, values[..n]) + (if flags[n] == want then values[n] else 0)
  }

  function Ones(n: nat): seq<int>
  {
    seq(n, _ => 1)
  }

  function OriginalSizes(chunks: seq<Chunk>): seq<int>
  {
    seq(|chunks|, k requires 0 <= k < |chunks| => chunks[k].originalSize)
  }

  /** What a new record for each chunk adds to `totalCompressedSize`. */
  function CompressedSizes(storage: Storage, chunks: seq<Chunk>): seq<int>
  {
    seq(|chunks|, k requires 0 <= k < |chunks| => if storage.Compressed? then |Stored(storage, chunks[k].data)| else 0)
  }

  /** One iteration: the chunk's key is in the table afterwards, nothing stored before changes, one link is appended. */
  lemma StepRecords(d: Digests, alg: HashingAlgorithm, storage: Storage, fileId: int, g: Ingest, c: Chunk)
    ensures var g' := IngestStep(d, alg, storage, fileId, g, c);
      var key := KeyOf(d, alg, c);
      && g'.store.records.Keys == g.store.records.Keys + {key}
      && (forall k :: k in g.store.records ==> g'.store.records[k] == g.store.records[k])
      && g'.store.links == g.store.links + [FileChunk(fileId, g'.store.records[key], c.position)]
  {
  }

  /** One iteration: a known key leaves table, id generator and `uniqueChunks` alone; a new one grows each by one. */
  lemma StepGrowth(d: Digests, alg: HashingAlgorithm, storage: Storage, fileId: int, g: Ingest, c: Chunk)
    ensures var g' := IngestStep(d, alg, storage, fileId, g, c);
      var grown := if KeyOf(d, alg, c) in g.store.records then 0 else 1;
      && g'.store.nextChunkId == g.store.nextChunkId + grown
      && g'.tally.uniqueChunks == g.tally.uniqueChunks + grown
      && |g'.store.records| == |g.store.records| + grown
  {
  }

  /** One iteration's counters: a found chunk is a duplicate and saves its size; a new one is unique and adds its stored size when compressing. */
  lemma StepTally(d: Digests, alg: HashingAlgorithm, storage: Storage, fileId: int, g: Ingest, c: Chunk)
    ensures var g' := IngestStep(d, alg, storage, fileId, g, c);
      var found := KeyOf(d, alg, c) in g.store.records;
      && g'.tally.duplicateChunks == g.tally.duplicateChunks + (if found then 1 else 0)
      && g'.tally.uniqueChunks == g.tally.uniqueChunks + (if found then 0 else 1)
      && g'.tally.savedStorage == g.tally.savedStorage + (if found then c.originalSize else 0)
      && g'.tally.totalCompressedSize == g.tally.totalCompressedSize
           + (if found || storage.Plain? then 0 else |Stored(storage, c.data)|)
  {
  }

  /** One iteration that misses saves a record made from the chunk, with the next id. */
  lemma StepNewRecord(d: Digests, alg: HashingAlgorithm, storage: Storage, fileId: int, g: Ingest, c: Chunk)
    requires KeyOf(d, alg, c) !in g.store.records
    ensures var g' := IngestStep(d, alg, storage, fileId, g, c);
      var key := KeyOf(d, alg, c);
      g'.store.records[key] == NewRecord(Stored(storage, c.data), alg, key.1, Tag(storage)).(id := g.store.nextChunkId)
  {
  }

  /** One iteration adds the chunk's key to the table's keys. */
  lemma IngestRecordsStep(d: Digests, alg: HashingAlgorithm, storage: Storage, fileId: int, g0: Ingest, chunks: seq<Chunk>)
    requires chunks != []
    requires var n := |chunks| - 1;
      IngestChunks(d, alg, storage, fileId, g0, chunks[..n]).store.records.Keys == g0.store.records.Keys + KeySet(d, alg, chunks[..n])
    ensures IngestChunks(d, alg, storage, fileId, g0, chunks).store.records.Keys == g0.store.records.Keys + KeySet(d, alg, chunks)
  {
    var n := |chunks| - 1;
    var prior := IngestChunks(d, alg, storage, fileId, g0, chunks[..n]);
    var g := IngestStep(d, alg, storage, fileId, prior, chunks[n]);
    assert IngestChunks(d, alg, storage, fileId, g0, chunks) == g;
    StepRecords(d, alg, storage, fileId, prior, chunks[n]);
    UnionStep(g.store.records.Keys, prior.store.records.Keys, g0.store.records.Keys,
              KeySet(d, alg, chunks[..n]), KeySet(d, alg, chunks), KeyOf(d, alg, chunks[n]));
  }

  /** Set algebra for one step: `after = before + {x}`, `before = base + seen`, `seen' = seen + {x}`. */
  lemma UnionStep<T>(after: set<T>, before: set<T>, base: set<T>, seen: set<T>, seen': set<T>, x: T)
    requires after == before + {x} && before == base + seen && seen' == seen + {x}
    ensures after == base + seen'
  {
  }

  /** The keys of the record table after the loop: the keys stored before plus the keys of the chunks. */
  lemma {:induction false} IngestRecords(d: Digests, alg: HashingAlgorithm, storage: Storage, fileId: int, g0: Ingest, chunks: seq<Chunk>)
    ensures IngestChunks(d, alg, storage, fileId, g0, chunks).store.records.Keys == g0.store.records.Keys + KeySet(d, alg, chunks)
  {
    if chunks != [] {
      IngestRecords(d, alg, storage, fileId, g0, chunks[..|chunks| - 1]);
      IngestRecordsStep(d, alg, storage, fileId, g0, chunks);
    }
  }

  /** The records stored before the loop are untouched by it. */
  lemma {:induction false} IngestUntouched(d: Digests, alg: HashingAlgorithm, storage: Storage, fileId: int, g0: Ingest, chunks: seq<Chunk>)
    ensures var g := IngestChunks(d, alg, storage, fileId, g0, chunks);
      forall key :: key in g0.store.records ==> key in g.store.records && g.store.records[key] == g0.store.records[key]
  {
    if chunks != [] {
      var n := |chunks| - 1;
      var prior := IngestChunks(d, alg, storage, fileId, g0, chunks[..n]);
      assert IngestChunks(d, alg, storage, fileId, g0, chunks) == IngestStep(d, alg, storage, fileId, prior, chunks[n]);
      IngestUntouched(d, alg, storage, fileId, g0, chunks[..n]);
      StepRecords(d, alg, storage, fileId, prior, chunks[n]);
    }
  }

  /** The table and the id generator grow by exactly `uniqueChunks`, one per saved record. */
  lemma {:induction false} IngestGrowth(d: Digests, alg: HashingAlgorithm, storage: Storage, fileId: int, g0: Ingest, chunks: seq<Chunk>)
    ensures var g := IngestChunks(d, alg, storage, fileId, g0, chunks);
      && g.store.nextChunkId == g0.store.nextChunkId + (g.tally.uniqueChunks - g0.tally.uniqueChunks)
      && |g.store.records| == |g0.store.records| + (g.tally.uniqueChunks - g0.tally.uniqueChunks)
  {
    if chunks != [] {
      var n := |chunks| - 1;
      var prior := IngestChunks(d, alg, storage, fileId, g0, chunks[..n]);
      assert IngestChunks(d, alg, storage, fileId, g0, chunks) == IngestStep(d, alg, storage, fileId, prior, chunks[n]);
      IngestGrowth(d, alg, storage, fileId, g0, chunks[..n]);
      StepGrowth(d, alg, storage, fileId, prior, chunks[n]);
    }
  }

  /** The loop appends exactly one link per chunk. */
  lemma {:induction false} IngestLinkCount(d: Digests, alg: HashingAlgorithm, storage: Storage, fileId: int, g0: Ingest, chunks: seq<Chunk>)
    ensures |IngestChunks(d, alg, storage, fileId, g0, chunks).store.links| == |g0.store.links| + |chunks|
  {
    if chunks != [] {
      var n := |chunks| - 1;
      var prior := IngestChunks(d, alg, storage, fileId, g0, chunks[..n]);
      assert IngestChunks(d, alg, storage, fileId, g0, chunks) == IngestStep(d, alg, storage, fileId, prior, chunks[n]);
      IngestLinkCount(d, alg, storage, fileId, g0, chunks[..n]);
      StepRecords(d, alg, storage, fileId, prior, chunks[n]);
    }
  }

  /** The links present before the loop stay in front, unchanged. */
  lemma {:induction false} IngestLinkPrefix(d: Digests, alg: HashingAlgorithm, storage: Storage, fileId: int, g0: Ingest, chunks: seq<Chunk>)
    ensures var g := IngestChunks(d, alg, storage, fileId, g0, chunks);
      |g0.store.links| <= |g.store.links| && g.store.links[..|g0.store.links|] == g0.store.links
  {
    if chunks != [] {
      var n := |chunks| - 1;
      var prior := IngestChunks(d, alg, storage, fileId, g0, chunks[..n]);
      var g := IngestStep(d, alg, storage, fileId, prior, chunks[n]);
      assert IngestChunks(d, alg, storage, fileId, g0, chunks) == g;
      IngestLinkPrefix(d, alg, storage, fileId, g0, chunks[..n]);
      StepRecords(d, alg, storage, fileId, prior, chunks[n]);
      assert g.store.links[..|g0.store.links|] == prior.store.links[..|g0.store.links|];
    }
  }

  /** One iteration keeps every earlier link pointing to the record under its key. */
  lemma StepKeepsLink(d: Digests, alg: HashingAlgorithm, storage: Storage, fileId: int, g: Ingest, c: Chunk, i: int, key: Key, position: int)
    requires 0 <= i < |g.store.links| && key in g.store.records
    requires g.store.links[i] == FileChunk(fileId, g.store.records[key], position)
    ensures var g' := IngestStep(d, alg, storage, fileId, g, c);
      && i < |g'.store.links| && key in g'.store.records
      && g'.store.links[i] == FileChunk(fileId, g'.store.records[key], position)
  {
    StepRecords(d, alg, storage, fileId, g, c);
  }

  /** One iteration's link points to the record under the chunk's key. */
  lemma StepNewLink(d: Digests, alg: HashingAlgorithm, storage: Storage, fileId: int, g: Ingest, c: Chunk)
    ensures var g' := IngestStep(d, alg, storage, fileId, g, c);
      var key := KeyOf(d, alg, c);
      && |g'.store.links| == |g.store.links| + 1 && key in g'.store.records
      && g'.store.links[|g.store.links|] == FileChunk(fileId, g'.store.records[key], c.position)
  {
    StepRecords(d, alg, storage, fileId, g, c);
  }

  /** Link number `|g0.store.links| + k` of `g` is chunk `c`'s, pointing to the record under its key. */
  predicate LinkAt(d: Digests, alg: HashingAlgorithm, fileId: int, g0: Ingest, g: Ingest, c: Chunk, k: int)
  {
    var key := KeyOf(d, alg, c);
    && 0 <= |g0.store.links| + k < |g.store.links|
    && key in g.store.records
    && g.store.links[|g0.store.links| + k] == FileChunk(fileId, g.store.records[key], c.position)
  }

  /** The link of the last chunk. */
  lemma IngestLinkLast(d: Digests, alg: HashingAlgorithm, storage: Storage, fileId: int, g0: Ingest, chunks: seq<Chunk>)
    requires chunks != []
    ensures LinkAt(d, alg, fileId, g0, IngestChunks(d, alg, storage, fileId, g0, chunks), chunks[|chunks| - 1], |chunks| - 1)
  {
    var n := |chunks| - 1;
    var prior := IngestChunks(d, alg, storage, fileId, g0, chunks[..n]);
    assert IngestChunks(d, alg, storage, fileId, g0, chunks) == IngestStep(d, alg, storage, fileId, prior, chunks[n]);
    IngestLinkCount(d, alg, storage, fileId, g0, chunks[..n]);
    StepNewLink(d, alg, storage, fileId, prior, chunks[n]);
  }

  /** The link of an earlier chunk survives the last iteration. */
  lemma IngestLinkKept(d: Digests, alg: HashingAlgorithm, storage: Storage, fileId: int, g0: Ingest, chunks: seq<Chunk>, k: int)
    requires 0 <= k < |chunks| - 1
    requires LinkAt(d, alg, fileId, g0, IngestChunks(d, alg, storage, fileId, g0, chunks[..|chunks| - 1]), chunks[..|chunks| - 1][k], k)
    ensures LinkAt(d, alg, fileId, g0, IngestChunks(d, alg, storage, fileId, g0, chunks), chunks[k], k)
  {
    var n := |chunks| - 1;
    assert chunks[..n][k] == chunks[k];
    var prior := IngestChunks(d, alg, storage, fileId, g0, chunks[..n]);
    assert IngestChunks(d, alg, storage, fileId, g0, chunks) == IngestStep(d, alg, storage, fileId, prior, chunks[n]);
    StepKeepsLink(d, alg, storage, fileId, prior, chunks[n], |g0.store.links| + k, KeyOf(d, alg, chunks[k]), chunks[k].position);
  }

  /** The link appended for chunk k: at the chunk's offset, pointing to the record stored under its key. */
  lemma {:induction false} IngestLinkAt(d: Digests, alg: HashingAlgorithm, storage: Storage, fileId: int, g0: Ingest, chunks: seq<Chunk>, k: int)
    requires 0 <= k < |chunks|
    ensures LinkAt(d, alg, fileId, g0, IngestChunks(d, alg, storage, fileId, g0, chunks), chunks[k], k)
  {
    var n := |chunks| - 1;
    if k < n {
      IngestLinkAt(d, alg, storage, fileId, g0, chunks[..n], k);
      IngestLinkKept(d, alg, storage, fileId, g0, chunks, k);
    } else {
      IngestLinkLast(d, alg, storage, fileId, g0, chunks);
    }
  }

  /**
   * One link per chunk is appended after the existing ones, in chunk order,
   * at the chunk's offset, pointing to the record stored under the chunk's key.
   */
  lemma IngestLinks(d: Digests, alg: HashingAlgorithm, storage: Storage, fileId: int, g0: Ingest, chunks: seq<Chunk>)
    ensures var g := IngestChunks(d, alg, storage, fileId, g0, chunks);
      && |g.store.links| == |g0.store.links| + |chunks|
      && g.store.links[..|g0.store.links|] == g0.store.links
      && forall k :: 0 <= k < |chunks| ==>
          && KeyOf(d, alg, chunks[k]) in g.store.records
          && g.store.links[|g0.store.links| + k] == FileChunk(fileId, g.store.records[KeyOf(d, alg, chunks[k])], chunks[k].position)
  {
    IngestLinkCount(d, alg, storage, fileId, g0, chunks);
    IngestLinkPrefix(d, alg, storage, fileId, g0, chunks);
    forall k | 0 <= k < |chunks|
      ensures KeyOf(d, alg, chunks[k]) in IngestChunks(d, alg, storage, fileId, g0, chunks).store.records
      ensures var g := IngestChunks(d, alg, storage, fileId, g0, chunks);
        g.store.links[|g0.store.links| + k] == FileChunk(fileId, g.store.records[KeyOf(d, alg, chunks[k])], chunks[k].position)
    {
      IngestLinkAt(d, alg, storage, fileId, g0, chunks, k);
    }
  }

  /** Links saved for a saved file keep every link belonging to a saved file. */
  lemma IngestLinksOfSavedFiles(d: Digests, alg: HashingAlgorithm, storage: Storage, fileId: int, g0: Ingest, chunks: seq<Chunk>, files: map<int, FileEntity>)
    requires LinksOfSavedFiles(g0.store.links, files) && fileId in files
    ensures LinksOfSavedFiles(IngestChunks(d, alg, storage, fileId, g0, chunks).store.links, files)
  {
    var links := IngestChunks(d, alg, storage, fileId, g0, chunks).store.links;
    var m := |g0.store.links|;
    IngestLinkCount(d, alg, storage, fileId, g0, chunks);
    IngestLinkPrefix(d, alg, storage, fileId, g0, chunks);
    forall i | 0 <= i < |links| ensures links[i].fileId in files {
      if i < m {
        assert links[i] == links[..m][i];
      } else {
        IngestLinkAt(d, alg, storage, fileId, g0, chunks, i - m);
      }
    }
  }

  /** Found flags of a prefix are the prefix of the flags. */
  lemma FoundPrefix(d: Digests, alg: HashingAlgorithm, known: set<Key>, chunks: seq<Chunk>, n: int)
    requires 0 <= n <= |chunks|
    ensures Found(d, alg, known, chunks[..n]) == Found(d, alg, known, chunks)[..n]
  {
    forall k | 0 <= k < n
      ensures Found(d, alg, known, chunks[..n])[k] == Found(d, alg, known, chunks)[k]
    {
      assert chunks[..n][..k] == chunks[..k];
    }
  }

  /** The flags and values of the loop over `chunks[..n + 1]` are those of `chunks[..n]` and one more. */
  lemma TallyPrefixes(d: Digests, alg: HashingAlgorithm, storage: Storage, known: set<Key>, chunks: seq<Chunk>, n: int)
    requires 0 <= n < |chunks|
    ensures Found(d, alg, known, chunks)[..n] == Found(d, alg, known, chunks[..n])
    ensures Ones(n + 1)[..n] == Ones(n)
    ensures OriginalSizes(chunks)[..n] == OriginalSizes(chunks[..n])
    ensures CompressedSizes(storage, chunks)[..n] == CompressedSizes(storage, chunks[..n])
  {
    FoundPrefix(d, alg, known, chunks, n);
  }

  /**
   * The counters against the reference decision: `duplicateChunks` counts
   * the found chunks and `uniqueChunks` the others.
   */
  lemma {:induction false} IngestCounts(d: Digests, alg: HashingAlgorithm, storage: Storage, fileId: int, g0: Ingest, chunks: seq<Chunk>)
    ensures var g := IngestChunks(d, alg, storage, fileId, g0, chunks);
      var found := Found(d, alg, g0.store.records.Keys, chunks);
      && g.tally.duplicateChunks == g0.tally.duplicateChunks + SumWhere(found, true, Ones(|chunks|))
      && g.tally.uniqueChunks == g0.tally.uniqueChunks + SumWhere(found, false, Ones(|chunks|))
  {
    if chunks != [] {
      var n := |chunks| - 1;
      var prior := IngestChunks(d, alg, storage, fileId, g0, chunks[..n]);
      assert IngestChunks(d, alg, storage, fileId, g0, chunks) == IngestStep(d, alg, storage, fileId, prior, chunks[n]);
      IngestCounts(d, alg, storage, fileId, g0, chunks[..n]);
      IngestRecords(d, alg, storage, fileId, g0, chunks[..n]);
      StepTally(d, alg, storage, fileId, prior, chunks[n]);
      TallyPrefixes(d, alg, storage, g0.store.records.Keys, chunks, n);
    }
  }

  /** `savedStorage` sums the found chunks' sizes; `totalCompressedSize` the stored sizes of the new records. */
  lemma {:induction false} IngestSizes(d: Digests, alg: HashingAlgorithm, storage: Storage, fileId: int, g0: Ingest, chunks: seq<Chunk>)
    ensures var g := IngestChunks(d, alg, storage, fileId, g0, chunks);
      var found := Found(d, alg, g0.store.records.Keys, chunks);
      && g.tally.savedStorage == g0.tally.savedStorage + SumWhere(found, true, OriginalSizes(chunks))
      && g.tally.totalCompressedSize == g0.tally.totalCompressedSize + SumWhere(found, false, CompressedSizes(storage, chunks))
  {
    if chunks != [] {
      var n := |chunks| - 1;
      var prior := IngestChunks(d, alg, storage, fileId, g0, chunks[..n]);
      assert IngestChunks(d, alg, storage, fileId, g0, chunks) == IngestStep(d, alg, storage, fileId, prior, chunks[n]);
      IngestSizes(d, alg, storage, fileId, g0, chunks[..n]);
      IngestRecords(d, alg, storage, fileId, g0, chunks[..n]);
      StepTally(d, alg, storage, fileId, prior, chunks[n]);
      TallyPrefixes(d, alg, storage, g0.store.records.Keys, chunks, n);
    }
  }

  /** Each chunk is counted exactly once, as a duplicate or as unique. */
  lemma {:induction false} SumWhereSplit(flags: seq<bool>, values: seq<int>)
    requires |flags| == |values|
    ensures SumWhere(flags, true, values) + SumWhere(flags, false, values) == Sum(values)
  {
    if flags != [] {
      SumWhereSplit(flags[..|flags| - 1], values[..|values| - 1]);
    }
  }

  function Sum(values: seq<int>): int
  {
    if values == [] then 0 else Sum(values[..|values| - 1]) + values[|values| - 1]
  }

  lemma {:induction false} SumOnes(n: nat)
    ensures Sum(Ones(n)) == n
  {
    if n > 0 {
      assert Ones(n)[..n - 1] == Ones(n - 1);
      SumOnes(n - 1);
    }
  }

  /**
   * All counters together: every chunk is either a duplicate or unique, and
   * the sizes are summed over the matching chunks.
   */
  lemma IngestTally(d: Digests, alg: HashingAlgorithm, storage: Storage, fileId: int, g0: Ingest, chunks: seq<Chunk>)
    ensures var g := IngestChunks(d, alg, storage, fileId, g0, chunks);
      var found := Found(d, alg, g0.store.records.Keys, chunks);
      && g.tally.duplicateChunks == g0.tally.duplicateChunks + SumWhere(found, true, Ones(|chunks|))
      && g.tally.uniqueChunks == g0.tally.uniqueChunks + SumWhere(found, false, Ones(|chunks|))
      && g.tally.duplicateChunks + g.tally.uniqueChunks == g0.tally.duplicateChunks + g0.tally.uniqueChunks + |chunks|
      && g.tally.savedStorage == g0.tally.savedStorage + SumWhere(found, true, OriginalSizes(chunks))
      && g.tally.totalCompressedSize == g0.tally.totalCompressedSize + SumWhere(found, false, CompressedSizes(storage, chunks))
  {
    IngestCounts(d, alg, storage, fileId, g0, chunks);
    IngestSizes(d, alg, storage, fileId, g0, chunks);
    SumWhereSplit(Found(d, alg, g0.store.records.Keys, chunks), Ones(|chunks|));
    SumOnes(|chunks|);
  }

  /**
   * Chunks whose keys are all stored already change neither the record
   * table nor the id generator nor `uniqueChunks`: all of them are duplicates.
   */
  lemma {:induction false} IngestKnownChunks(d: Digests, alg: HashingAlgorithm, storage: Storage, fileId: int, g0: Ingest, chunks: seq<Chunk>)
    requires forall k :: 0 <= k < |chunks| ==> KeyOf(d, alg, chunks[k]) in g0.store.records
    ensures var g := IngestChunks(d, alg, storage, fileId, g0, chunks);
      && g.store.records == g0.store.records
      && g.store.nextChunkId == g0.store.nextChunkId
      && g.tally.uniqueChunks == g0.tally.uniqueChunks
      && g.tally.duplicateChunks == g0.tally.duplicateChunks + |chunks|
  {
    if chunks != [] {
      var n := |chunks| - 1;
      var prior := IngestChunks(d, alg, storage, fileId, g0, chunks[..n]);
      assert IngestChunks(d, alg, storage, fileId, g0, chunks) == IngestStep(d, alg, storage, fileId, prior, chunks[n]);
      forall k | 0 <= k < n ensures KeyOf(d, alg, chunks[..n][k]) in g0.store.records {
        assert chunks[..n][k] == chunks[k];
      }
      IngestKnownChunks(d, alg, storage, fileId, g0, chunks[..n]);
    }
  }

  /** Storing the same chunks a second time saves no new record. */
  lemma IngestTwice(d: Digests, alg: HashingAlgorithm, storage: Storage, fileId: int, fileId2: int, g0: Ingest, chunks: seq<Chunk>)
    ensures var g1 := IngestChunks(d, alg, storage, fileId, g0, chunks);
      var g2 := IngestChunks(d, alg, storage, fileId2, g1, chunks);
      && g2.store.records == g1.store.records
      && g2.store.nextChunkId == g1.store.nextChunkId
      && g2.tally.uniqueChunks == g1.tally.uniqueChunks
      && g2.tally.duplicateChunks == g1.tally.duplicateChunks + |chunks|
  {
    var g1 := IngestChunks(d, alg, storage, fileId, g0, chunks);
    IngestRecords(d, alg, storage, fileId, g0, chunks);
    forall k | 0 <= k < |chunks| ensures KeyOf(d, alg, chunks[k]) in g1.store.records {
      KeySetHas(d, alg, chunks, k);
    }
    IngestKnownChunks(d, alg, storage, fileId2, g1, chunks);
  }

  /**
   * Every record the loop saves carries the storage mode's compression tag,
   * no original size, and its hash in the selected algorithm's column only.
   */
  lemma {:induction false} IngestNewRecords(d: Digests, alg: HashingAlgorithm, storage: Storage, fileId: int, g0: Ingest, chunks: seq<Chunk>)
    ensures var g := IngestChunks(d, alg, storage, fileId, g0, chunks);
      forall key :: key in g.store.records && key !in g0.store.records ==>
        && g.store.records[key].compressionType == Tag(storage)
        && g.store.records[key].originalSize == None
        && (forall a :: HashColumn(g.store.records[key], a) == (if a == alg then Some(key.1) else None))
  {
    if chunks != [] {
      var n := |chunks| - 1;
      var prior := IngestChunks(d, alg, storage, fileId, g0, chunks[..n]);
      assert IngestChunks(d, alg, storage, fileId, g0, chunks) == IngestStep(d, alg, storage, fileId, prior, chunks[n]);
      IngestNewRecords(d, alg, storage, fileId, g0, chunks[..n]);
      StepRecords(d, alg, storage, fileId, prior, chunks[n]);
      if KeyOf(d, alg, chunks[n]) !in prior.store.records {
        StepNewRecord(d, alg, storage, fileId, prior, chunks[n]);
      }
    }
  }

  /** Every record the loop saves was made from one of the chunks with its key, stored as the mode stores it. */
  lemma {:induction false} IngestNewRecordData(d: Digests, alg: HashingAlgorithm, storage: Storage, fileId: int, g0: Ingest, chunks: seq<Chunk>)
    ensures var g := IngestChunks(d, alg, storage, fileId, g0, chunks);
      forall key :: key in g.store.records && key !in g0.store.records ==>
        exists j :: 0 <= j < |chunks| && KeyOf(d, alg, chunks[j]) == key && g.store.records[key].data == Stored(storage, chunks[j].data)
  {
    if chunks != [] {
      var n := |chunks| - 1;
      var prior := IngestChunks(d, alg, storage, fileId, g0, chunks[..n]);
      var g := IngestStep(d, alg, storage, fileId, prior, chunks[n]);
      assert IngestChunks(d, alg, storage, fileId, g0, chunks) == g;
      IngestNewRecordData(d, alg, storage, fileId, g0, chunks[..n]);
      StepRecords(d, alg, storage, fileId, prior, chunks[n]);
      forall key | key in g.store.records && key !in g0.store.records
        ensures exists j :: 0 <= j < |chunks| && KeyOf(d, alg, chunks[j]) == key && g.store.records[key].data == Stored(storage, chunks[j].data)
      {
        if key in prior.store.records {
          var j :| 0 <= j < n && KeyOf(d, alg, chunks[..n][j]) == key && prior.store.records[key].data == Stored(storage, chunks[..n][j].data);
          assert chunks[..n][j] == chunks[j];
        } else {
          assert KeyOf(d, alg, chunks[n]) == key;
          StepNewRecord(d, alg, storage, fileId, prior, chunks[n]);
        }
      }
    }
  }
}
