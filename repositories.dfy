/**
 * The three repositories as in-memory tables: files by generated id, chunk
 * records by (algorithm, hash), and the append-only list of file-chunk links.
 */
module Repositories {
  import opened Wrappers
  import opened Entities

  class FileRepository {
    var files: map<int, FileEntity>
    var nextId: int

    ghost predicate Valid()
      reads this
    {
      forall id :: id in files ==> id < nextId && files[id].id == id
    }

    constructor ()
      ensures Valid() && files == map[] && nextId == 1
    {
      files := map[];
      nextId := 1;
    }

    /** `save` of a new entity: it gets the next generated id. */
    method Save(file: FileEntity) returns (saved: FileEntity)
      requires Valid()
      modifies this
      ensures Valid()
      ensures saved == file.(id := old(nextId)) && old(nextId) !in old(files)
      ensures files == old(files)[saved.id := saved] && nextId == old(nextId) + 1
    {
      saved := file.(id := nextId);
      files := files[nextId := saved];
      nextId := nextId + 1;
    }

    /** `findById`. */
    function FindById(id: int): (r: Option<FileEntity>)
      reads this
      ensures r.Some? <==> id in files
      ensures r.Some? ==> r.value == files[id]
    {
      if id in files then Some(files[id]) else None
    }
  }

  /** The key a chunk record is found under: the algorithm and the hash in its column. */
  type Key = (HashingAlgorithm, string)

  class ChunkRepository {
    var records: map<Key, ChunkRecord>
    var nextId: int

    constructor ()
      ensures records == map[] && nextId == 1
    {
      records := map[];
      nextId := 1;
    }

    /** `findByHashSha1`, `findByHashSha256` or `findByHashBlake3`, as `alg` selects. */
    function FindByHash(alg: HashingAlgorithm, hash: string): (r: Option<ChunkRecord>)
      reads this
      ensures r.Some? <==> (alg, hash) in records
      ensures r.Some? ==> r.value == records[(alg, hash)]
    {
      if (alg, hash) in records then Some(records[(alg, hash)]) else None
    }

    /** `save` of a new record carrying `hash` in the column of `alg`: it gets the next id. */
    method Save(alg: HashingAlgorithm, hash: string, record: ChunkRecord) returns (saved: ChunkRecord)
      modifies this
      ensures saved == record.(id := old(nextId))
      ensures records == old(records)[(alg, hash) := saved] && nextId == old(nextId) + 1
    {
      saved := record.(id := nextId);
      records := records[(alg, hash) := saved];
      nextId := nextId + 1;
    }
  }

  /** The links of one file, in the order they were saved. */
  function LinksOf(links: seq<FileChunk>, fileId: int): (r: seq<FileChunk>)
    ensures forall l :: l in r <==> l in links && l.fileId == fileId
  {
    if links == [] then []
    else
      var prior := LinksOf(links[..|links| - 1], fileId);
      var last := links[|links| - 1];
      assert links == links[..|links| - 1] + [last];
      if last.fileId == fileId then prior + [last] else prior
  }

  lemma {:induction false} LinksOfAppend(a: seq<FileChunk>, b: seq<FileChunk>, fileId: int)
    ensures LinksOf(a + b, fileId) == LinksOf(a, fileId) + LinksOf(b, fileId)
    decreases |b|
  {
    if b == [] {
      assert a + b == a;
    } else {
      var b' := b[..|b| - 1];
      assert (a + b)[..|a + b| - 1] == a + b';
      assert b[..|b| - 1] == b';
      LinksOfAppend(a, b', fileId);
    }
  }

  /** Every link already belongs to `fileId`: filtering keeps them all, in order. */
  lemma {:induction false} LinksOfAllOwned(links: seq<FileChunk>, fileId: int)
    requires forall i :: 0 <= i < |links| ==> links[i].fileId == fileId
    ensures LinksOf(links, fileId) == links
  {
    if links != [] {
      LinksOfAllOwned(links[..|links| - 1], fileId);
      assert links == links[..|links| - 1] + [links[|links| - 1]];
    }
  }

  /** No link belongs to `fileId`: filtering keeps none. */
  lemma LinksOfNoneOwned(links: seq<FileChunk>, fileId: int)
    requires forall i :: 0 <= i < |links| ==> links[i].fileId != fileId
    ensures LinksOf(links, fileId) == []
  {
  }

  ghost predicate SortedByPosition(ls: seq<FileChunk>)
  {
    forall i, j :: 0 <= i < j < |ls| ==> ls[i].position <= ls[j].position
  }

  /** Inserts `x` after every element whose position is at most its own. */
  function InsertByPosition(s: seq<FileChunk>, x: FileChunk): (r: seq<FileChunk>)
    ensures multiset(r) == multiset(s) + multiset{x}
  {
    if s == [] then [x]
    else if s[|s| - 1].position <= x.position then s + [x]
    else
      assert s == s[..|s| - 1] + [s[|s| - 1]];
      InsertByPosition(s[..|s| - 1], x) + [s[|s| - 1]]
  }

  /** The order of `findByFileIdOrderByPosition`: a stable sort by position. */
  function SortByPosition(ls: seq<FileChunk>): (r: seq<FileChunk>)
    ensures multiset(r) == multiset(ls)
  {
    if ls == [] then []
    else
      assert ls == ls[..|ls| - 1] + [ls[|ls| - 1]];
      InsertByPosition(SortByPosition(ls[..|ls| - 1]), ls[|ls| - 1])
  }

  lemma {:induction false} InsertSorted(s: seq<FileChunk>, x: FileChunk)
    requires SortedByPosition(s)
    ensures SortedByPosition(InsertByPosition(s, x))
    decreases |s|
  {
    if s == [] {
    } else if s[|s| - 1].position <= x.position {
      SortedSnoc(s, x);
    } else {
      var init, last := s[..|s| - 1], s[|s| - 1];
      SortedInit(s);
      InsertSorted(init, x);
      var r := InsertByPosition(init, x);
      assert InsertByPosition(s, x) == r + [last];
      forall i | 0 <= i < |r|
        ensures r[i].position <= last.position
      {
        assert r[i] in multiset(init) + multiset{x};
        if r[i] in init {
          var k :| 0 <= k < |init| && init[k] == r[i];
          assert s[k] == r[i];
        }
      }
      SortedSnoc(r, last);
    }
  }

  /** A link no earlier than every link of an ordered list extends it in order. */
  lemma SortedSnoc(s: seq<FileChunk>, x: FileChunk)
    requires SortedByPosition(s)
    requires forall i :: 0 <= i < |s| ==> s[i].position <= x.position
    ensures SortedByPosition(s + [x])
  {
    var r := s + [x];
    forall i, j | 0 <= i < j < |r| ensures r[i].position <= r[j].position {
      assert r[i] == s[i];
    }
  }

  /** The sort's output is ordered by position. */
  lemma {:induction false} SortByPositionSorted(ls: seq<FileChunk>)
    ensures SortedByPosition(SortByPosition(ls))
  {
    if ls != [] {
      SortByPositionSorted(ls[..|ls| - 1]);
      InsertSorted(SortByPosition(ls[..|ls| - 1]), ls[|ls| - 1]);
    }
  }

  /** Links already in position order come back unchanged. */
  lemma {:induction false} SortByPositionSortedInput(ls: seq<FileChunk>)
    requires SortedByPosition(ls)
    ensures SortByPosition(ls) == ls
  {
    if ls != [] {
      var init, last := ls[..|ls| - 1], ls[|ls| - 1];
      assert ls == init + [last];
      SortedInit(ls);
      SortByPositionSortedInput(init);
      if init != [] {
        assert init[|init| - 1] == ls[|ls| - 2];
      }
      assert InsertByPosition(init, last) == init + [last];
    }
  }

  lemma SortedInit(ls: seq<FileChunk>)
    requires ls != [] && SortedByPosition(ls)
    ensures SortedByPosition(ls[..|ls| - 1])
  {
    var init := ls[..|ls| - 1];
    forall i, j | 0 <= i < j < |init| ensures init[i].position <= init[j].position {
      assert init[i] == ls[i] && init[j] == ls[j];
    }
  }

  /** Every link belongs to a file that has been saved. */
  ghost predicate LinksOfSavedFiles(links: seq<FileChunk>, files: map<int, FileEntity>)
  {
    forall i :: 0 <= i < |links| ==> links[i].fileId in files
  }

  /** The id the file table hands out next has no link yet: links are only saved for saved files. */
  lemma FreshIdHasNoLinks(links: seq<FileChunk>, files: map<int, FileEntity>, nextId: int)
    requires LinksOfSavedFiles(links, files)
    requires forall id :: id in files ==> id < nextId
    ensures forall i :: 0 <= i < |links| ==> links[i].fileId != nextId
  {
    forall i | 0 <= i < |links| ensures links[i].fileId != nextId {
      assert links[i].fileId in files;
    }
  }

  class FileChunkRepository {
    var links: seq<FileChunk>

    constructor ()
      ensures links == []
    {
      links := [];
    }

    /** `save` of a new link: appended after all earlier ones. */
    method Save(link: FileChunk)
      modifies this
      ensures links == old(links) + [link]
    {
      links := links + [link];
    }

    /** `findByFileIdOrderByPosition`: exactly the file's links, ordered by position. */
    function FindByFileIdOrderByPosition(fileId: int): (r: seq<FileChunk>)
      reads this
      ensures multiset(r) == multiset(LinksOf(links, fileId))
      ensures forall l :: l in r <==> l in links && l.fileId == fileId
    {
      var owned := LinksOf(links, fileId);
      var r := SortByPosition(owned);
      assert forall l :: l in r <==> l in multiset(r);
      assert forall l :: l in owned <==> l in multiset(owned);
      r
    }
  }
}
