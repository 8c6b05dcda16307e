/**
 * The pure parts of DuplicationService: the per-algorithm chunk hash, the
 * file-name split, and the statistics `analyzeFile` reports.
 */
module DuplicationStats {
  import opened Wrappers
  import opened Bytes
  import opened Hex
  import opened Entities

  /** The three message digests (Guava SHA-1 and SHA-256, Commons Codec BLAKE3). */
  datatype Digests = Digests(sha1: seq<byte> -> seq<byte>, sha256: seq<byte> -> seq<byte>, blake3: seq<byte> -> seq<byte>)

  function Digest(d: Digests, alg: HashingAlgorithm, data: seq<byte>): seq<byte>
  {
    match alg
    case SHA1 => d.sha1(data)
    case SHA256 => d.sha256(data)
    case BLAKE3 => d.blake3(data)
  }

  /** `calculateHash`: the digest as lowercase hex (HashCode.toString and Hex.encodeHexString agree). */
  function HashOf(d: Digests, alg: HashingAlgorithm, data: seq<byte>): string
  {
    HexEncode(Digest(d, alg, data))
  }

  /** The hash has two characters per digest byte and decodes back to the digest. */
  lemma HashOfDecodes(d: Digests, alg: HashingAlgorithm, data: seq<byte>)
    ensures |HashOf(d, alg, data)| == 2 * |Digest(d, alg, data)|
    ensures HexDecode(HashOf(d, alg, data)) == Some(Digest(d, alg, data))
  {
    HexRoundTrip(Digest(d, alg, data));
  }

  /** No two byte strings share a digest (collision resistance, taken as exact). */
  ghost predicate DigestInjective(d: Digests, alg: HashingAlgorithm)
  {
    forall x: seq<byte>, y: seq<byte> :: Digest(d, alg, x) == Digest(d, alg, y) ==> x == y
  }

  /** With an injective digest, equal hashes mean equal data. */
  lemma HashOfInjective(d: Digests, alg: HashingAlgorithm, x: seq<byte>, y: seq<byte>)
    requires DigestInjective(d, alg)
    ensures HashOf(d, alg, x) == HashOf(d, alg, y) <==> x == y
  {
    if HashOf(d, alg, x) == HashOf(d, alg, y) {
      HexEncodeInjective(Digest(d, alg, x), Digest(d, alg, y));
    }
  }

  /** `s.lastIndexOf(c)`. */
  function LastIndexOf(s: string, c: char): (r: int)
    ensures -1 <= r < |s|
    ensures r >= 0 ==> s[r] == c
    ensures forall j :: r < j < |s| ==> s[j] != c
  {
    if s == [] then -1
    else if s[|s| - 1] == c then |s| - 1
    else LastIndexOf(s[..|s| - 1], c)
  }

  /** The name and extension stored for an uploaded file name. */
  function SplitFileName(fileName: string): (string, string)
  {
    var lastDotIndex := LastIndexOf(fileName, '.');
    if lastDotIndex > 0 then (fileName[..lastDotIndex], fileName[lastDotIndex + 1..])
    else (fileName, "")
  }

  /** The download name rebuilt from name and extension (FileController.downloadFile). */
  function DownloadName(name: string, extension: string): string
  {
    if extension != "" then name + "." + extension else name
  }

  /**
   * The extension holds no dot; a non-empty one is exactly the text after a
   * dot that is not the first character, with the name before it; and the
   * download name gives back the uploaded one unless that ends in a dot
   * after its first character.
   */
  lemma SplitFileNameRebuild(fileName: string)
    ensures var (name, extension) := SplitFileName(fileName);
      && '.' !in extension
      && (extension != "" ==> exists i :: 0 < i < |fileName| - 1 && fileName[i] == '.' && name == fileName[..i] && extension == fileName[i + 1..])
      && (DownloadName(name, extension) == fileName <==> !(|fileName| >= 2 && fileName[|fileName| - 1] == '.'))
  {
    var (name, extension) := SplitFileName(fileName);
    var i := LastIndexOf(fileName, '.');
    if i > 0 {
      assert forall j :: 0 <= j < |extension| ==> extension[j] == fileName[i + 1 + j];
      if extension != "" {
        assert name + "." + extension == fileName;
      } else {
        assert |name| < |fileName|;
      }
    }
  }

  /** `duplicates.merge(hash, 1, Integer::sum)`. */
  function Merge(counts: map<string, int>, hash: string): map<string, int>
  {
    counts[hash := if hash in counts then counts[hash] + 1 else 1]
  }

  /** The counting map after merging every hash in order. */
  function Counts(hashes: seq<string>): map<string, int>
  {
    if hashes == [] then map[] else Merge(Counts(hashes[..|hashes| - 1]), hashes[|hashes| - 1])
  }

  /** Counting one more hash merges it into the counts of the ones before. */
  lemma CountsStep(hashes: seq<string>, i: int)
    requires 0 <= i < |hashes|
    ensures Counts(hashes[..i + 1]) == Merge(Counts(hashes[..i]), hashes[i])
  {
    assert hashes[..i + 1][..i] == hashes[..i];
  }

  /** Each hash's count is its number of occurrences; exactly the hashes that occur are keys. */
  lemma {:induction false} CountsOccurrences(hashes: seq<string>)
    ensures forall h :: h in Counts(hashes) <==> h in hashes
    ensures forall h :: h in Counts(hashes) ==> Counts(hashes)[h] == multiset(hashes)[h]
  {
    if hashes != [] {
      var init, last := hashes[..|hashes| - 1], hashes[|hashes| - 1];
      CountsOccurrences(init);
      assert hashes == init + [last];
      assert multiset(hashes) == multiset(init) + multiset{last};
    }
  }

  /** The sum of a map's values. */
  ghost function SumValues(m: map<string, int>): int
    decreases |m|
  {
    if m == map[] then 0
    else
      var k :| k in m;
      m[k] + SumValues(m - {k})
  }

  /** The sum does not depend on which key is taken out first. */
  lemma {:induction false} SumValuesRemove(m: map<string, int>, k: string)
    requires k in m
    ensures SumValues(m) == m[k] + SumValues(m - {k})
    decreases |m|
  {
    var j :| j in m && SumValues(m) == m[j] + SumValues(m - {j});
    if j != k {
      assert (m - {j}) - {k} == (m - {k}) - {j};
      SumValuesRemove(m - {j}, k);
      SumValuesRemove(m - {k}, j);
    }
  }

  lemma SumValuesUpdate(m: map<string, int>, k: string, v: int)
    ensures SumValues(m[k := v]) == SumValues(m) - (if k in m then m[k] else 0) + v
  {
    SumValuesRemove(m[k := v], k);
    assert m[k := v] - {k} == m - {k};
    if k in m {
      SumValuesRemove(m, k);
    } else {
      assert m - {k} == m;
    }
  }

  /** Values of at least one sum to at least the number of keys. */
  lemma {:induction false} SumValuesAtLeastSize(m: map<string, int>)
    requires forall k :: k in m ==> m[k] >= 1
    ensures SumValues(m) >= |m|
    decreases |m|
  {
    if m != map[] {
      var k :| k in m;
      SumValuesRemove(m, k);
      SumValuesAtLeastSize(m - {k});
    }
  }

  /** The per-hash counts add up to the number of hashes merged. */
  lemma {:induction false} CountsSum(hashes: seq<string>)
    ensures SumValues(Counts(hashes)) == |hashes|
  {
    if hashes != [] {
      var init := hashes[..|hashes| - 1];
      CountsSum(init);
      SumValuesUpdate(Counts(init), hashes[|hashes| - 1], if hashes[|hashes| - 1] in Counts(init) then Counts(init)[hashes[|hashes| - 1]] + 1 else 1);
    }
  }

  lemma {:induction false} SubsetSize(a: set<string>, b: set<string>)
    requires a <= b
    ensures |a| <= |b|
    decreases |b|
  {
    if a != {} {
      var x :| x in a;
      SubsetSize(a - {x}, b - {x});
    }
  }

  /** The statistics `analyzeFile` returns. */
  datatype Analysis = Analysis(
    fileName: string,
    totalChunks: int,
    uniqueChunks: int,
    duplicatedChunks: int,
    algorithm: string,
    duplicateDetails: map<string, int>)

  /** The hashes with a count above one, with their counts. */
  function DuplicateDetails(counts: map<string, int>): map<string, int>
  {
    map h | h in counts && counts[h] > 1 :: counts[h]
  }

  /** The statistics of one file's chunk hashes, in chunk order. */
  function Analyze(fileName: string, alg: HashingAlgorithm, hashes: seq<string>): Analysis
  {
    var counts := Counts(hashes);
    var details := DuplicateDetails(counts);
    Analysis(fileName, |hashes|, |counts|, |details|, AlgorithmName(alg), details)
  }

  /**
   * The counts add up to `totalChunks`; `uniqueChunks` is the number of
   * distinct hashes; `duplicateDetails` holds exactly the hashes occurring
   * more than once, each with its number of occurrences; and
   * `duplicatedChunks` counts those hashes (groups, not occurrences).
   */
  lemma AnalyzeStatistics(fileName: string, alg: HashingAlgorithm, hashes: seq<string>)
    ensures var a := Analyze(fileName, alg, hashes);
      && a.totalChunks == |hashes| == SumValues(Counts(hashes))
      && a.uniqueChunks == |set h | h in hashes|
      && (forall h :: h in a.duplicateDetails <==> multiset(hashes)[h] > 1)
      && (forall h :: h in a.duplicateDetails ==> a.duplicateDetails[h] == multiset(hashes)[h])
      && a.duplicatedChunks == |a.duplicateDetails.Keys|
      && a.duplicatedChunks <= a.uniqueChunks <= a.totalChunks
  {
    var counts := Counts(hashes);
    CountsOccurrences(hashes);
    CountsSum(hashes);
    assert counts.Keys == set h | h in hashes;
    forall h | h in counts ensures counts[h] >= 1 {
      assert h in multiset(hashes);
    }
    SumValuesAtLeastSize(counts);
    SubsetSize(DuplicateDetails(counts).Keys, counts.Keys);
  }
}
