/**
 * What `finalizeUpload` does with the chunk records of one upload: the repository returns them in
 * ascending chunk index, the service checks their number against the first record's total, and
 * copies their blobs one after the other into the final file, deleting each after it is copied.
 */
module ChunkAssembly {
  import opened Common
  import opened Entities

  predicate SortedByIndex(cs: seq<ChunkRecord>) {
    forall i, j :: 0 <= i < j < |cs| ==> cs[i].chunkIndex <= cs[j].chunkIndex
  }

  predicate StrictlySortedByIndex(cs: seq<ChunkRecord>) {
    forall i, j :: 0 <= i < j < |cs| ==> cs[i].chunkIndex < cs[j].chunkIndex
  }

  /** Inserts `c` after every record whose index is not larger: equal indices keep their arrival order. */
  function Insert(c: ChunkRecord, cs: seq<ChunkRecord>): (r: seq<ChunkRecord>)
    requires SortedByIndex(cs)
    ensures SortedByIndex(r)
    ensures multiset(r) == multiset(cs) + multiset{c}
    ensures |r| == |cs| + 1 && (r[0] == c || (|cs| > 0 && r[0] == cs[0]))
  {
    if cs == [] || c.chunkIndex < cs[0].chunkIndex then [c] + cs
    else
      var rest := Insert(c, cs[1..]);
      assert cs == [cs[0]] + cs[1..];
      assert cs[0].chunkIndex <= rest[0].chunkIndex;
      [cs[0]] + rest
  }

  /** `findByUploadIdOrderByChunkIndexAsc`: the staged records in ascending chunk index, ties in arrival order. */
  function SortByIndex(cs: seq<ChunkRecord>): (r: seq<ChunkRecord>)
    ensures SortedByIndex(r)
    ensures multiset(r) == multiset(cs)
  {
    if cs == [] then []
    else
      assert cs == cs[..|cs| - 1] + [cs[|cs| - 1]];
      Insert(cs[|cs| - 1], SortByIndex(cs[..|cs| - 1]))
  }

  lemma {:induction false} InsertLargest(c: ChunkRecord, cs: seq<ChunkRecord>)
    requires SortedByIndex(cs)
    requires forall j :: 0 <= j < |cs| ==> cs[j].chunkIndex <= c.chunkIndex
    ensures Insert(c, cs) == cs + [c]
  {
    if cs != [] {
      InsertLargest(c, cs[1..]);
      assert [cs[0]] + (cs[1..] + [c]) == cs + [c];
    }
  }

  /** Records that already arrive in index order come back unchanged. */
  lemma {:induction false} SortSorted(cs: seq<ChunkRecord>)
    requires SortedByIndex(cs)
    ensures SortByIndex(cs) == cs
  {
    if cs != [] {
      var init := cs[..|cs| - 1];
      SortSorted(init);
      InsertLargest(cs[|cs| - 1], init);
      assert init + [cs[|cs| - 1]] == cs;
    }
  }

  /** A sorted list with the contents of a strictly sorted list is that list. */
  lemma {:induction false} SortedUnique(a: seq<ChunkRecord>, b: seq<ChunkRecord>)
    requires SortedByIndex(a) && StrictlySortedByIndex(b)
    requires multiset(a) == multiset(b)
    ensures a == b
  {
    if a == [] {
      assert |b| == |multiset(b)| == 0;
    } else {
      HeadsAgree(a, b);
      TailMultiset(a);
      TailMultiset(b);
      SortedUnique(a[1..], b[1..]);
    }
  }

  lemma HeadsAgree(a: seq<ChunkRecord>, b: seq<ChunkRecord>)
    requires SortedByIndex(a) && StrictlySortedByIndex(b)
    requires multiset(a) == multiset(b) && a != []
    ensures b != [] && a[0] == b[0]
  {
    assert a[0] in multiset(b);
    var k :| 0 <= k < |b| && b[k] == a[0];
    assert b[0] in multiset(a);
    var m :| 0 <= m < |a| && a[m] == b[0];
    assert a[0].chunkIndex <= a[m].chunkIndex;
  }

  lemma TailMultiset(a: seq<ChunkRecord>)
    requires a != []
    ensures multiset(a[1..]) == multiset(a) - multiset{a[0]}
  {
    assert a == [a[0]] + a[1..];
  }

  /** Chunks that arrive in any order, one per index, come out of the query in index order. */
  lemma SortOfPermutation(staged: seq<ChunkRecord>, planned: seq<ChunkRecord>)
    requires StrictlySortedByIndex(planned)
    requires multiset(staged) == multiset(planned)
    ensures SortByIndex(staged) == planned
  {
    SortedUnique(SortByIndex(staged), planned);
  }

  /**
   * The completeness check as written: there are records, and their number equals the total
   * the first (lowest-index) record announces. It neither looks at indices nor at the other records' totals.
   */
  predicate CountMatches(cs: seq<ChunkRecord>) {
    |cs| > 0 && |cs| == cs[0].totalChunks
  }

  predicate AllStored(cs: seq<ChunkRecord>, store: map<BlobPath, Bytes>) {
    forall j :: 0 <= j < |cs| ==> cs[j].filePath in store
  }

  /**
   * The j-th chunk can be copied: its blob is stored, and no earlier chunk in the list had the
   * same path (copying that one deleted the blob).
   */
  predicate Copyable(cs: seq<ChunkRecord>, store: map<BlobPath, Bytes>, j: int)
    requires 0 <= j < |cs|
  {
    cs[j].filePath in store && forall i :: 0 <= i < j ==> cs[i].filePath != cs[j].filePath
  }

  function CopyableRun(cs: seq<ChunkRecord>, store: map<BlobPath, Bytes>, from: nat): (k: nat)
    requires from <= |cs|
    ensures from <= k <= |cs|
    ensures forall j :: from <= j < k ==> Copyable(cs, store, j)
    ensures k < |cs| ==> !Copyable(cs, store, k)
    decreases |cs| - from
  {
    if from == |cs| || !Copyable(cs, store, from) then from else CopyableRun(cs, store, from + 1)
  }

  /** Where the copy loop stops: the first chunk that cannot be copied, or |cs| when all can. */
  function FirstUncopyable(cs: seq<ChunkRecord>, store: map<BlobPath, Bytes>): (k: nat)
    ensures k <= |cs|
    ensures forall j :: 0 <= j < k ==> Copyable(cs, store, j)
    ensures k < |cs| ==> !Copyable(cs, store, k)
    ensures AllStored(cs[..k], store)
  {
    var k := CopyableRun(cs, store, 0);
    assert forall j | 0 <= j < k :: Copyable(cs, store, j) && cs[..k][j] == cs[j];
    k
  }

  /** The chunk blobs of `cs`, concatenated in list order. */
  function ConcatBlobs(cs: seq<ChunkRecord>, store: map<BlobPath, Bytes>): (r: Bytes)
    requires AllStored(cs, store)
  {
    if cs == [] then []
    else ConcatBlobs(cs[..|cs| - 1], store) + store[cs[|cs| - 1].filePath]
  }

  /**
   * The blob store after the copy loop: `target` holds the chunks copied before the loop stopped,
   * and those chunks' blobs are deleted.
   */
  function AfterCopy(cs: seq<ChunkRecord>, store: map<BlobPath, Bytes>, target: BlobPath): (r: map<BlobPath, Bytes>) {
    var k := FirstUncopyable(cs, store);
    (store - ChunkPaths(cs[..k]))[target := ConcatBlobs(cs[..k], store)]
  }

  /** The records a complete upload leaves: one per index 0 .. total-1, all with the same name and total. */
  function Planned(uploadId: string, name: string, total: nat): (r: seq<ChunkRecord>)
    ensures |r| == total
    ensures forall i :: 0 <= i < total ==>
      r[i] == ChunkRecord(name, ChunkBlob(uploadId, i, name), i, total)
  {
    seq(total, i => ChunkRecord(name, ChunkBlob(uploadId, i, name), i, total))
  }

  /** A complete upload whose blobs are all stored passes the check and is copied to the end. */
  lemma PlannedAssembles(uploadId: string, name: string, total: nat, store: map<BlobPath, Bytes>)
    requires total > 0
    requires forall i :: 0 <= i < total ==> ChunkBlob(uploadId, i, name) in store
    ensures StrictlySortedByIndex(Planned(uploadId, name, total))
    ensures CountMatches(Planned(uploadId, name, total))
    ensures FirstUncopyable(Planned(uploadId, name, total), store) == total
  {
  }

  /**
   * Re-sending chunk 0 in place of chunk 1 of a two-chunk upload passes the count check, yet the
   * copy loop never gets past the second record: its blob is the one the first copy deleted. When
   * chunk 0's blob is stored, the loop stops exactly there.
   */
  lemma ResentChunkPassesCountCheck(uploadId: string, name: string, store: map<BlobPath, Bytes>)
    ensures var r := ChunkRecord(name, ChunkBlob(uploadId, 0, name), 0, 2);
      && SortByIndex([r, r]) == [r, r]
      && CountMatches([r, r])
      && FirstUncopyable([r, r], store) <= 1
      && (ChunkBlob(uploadId, 0, name) in store ==> FirstUncopyable([r, r], store) == 1)
  {
    var r := ChunkRecord(name, ChunkBlob(uploadId, 0, name), 0, 2);
    SortSorted([r, r]);
    assert !Copyable([r, r], store, 1);
    if ChunkBlob(uploadId, 0, name) in store {
      assert Copyable([r, r], store, 0);
    }
  }
}
