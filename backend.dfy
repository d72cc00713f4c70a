/**
 * The file service: bundles keyed by their one-time code, the file table, the chunk records of
 * uploads in progress, and the blob store. Each public operation is specified by a function from
 * the stores before to its result and the stores after, and implemented by a method of the class.
 */
module Backend {
  import opened Common
  import opened Entities
  import opened ChunkAssembly
  import opened Archive
  import Otp

  /** The four stores of the service, as one value. */
  datatype Snapshot = Snapshot(
    bundles: map<string, Bundle>,
    files: seq<FileRecord>,
    chunks: map<string, seq<ChunkRecord>>,
    blobs: map<BlobPath, Bytes>)

  /**
   * Codes are keys of six decimal digits, every file record references a bundle, and chunk records
   * point into the chunk directory.
   */
  ghost predicate ValidState(s: Snapshot) {
    && (forall otp :: otp in s.bundles ==> s.bundles[otp].otp == otp && |otp| == Otp.Length && Otp.IsDigits(otp))
    && (forall i :: 0 <= i < |s.files| ==> s.files[i].bundleOtp in s.bundles)
    && (forall u, j :: u in s.chunks && 0 <= j < |s.chunks[u]| ==> s.chunks[u][j].filePath.ChunkBlob?)
  }

  /** The chunk records staged under `uploadId`, in arrival order. */
  function Staged(s: Snapshot, uploadId: string): (cs: seq<ChunkRecord>) {
    if uploadId in s.chunks then s.chunks[uploadId] else []
  }

  /** `findByUploadIdOrderByChunkIndexAsc(uploadId)`. */
  function ChunksInOrder(s: Snapshot, uploadId: string): (cs: seq<ChunkRecord>)
    ensures SortedByIndex(cs) && multiset(cs) == multiset(Staged(s, uploadId))
  {
    SortByIndex(Staged(s, uploadId))
  }

  /** `createSharedBundle`. */
  function CreateOutcome(s: Snapshot, draw: nat, now: int): (rs: (Result<string, ServiceError>, Snapshot))
    requires draw < Otp.DrawBound
  {
    var otp := Otp.Format(draw);
    if otp in s.bundles then (Err(DuplicateOtp), s)
    else (Ok(otp), s.(bundles := s.bundles[otp := Bundle(otp, now + TtlSeconds, now)]))
  }

  /** `uploadSingleFile`. */
  function UploadSingleOutcome(s: Snapshot, otp: string, fileName: string, content: Bytes, uuid: string)
    : (rs: (Result<(), ServiceError>, Snapshot))
  {
    if otp !in s.bundles then (Err(InvalidOtp), s)
    else
      var path := UploadBlob(uuid, fileName);
      (Ok(()), s.(blobs := s.blobs[path := content], files := s.files + [FileRecord(fileName, path, otp)]))
  }

  /** `uploadChunk`. */
  function UploadChunkOutcome(s: Snapshot, otp: string, content: Bytes, fileName: string, chunkIndex: int,
                              totalChunks: int, uploadId: string): (rs: (Result<(), ServiceError>, Snapshot))
  {
    if otp !in s.bundles then (Err(InvalidOtp), s)
    else
      var path := ChunkBlob(uploadId, chunkIndex, fileName);
      var record := ChunkRecord(fileName, path, chunkIndex, totalChunks);
      (Ok(()), s.(blobs := s.blobs[path := content], chunks := s.chunks[uploadId := Staged(s, uploadId) + [record]]))
  }

  /** `finalizeUpload`; a chunk blob that is missing when its turn comes aborts with what was done so far. */
  function FinalizeOutcome(s: Snapshot, otp: string, uploadId: string, uuid: string): (rs: (Result<(), ServiceError>, Snapshot)) {
    if otp !in s.bundles then (Err(InvalidOtp), s)
    else
      var cs := ChunksInOrder(s, uploadId);
      if !CountMatches(cs) then (Err(MissingChunks), s)
      else
        var target := UploadBlob(uuid, cs[0].fileName);
        var k := FirstUncopyable(cs, s.blobs);
        var blobs := AfterCopy(cs, s.blobs, target);
        if k < |cs| then (Err(NoSuchFile(cs[k].filePath)), s.(blobs := blobs))
        else
          (Ok(()), s.(blobs := blobs, files := s.files + [FileRecord(cs[0].fileName, target, otp)],
                      chunks := s.chunks - {uploadId}))
  }

  /** The bundle `otp` exists and its expiry is strictly after `now`. */
  predicate Live(s: Snapshot, otp: string, now: int) {
    otp in s.bundles && s.bundles[otp].expiryTime > now
  }

  /** `streamZipArchive`. */
  function StreamOutcome(s: Snapshot, otp: string, now: int): (rs: (Result<seq<Entry>, ServiceError>, Snapshot)) {
    if !Live(s, otp, now) then (Err(InvalidOrExpiredOtp), s)
    else
      var fs := FilesOf(s.files, otp);
      var archive := ArchiveOf(fs, s.blobs);
      if !DistinctNames(archive) then (Err(DuplicateZipEntry), s)
      else
        (Ok(archive), Snapshot(s.bundles - {otp}, FilesNotOf(s.files, otp), s.chunks, s.blobs - FilePaths(fs)))
  }

  /**
   * A new bundle gets the six-digit code of the draw, expires `TtlSeconds` after creation and has no
   * files; a code that is already taken is refused and nothing changes.
   */
  lemma CreateAddsEmptyBundle(s: Snapshot, draw: nat, now: int)
    requires ValidState(s) && draw < Otp.DrawBound
    ensures var (r, s') := CreateOutcome(s, draw, now);
      && (r.Err? <==> Otp.Format(draw) in s.bundles)
      && (r.Err? ==> r == Err(DuplicateOtp) && s' == s)
      && (r.Ok? ==>
           && |r.value| == Otp.Length && Otp.IsDigits(r.value) && Otp.ValueOf(r.value) == draw
           && r.value !in s.bundles
           && s'.bundles == s.bundles[r.value := Bundle(r.value, now + TtlSeconds, now)]
           && s'.files == s.files && s'.chunks == s.chunks && s'.blobs == s.blobs
           && FilesOf(s'.files, r.value) == [])
  {
    var otp := Otp.Format(draw);
    if otp !in s.bundles {
      FilesOfNone(s.files, otp);
    }
  }

  /**
   * An upload to an unknown bundle changes nothing. Otherwise exactly one record joins the bundle,
   * and its bytes go to a blob named with the UUID: a fresh UUID means no blob is overwritten.
   */
  lemma UploadSingleAddsOneFile(s: Snapshot, otp: string, fileName: string, content: Bytes, uuid: string)
    ensures var (r, s') := UploadSingleOutcome(s, otp, fileName, content, uuid);
      var path := UploadBlob(uuid, fileName);
      && (otp !in s.bundles ==> r == Err(InvalidOtp) && s' == s)
      && (otp in s.bundles ==>
           && r == Ok(())
           && s'.bundles == s.bundles && s'.chunks == s.chunks
           && s'.files == s.files + [FileRecord(fileName, path, otp)]
           && FilesOf(s'.files, otp) == FilesOf(s.files, otp) + [FileRecord(fileName, path, otp)]
           && path in s'.blobs && s'.blobs[path] == content
           && s'.blobs.Keys == s.blobs.Keys + {path}
           && (FreshUuid(s.blobs, uuid) ==>
                path !in s.blobs && forall p :: p in s.blobs ==> s'.blobs[p] == s.blobs[p]))
  {
    if otp in s.bundles {
      FilesOfAppend(s.files, [FileRecord(fileName, UploadBlob(uuid, fileName), otp)], otp);
    }
  }

  /**
   * A chunk for an unknown bundle changes nothing. Otherwise the chunk blob is written (a re-sent
   * index overwrites it) and one more record is staged, even for an index already staged.
   */
  lemma UploadChunkStagesOne(s: Snapshot, otp: string, content: Bytes, fileName: string, chunkIndex: int,
                           totalChunks: int, uploadId: string)
    ensures var (r, s') := UploadChunkOutcome(s, otp, content, fileName, chunkIndex, totalChunks, uploadId);
      var path := ChunkBlob(uploadId, chunkIndex, fileName);
      && (otp !in s.bundles ==> r == Err(InvalidOtp) && s' == s)
      && (otp in s.bundles ==>
           && r == Ok(())
           && s'.bundles == s.bundles && s'.files == s.files
           && s'.blobs == s.blobs[path := content]
           && Staged(s', uploadId) == Staged(s, uploadId) + [ChunkRecord(fileName, path, chunkIndex, totalChunks)]
           && forall u :: u != uploadId ==> Staged(s', u) == Staged(s, u))
  {
  }

  /** The records the query returns point into the chunk directory. */
  lemma StagedPathsInChunkDir(s: Snapshot, uploadId: string)
    requires ValidState(s)
    ensures forall j :: 0 <= j < |ChunksInOrder(s, uploadId)| ==> ChunksInOrder(s, uploadId)[j].filePath.ChunkBlob?
  {
    var cs := ChunksInOrder(s, uploadId);
    forall j | 0 <= j < |cs| ensures cs[j].filePath.ChunkBlob? {
      assert cs[j] in multiset(Staged(s, uploadId));
    }
  }

  /** Finalizing for an unknown bundle, or with a record count that does not match, changes nothing. */
  lemma FinalizeRejects(s: Snapshot, otp: string, uploadId: string, uuid: string)
    requires otp !in s.bundles || !CountMatches(ChunksInOrder(s, uploadId))
    ensures FinalizeOutcome(s, otp, uploadId, uuid)
      == (if otp !in s.bundles then Err(InvalidOtp) else Err(MissingChunks), s)
    ensures otp in s.bundles && Staged(s, uploadId) == [] ==> FinalizeOutcome(s, otp, uploadId, uuid).0 == Err(MissingChunks)
  {
  }

  /**
   * A finalize whose chunk blobs are all there writes their concatenation, in ascending index, to one
   * new blob, deletes every chunk blob and record of the upload, and attaches one file named after the
   * first chunk; every other blob and every other upload's records stay as they were, and finalizing
   * the same upload again then fails.
   */
  lemma FinalizeAssembles(s: Snapshot, otp: string, uploadId: string, uuid: string, uuid': string)
    requires ValidState(s)
    requires otp in s.bundles
    requires var cs := ChunksInOrder(s, uploadId); CountMatches(cs) && FirstUncopyable(cs, s.blobs) == |cs|
    ensures var (r, s') := FinalizeOutcome(s, otp, uploadId, uuid);
      var cs := ChunksInOrder(s, uploadId);
      var target := UploadBlob(uuid, cs[0].fileName);
      && r == Ok(())
      && SortedByIndex(cs)
      && AllStored(cs, s.blobs)
      && target in s'.blobs && s'.blobs[target] == ConcatBlobs(cs, s.blobs)
      && (forall j :: 0 <= j < |cs| ==> cs[j].filePath !in s'.blobs)
      && (forall p :: p in s.blobs && p !in ChunkPaths(cs) && p != target ==> p in s'.blobs && s'.blobs[p] == s.blobs[p])
      && Staged(s', uploadId) == []
      && (forall u :: u != uploadId ==> Staged(s', u) == Staged(s, u))
      && s'.bundles == s.bundles
      && s'.files == s.files + [FileRecord(cs[0].fileName, target, otp)]
      && FinalizeOutcome(s', otp, uploadId, uuid').0 == Err(MissingChunks)
  {
    var cs := ChunksInOrder(s, uploadId);
    StagedPathsInChunkDir(s, uploadId);
    TakeAll(cs);
    var s' := FinalizeOutcome(s, otp, uploadId, uuid).1;
    forall j | 0 <= j < |cs| ensures cs[j].filePath !in s'.blobs {
      assert cs[..|cs|][j].filePath in ChunkPaths(cs[..|cs|]);
    }
  }

  /**
   * The count check passed but the copy loop found a chunk blob missing: the final blob holds the
   * chunks copied so far, those chunk blobs are deleted, every other blob is kept, and the records stay.
   */
  lemma FinalizeStops(s: Snapshot, otp: string, uploadId: string, uuid: string)
    requires ValidState(s)
    requires otp in s.bundles
    requires var cs := ChunksInOrder(s, uploadId); CountMatches(cs) && FirstUncopyable(cs, s.blobs) < |cs|
    ensures var (r, s') := FinalizeOutcome(s, otp, uploadId, uuid);
      var cs := ChunksInOrder(s, uploadId);
      var k := FirstUncopyable(cs, s.blobs);
      && r == Err(NoSuchFile(cs[k].filePath))
      && cs[k].filePath !in s.blobs - ChunkPaths(cs[..k])
      && (forall j :: 0 <= j < k ==> cs[j].filePath !in s'.blobs)
      && (forall p :: p in s.blobs && p !in ChunkPaths(cs[..k]) && p != UploadBlob(uuid, cs[0].fileName) ==>
            p in s'.blobs && s'.blobs[p] == s.blobs[p])
      && s'.bundles == s.bundles && s'.files == s.files && s'.chunks == s.chunks
      && s'.blobs[UploadBlob(uuid, cs[0].fileName)] == ConcatBlobs(cs[..k], s.blobs)
  {
    var cs := ChunksInOrder(s, uploadId);
    var k := FirstUncopyable(cs, s.blobs);
    assert !Copyable(cs, s.blobs, k);
    StagedPathsInChunkDir(s, uploadId);
    var s' := FinalizeOutcome(s, otp, uploadId, uuid).1;
    forall j | 0 <= j < k ensures cs[j].filePath !in s'.blobs {
      assert cs[..k][j].filePath in ChunkPaths(cs[..k]);
    }
    if cs[k].filePath in s.blobs {
      var i :| 0 <= i < k && cs[i].filePath == cs[k].filePath;
      assert cs[..k][i].filePath == cs[k].filePath;
    }
  }

  /** A download with an unknown or expired code, or whose archive would repeat a name, changes nothing. */
  lemma StreamRejects(s: Snapshot, otp: string, now: int)
    requires !Live(s, otp, now) || !DistinctNames(ArchiveOf(FilesOf(s.files, otp), s.blobs))
    ensures StreamOutcome(s, otp, now)
      == (if !Live(s, otp, now) then Err(InvalidOrExpiredOtp) else Err(DuplicateZipEntry), s)
  {
  }

  /** A bundle holding two stored files of the same name is refused by every download, which changes nothing. */
  lemma StreamRefusesRepeatedName(s: Snapshot, otp: string, now: int, a: nat, b: nat)
    requires var fs := FilesOf(s.files, otp);
      && (forall i :: 0 <= i < |fs| ==> fs[i].filePath in s.blobs)
      && a < b < |fs| && fs[a].fileName == fs[b].fileName
    ensures StreamOutcome(s, otp, now)
      == (if !Live(s, otp, now) then Err(InvalidOrExpiredOtp) else Err(DuplicateZipEntry), s)
  {
    RepeatedNameRefused(FilesOf(s.files, otp), s.blobs, a, b);
    StreamRejects(s, otp, now);
  }

  /**
   * A download of a live bundle returns one entry per file of the bundle whose blob exists, in
   * order, and consumes the bundle: its files, their blobs and the bundle are gone, the other
   * bundles keep their file records, in order, every other blob keeps its bytes, and a second
   * download with the same code fails.
   */
  lemma StreamConsumes(s: Snapshot, otp: string, now: int, later: int)
    requires ValidState(s)
    requires Live(s, otp, now) && DistinctNames(ArchiveOf(FilesOf(s.files, otp), s.blobs))
    ensures var (r, s') := StreamOutcome(s, otp, now);
      var fs := FilesOf(s.files, otp);
      && r == Ok(ArchiveOf(fs, s.blobs))
      && s'.bundles == s.bundles - {otp}
      && FilesOf(s'.files, otp) == []
      && (forall f :: f in s'.files <==> f in s.files && f.bundleOtp != otp)
      && (forall o :: o != otp ==> FilesOf(s'.files, o) == FilesOf(s.files, o))
      && (forall j :: 0 <= j < |fs| ==> fs[j].filePath !in s'.blobs)
      && (forall p :: p in s.blobs && p !in FilePaths(fs) ==> p in s'.blobs && s'.blobs[p] == s.blobs[p])
      && s'.chunks == s.chunks
      && StreamOutcome(s', otp, later).0 == Err(InvalidOrExpiredOtp)
  {
    FilesOfNone(StreamOutcome(s, otp, now).1.files, otp);
    forall o | o != otp ensures FilesOf(StreamOutcome(s, otp, now).1.files, o) == FilesOf(s.files, o) {
      FilesOfNotOf(s.files, otp, o);
    }
  }

  /**
   * The archive a live bundle's download returns: entry `i` is the `i`-th of the bundle's files whose
   * blob still exists, with its name and exactly its stored bytes; files whose blob is gone are skipped.
   */
  lemma StreamReturnsStored(s: Snapshot, otp: string, now: int)
    requires Live(s, otp, now) && DistinctNames(ArchiveOf(FilesOf(s.files, otp), s.blobs))
    ensures var r := StreamOutcome(s, otp, now).0;
      var sf := StoredFiles(FilesOf(s.files, otp), s.blobs);
      && r.Ok?
      && |r.value| == |sf|
      && forall i :: 0 <= i < |sf| ==> r.value[i] == Entry(sf[i].fileName, s.blobs[sf[i].filePath])
  {
    ArchiveEntries(FilesOf(s.files, otp), s.blobs);
  }

  /** Every operation keeps the stores valid. */
  lemma CreateKeepsValid(s: Snapshot, draw: nat, now: int)
    requires ValidState(s) && draw < Otp.DrawBound
    ensures ValidState(CreateOutcome(s, draw, now).1)
  {
  }

  lemma UploadSingleKeepsValid(s: Snapshot, otp: string, fileName: string, content: Bytes, uuid: string)
    requires ValidState(s)
    ensures ValidState(UploadSingleOutcome(s, otp, fileName, content, uuid).1)
  {
  }

  lemma UploadChunkKeepsValid(s: Snapshot, otp: string, content: Bytes, fileName: string, chunkIndex: int,
                              totalChunks: int, uploadId: string)
    requires ValidState(s)
    ensures ValidState(UploadChunkOutcome(s, otp, content, fileName, chunkIndex, totalChunks, uploadId).1)
  {
  }

  lemma FinalizeKeepsValid(s: Snapshot, otp: string, uploadId: string, uuid: string)
    requires ValidState(s)
    ensures ValidState(FinalizeOutcome(s, otp, uploadId, uuid).1)
  {
  }

  lemma StreamKeepsValid(s: Snapshot, otp: string, now: int)
    requires ValidState(s)
    ensures ValidState(StreamOutcome(s, otp, now).1)
  {
    var s' := StreamOutcome(s, otp, now).1;
    forall i | 0 <= i < |s'.files| ensures s'.files[i].bundleOtp in s'.bundles {
      assert s'.files[i] in s.files;
    }
  }

  class FileService {
    /** The shared-bundle repository, keyed by the unique code column. */
    var bundles: map<string, Bundle>
    /** The file repository, in insertion order. */
    var files: seq<FileRecord>
    /** The chunked-file repository, grouped by upload id, each group in arrival order. */
    var chunks: map<string, seq<ChunkRecord>>
    /** The blob store: the upload directory and the chunk directory. */
    var blobs: map<BlobPath, Bytes>

    ghost function Snap(): (s: Snapshot)
      reads this
    {
      Snapshot(bundles, files, chunks, blobs)
    }

    ghost predicate Valid()
      reads this
    {
      ValidState(Snap())
    }

    constructor ()
      ensures Valid()
      ensures Snap() == Snapshot(map[], [], map[], map[])
    {
      bundles, files, chunks, blobs := map[], [], map[], map[];
    }

    /** `createSharedBundle`: a new empty bundle with a six-digit code that expires in five minutes. */
    method CreateSharedBundle(draw: nat, now: int) returns (r: Result<string, ServiceError>)
      requires Valid()
      requires draw < Otp.DrawBound
      modifies this
      ensures Valid()
      ensures (r, Snap()) == CreateOutcome(old(Snap()), draw, now)
    {
      CreateKeepsValid(Snap(), draw, now);
      var otp := Otp.Format(draw);
      var expiryTime := now + TtlSeconds;
      if otp in bundles {
        return Err(DuplicateOtp);
      }
      bundles := bundles[otp := Bundle(otp, expiryTime, now)];
      r := Ok(otp);
    }

    /** `uploadSingleFile`: one new blob named with the UUID and one new file record for the bundle. */
    method UploadSingleFile(otp: string, fileName: string, content: Bytes, uuid: string)
      returns (r: Result<(), ServiceError>)
      requires Valid()
      modifies this
      ensures Valid()
      ensures (r, Snap()) == UploadSingleOutcome(old(Snap()), otp, fileName, content, uuid)
    {
      UploadSingleKeepsValid(Snap(), otp, fileName, content, uuid);
      if otp !in bundles {
        return Err(InvalidOtp);
      }
      var path := UploadBlob(uuid, fileName);
      blobs := blobs[path := content];
      files := files + [FileRecord(fileName, path, otp)];
      r := Ok(());
    }

    /** `uploadChunk`: the chunk blob is (over)written and one more chunk record is staged. */
    method UploadChunk(otp: string, content: Bytes, fileName: string, chunkIndex: int, totalChunks: int,
                       uploadId: string)
      returns (r: Result<(), ServiceError>)
      requires Valid()
      modifies this
      ensures Valid()
      ensures (r, Snap()) == UploadChunkOutcome(old(Snap()), otp, content, fileName, chunkIndex, totalChunks, uploadId)
    {
      UploadChunkKeepsValid(Snap(), otp, content, fileName, chunkIndex, totalChunks, uploadId);
      if otp !in bundles {
        return Err(InvalidOtp);
      }
      var path := ChunkBlob(uploadId, chunkIndex, fileName);
      blobs := blobs[path := content];
      var staged := if uploadId in chunks then chunks[uploadId] else [];
      chunks := chunks[uploadId := staged + [ChunkRecord(fileName, path, chunkIndex, totalChunks)]];
      r := Ok(());
    }

    /**
     * `finalizeUpload`: after the count check, the chunk blobs are copied in ascending index into a
     * new blob, each deleted once copied; then the file record is added and the chunk records removed.
     */
    method FinalizeUpload(otp: string, uploadId: string, uuid: string) returns (r: Result<(), ServiceError>)
      requires Valid()
      modifies this
      ensures Valid()
      ensures (r, Snap()) == FinalizeOutcome(old(Snap()), otp, uploadId, uuid)
    {
      if otp !in bundles {
        return Err(InvalidOtp);
      }
      var cs := SortByIndex(if uploadId in chunks then chunks[uploadId] else []);
      if |cs| == 0 || |cs| != cs[0].totalChunks {
        return Err(MissingChunks);
      }
      r := Assemble(otp, uploadId, uuid, cs);
    }

    /** The part of `finalizeUpload` after the count check: copy, then attach the file and drop the staging records. */
    method Assemble(otp: string, uploadId: string, uuid: string, cs: seq<ChunkRecord>) returns (r: Result<(), ServiceError>)
      requires Valid()
      requires otp in bundles && cs == ChunksInOrder(Snap(), uploadId) && CountMatches(cs)
      modifies this
      ensures Valid()
      ensures (r, Snap()) == FinalizeOutcome(old(Snap()), otp, uploadId, uuid)
    {
      ghost var s := Snap();
      StagedPathsInChunkDir(s, uploadId);
      FinalizeKeepsValid(s, otp, uploadId, uuid);
      var target := UploadBlob(uuid, cs[0].fileName);
      var copied := CopyChunks(cs, target);
      if copied < |cs| {
        return Err(NoSuchFile(cs[copied].filePath));
      }
      files := files + [FileRecord(cs[0].fileName, target, otp)];
      chunks := chunks - {uploadId};
      r := Ok(());
    }

    /**
     * The copy loop of `finalizeUpload`: creates `target`, then appends each chunk blob to it in list
     * order and deletes the chunk blob. Returns how many chunks were copied; fewer than |cs| means
     * the next chunk's blob was missing and the copy stopped there.
     */
    method CopyChunks(cs: seq<ChunkRecord>, target: BlobPath) returns (copied: nat)
      requires target.UploadBlob?
      requires forall j :: 0 <= j < |cs| ==> cs[j].filePath.ChunkBlob?
      modifies this`blobs
      ensures copied == FirstUncopyable(cs, old(blobs))
      ensures blobs == AfterCopy(cs, old(blobs), target)
    {
      ghost var store := blobs;
      ghost var k := FirstUncopyable(cs, store);
      blobs := blobs[target := []];
      var out: Bytes := [];
      copied := 0;
      while copied < |cs|
        invariant 0 <= copied <= k
        invariant AllStored(cs[..copied], store)
        invariant out == ConcatBlobs(cs[..copied], store)
        invariant blobs == (store - ChunkPaths(cs[..copied]))[target := out]
      {
        var p := cs[copied].filePath;
        if p !in blobs {
          CopyStopsHere(cs, store, copied, k);
          return;
        }
        CopyGoesOn(cs, store, copied);
        out := out + blobs[p];
        CopyStep(store, ChunkPaths(cs[..copied]), target, blobs[target], out, p);
        blobs := blobs[target := out] - {p};
        copied := copied + 1;
      }
    }

    /**
     * `streamZipArchive`: a live bundle's files are written to the archive, one entry per stored blob,
     * and then its blobs, its file records and the bundle itself are deleted.
     */
    method StreamZipArchive(otp: string, now: int) returns (r: Result<seq<Entry>, ServiceError>)
      requires Valid()
      modifies this
      ensures Valid()
      ensures (r, Snap()) == StreamOutcome(old(Snap()), otp, now)
    {
      if otp !in bundles || !(bundles[otp].expiryTime > now) {
        return Err(InvalidOrExpiredOtp);
      }
      var fs := FilesOf(files, otp);
      var archive := WriteArchive(fs);
      if archive.None? {
        return Err(DuplicateZipEntry);
      }
      StreamKeepsValid(Snap(), otp, now);
      Consume(otp, fs);
      r := Ok(archive.value);
    }

    /** The end of `streamZipArchive`: the bundle's blobs and file records go, then the bundle itself. */
    method Consume(otp: string, fs: seq<FileRecord>)
      requires fs == FilesOf(files, otp)
      modifies this`bundles, this`blobs, this`files
      ensures bundles == old(bundles) - {otp}
      ensures files == FilesNotOf(old(files), otp)
      ensures blobs == old(blobs) - FilePaths(fs)
    {
      DeleteFiles(fs);
      RemoveBundleFiles(old(files), otp, Rows(fs));
      bundles := bundles - {otp};
    }

    /**
     * The archive loop of `streamZipArchive`: one entry per record whose blob exists, named by the
     * record's file name. None when the archive writer meets a name a second time.
     */
    method WriteArchive(fs: seq<FileRecord>) returns (r: Option<seq<Entry>>)
      ensures r.Some? <==> DistinctNames(ArchiveOf(fs, blobs))
      ensures r.Some? ==> r.value == ArchiveOf(fs, blobs)
    {
      var entries: seq<Entry> := [];
      var names: set<string> := {};
      var i := 0;
      while i < |fs|
        invariant 0 <= i <= |fs|
        invariant entries == ArchiveOf(fs[..i], blobs)
        invariant DistinctNames(entries) && names == Names(entries)
      {
        var f := fs[i];
        ArchiveStep(fs, i, blobs);
        if f.filePath in blobs {
          var e := Entry(f.fileName, blobs[f.filePath]);
          ExtendNames(entries, e);
          if f.fileName in names {
            RepeatInPrefix(fs, i + 1, blobs);
            return None;
          }
          entries := entries + [e];
          names := names + {f.fileName};
        }
        i := i + 1;
      }
      assert fs[..i] == fs;
      r := Some(entries);
    }

    /** The clean-up loop of `streamZipArchive`: each record's blob (if any) and the record itself are deleted. */
    method DeleteFiles(fs: seq<FileRecord>)
      modifies this`blobs, this`files
      ensures blobs == old(blobs) - FilePaths(fs)
      ensures files == Remove(old(files), Rows(fs))
    {
      RemoveNothing(files);
      assert Rows(fs[..0]) == {};
      var j := 0;
      while j < |fs|
        invariant 0 <= j <= |fs|
        invariant blobs == old(blobs) - FilePaths(fs[..j])
        invariant files == Remove(old(files), Rows(fs[..j]))
      {
        assert fs[..j + 1] == fs[..j] + [fs[j]];
        assert FilePaths(fs[..j + 1]) == FilePaths(fs[..j]) + {fs[j].filePath};
        RowsSnoc(fs[..j], fs[j]);
        RemoveTwice(old(files), Rows(fs[..j]), fs[j]);
        blobs := blobs - {fs[j].filePath};
        files := Remove(files, {fs[j]});
        j := j + 1;
      }
      assert fs[..j] == fs;
    }
  }

  /** Appending a chunk to the target and deleting it is the same as deleting one more path. */
  lemma CopyStep(store: map<BlobPath, Bytes>, copied: set<BlobPath>, target: BlobPath, out: Bytes, out': Bytes, p: BlobPath)
    requires p != target
    ensures ((store - copied)[target := out])[target := out'] - {p} == (store - (copied + {p}))[target := out']
  {
  }

  /** The copy loop reaches a chunk whose blob is gone only where the readable run ends. */
  lemma CopyStopsHere(cs: seq<ChunkRecord>, store: map<BlobPath, Bytes>, i: nat, k: nat)
    requires i <= k && i < |cs|
    requires k == FirstUncopyable(cs, store)
    requires cs[i].filePath !in store - ChunkPaths(cs[..i])
    ensures i == k
  {
    assert i < k ==> Copyable(cs, store, i);
  }

  /** A chunk whose blob is still there has not been copied before, and its path joins the deleted ones. */
  lemma CopyGoesOn(cs: seq<ChunkRecord>, store: map<BlobPath, Bytes>, i: nat)
    requires i < |cs|
    requires AllStored(cs[..i], store)
    requires cs[i].filePath in store - ChunkPaths(cs[..i])
    ensures AllStored(cs[..i + 1], store)
    ensures ChunkPaths(cs[..i + 1]) == ChunkPaths(cs[..i]) + {cs[i].filePath}
    ensures ConcatBlobs(cs[..i + 1], store) == ConcatBlobs(cs[..i], store) + store[cs[i].filePath]
  {
    assert cs[..i + 1][..i] == cs[..i];
    var a, b := ChunkPaths(cs[..i + 1]), ChunkPaths(cs[..i]) + {cs[i].filePath};
    forall p | p in a ensures p in b {
      var j :| 0 <= j < i + 1 && cs[..i + 1][j].filePath == p;
      if j < i { assert cs[..i][j].filePath == p; }
    }
    forall p | p in b ensures p in a {
      if p == cs[i].filePath {
        assert cs[..i + 1][i].filePath == p;
      } else {
        var j :| 0 <= j < i && cs[..i][j].filePath == p;
        assert cs[..i + 1][j].filePath == p;
      }
    }
  }
}
