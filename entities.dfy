/**
 * The records of the three repositories (shared bundles, files, chunked files), the paths of the
 * blob store, the archive entries and the exceptions of the file service.
 */
module Entities {
  import opened Common

  /** A bundle lives for five minutes after it is created. */
  const TtlSeconds: int := 300

  /** A row of the shared-bundle table; the code is unique and the key of the repository. */
  datatype Bundle = Bundle(otp: string, expiryTime: int, createdAt: int)

  /** Where a blob lives: a finished upload under the upload directory, or a staged chunk under the chunk directory. */
  datatype BlobPath =
    | UploadBlob(uuid: string, name: string)              // uploadDir/<uuid>_<name>
    | ChunkBlob(uploadId: string, index: int, name: string) // chunkDir/<uploadId>/<index>_<name>

  /** A row of the file table; it must reference a bundle. */
  datatype FileRecord = FileRecord(fileName: string, filePath: BlobPath, bundleOtp: string)

  /** A row of the chunked-file table; its upload id is the key under which the service keeps it. */
  datatype ChunkRecord = ChunkRecord(fileName: string, filePath: BlobPath, chunkIndex: int, totalChunks: int)

  /** One entry of the download archive. */
  datatype Entry = Entry(name: string, content: Bytes)

  /** The exceptions the file service throws. */
  datatype ServiceError =
    | DuplicateOtp           // the unique column rejects a second bundle with the same code
    | InvalidOtp             // no bundle has this code
    | MissingChunks          // the record count does not match the announced total
    | NoSuchFile(path: BlobPath) // Files.copy on a chunk blob that is not there
    | InvalidOrExpiredOtp    // no live bundle has this code
    | DuplicateZipEntry      // the archive writer refuses a second entry with the same name

  /** No blob of the upload directory is named with this UUID: a fresh random UUID. */
  ghost predicate FreshUuid(store: map<BlobPath, Bytes>, uuid: string) {
    forall name :: UploadBlob(uuid, name) !in store
  }

  /** No chunk blob is staged under this upload id: a fresh client-side upload id. */
  ghost predicate FreshChunkDir(store: map<BlobPath, Bytes>, uploadId: string) {
    forall i, name :: ChunkBlob(uploadId, i, name) !in store
  }

  /** The records the file repository returns for a bundle, in insertion order. */
  function FilesOf(files: seq<FileRecord>, otp: string): (r: seq<FileRecord>)
    ensures |r| <= |files|
    ensures forall f :: f in r <==> f in files && f.bundleOtp == otp
  {
    if files == [] then []
    else FilesOf(files[..|files| - 1], otp)
         + (if files[|files| - 1].bundleOtp == otp then [files[|files| - 1]] else [])
  }

  /** A bundle no record references has no files. */
  lemma {:induction false} FilesOfNone(files: seq<FileRecord>, otp: string)
    requires forall i :: 0 <= i < |files| ==> files[i].bundleOtp != otp
    ensures FilesOf(files, otp) == []
  {
    if files != [] {
      FilesOfNone(files[..|files| - 1], otp);
    }
  }

  lemma {:induction false} FilesOfAppend(s: seq<FileRecord>, t: seq<FileRecord>, otp: string)
    ensures FilesOf(s + t, otp) == FilesOf(s, otp) + FilesOf(t, otp)
    decreases |t|
  {
    if t == [] {
      assert s + t == s;
    } else {
      var t' := t[..|t| - 1];
      assert (s + t)[..|s + t| - 1] == s + t';
      FilesOfAppend(s, t', otp);
    }
  }

  /** Records that all reference the bundle are all returned, in order. */
  lemma {:induction false} FilesOfAll(files: seq<FileRecord>, otp: string)
    requires forall i :: 0 <= i < |files| ==> files[i].bundleOtp == otp
    ensures FilesOf(files, otp) == files
  {
    if files != [] {
      var init, last := files[..|files| - 1], files[|files| - 1];
      FilesOfAll(init, otp);
      assert FilesOf(files, otp) == FilesOf(init, otp) + [last];
      assert init + [last] == files;
    }
  }

  /** The records of every other bundle, in insertion order. */
  function FilesNotOf(files: seq<FileRecord>, otp: string): (r: seq<FileRecord>)
    ensures forall f :: f in r <==> f in files && f.bundleOtp != otp
  {
    if files == [] then []
    else FilesNotOf(files[..|files| - 1], otp)
         + (if files[|files| - 1].bundleOtp != otp then [files[|files| - 1]] else [])
  }

  /** Dropping one bundle's records leaves every other bundle's records, in order and with repeats. */
  lemma {:induction false} FilesOfNotOf(files: seq<FileRecord>, gone: string, otp: string)
    requires gone != otp
    ensures FilesOf(FilesNotOf(files, gone), otp) == FilesOf(files, otp)
  {
    if files != [] {
      var init, last := files[..|files| - 1], files[|files| - 1];
      var kept := if last.bundleOtp != gone then [last] else [];
      FilesOfNotOf(init, gone, otp);
      FilesOfAppend(FilesNotOf(init, gone), kept, otp);
      assert kept == [] || kept[..0] == [];
    }
  }

  /** The blob paths a list of file records points at. */
  function FilePaths(fs: seq<FileRecord>): (r: set<BlobPath>) {
    set i | 0 <= i < |fs| :: fs[i].filePath
  }

  /** The blob paths a list of chunk records points at. */
  function ChunkPaths(cs: seq<ChunkRecord>): (r: set<BlobPath>) {
    set i | 0 <= i < |cs| :: cs[i].filePath
  }

  /** The rows of a list of file records. */
  function Rows(fs: seq<FileRecord>): (r: set<FileRecord>) {
    set f | f in fs
  }

  lemma RowsSnoc(fs: seq<FileRecord>, f: FileRecord)
    ensures Rows(fs + [f]) == Rows(fs) + {f}
  {
  }

  /** The records of `files` that are not in `drop`, in order: what deleting the rows of `drop` leaves. */
  function Remove(files: seq<FileRecord>, drop: set<FileRecord>): (r: seq<FileRecord>)
    ensures forall f :: f in r <==> f in files && f !in drop
  {
    if files == [] then []
    else Remove(files[..|files| - 1], drop)
         + (if files[|files| - 1] !in drop then [files[|files| - 1]] else [])
  }

  lemma {:induction false} RemoveNothing(files: seq<FileRecord>)
    ensures Remove(files, {}) == files
  {
    if files != [] {
      RemoveNothing(files[..|files| - 1]);
    }
  }

  /** Deleting one more row after a batch is deleting both. */
  lemma {:induction false} RemoveTwice(files: seq<FileRecord>, drop: set<FileRecord>, f: FileRecord)
    ensures Remove(Remove(files, drop), {f}) == Remove(files, drop + {f})
  {
    if files != [] {
      var init := files[..|files| - 1];
      RemoveTwice(init, drop, f);
      var rest := Remove(init, drop);
      var last := files[|files| - 1];
      var tail := if last !in drop then [last] else [];
      assert Remove(files, drop) == rest + tail;
      RemoveAppend(rest, tail, {f});
    }
  }

  lemma {:induction false} RemoveAppend(s: seq<FileRecord>, t: seq<FileRecord>, drop: set<FileRecord>)
    ensures Remove(s + t, drop) == Remove(s, drop) + Remove(t, drop)
    decreases |t|
  {
    if t == [] {
      assert s + t == s;
    } else {
      var t' := t[..|t| - 1];
      assert (s + t)[..|s + t| - 1] == s + t';
      RemoveAppend(s, t', drop);
    }
  }

  /** Deleting every record of one bundle leaves the records of the other bundles. */
  lemma {:induction false} RemoveBundleFiles(files: seq<FileRecord>, otp: string, drop: set<FileRecord>)
    requires forall f :: f in drop <==> f in files && f.bundleOtp == otp
    ensures Remove(files, drop) == FilesNotOf(files, otp)
  {
    if files != [] {
      var init := files[..|files| - 1];
      assert forall f :: f in init ==> f in files;
      RemoveBundleFiles(init, otp, set f | f in drop && f in init);
      RemoveSame(init, drop, set f | f in drop && f in init);
    }
  }

  /** Only the dropped rows that are present matter. */
  lemma {:induction false} RemoveSame(files: seq<FileRecord>, a: set<FileRecord>, b: set<FileRecord>)
    requires forall f :: f in files ==> (f in a <==> f in b)
    ensures Remove(files, a) == Remove(files, b)
  {
    if files != [] {
      var init := files[..|files| - 1];
      assert forall f :: f in init ==> f in files;
      RemoveSame(init, a, b);
    }
  }
}
