/**
 * The browser component: the list of selected files, the upload loop that creates a bundle and
 * sends each file whole or in chunks, and the download form's guard. Each HTTP request is a call of
 * the corresponding file-service operation; the status texts shown to the user are tags.
 */
module Frontend {
  import opened Common
  import opened Entities
  import opened ChunkAssembly
  import opened ChunkPlan
  import opened ChunkedUpload
  import opened Archive
  import opened Backend
  import Otp

  /** A file picked in the browser; the list removes it by identity, not by name. */
  class LocalFile {
    const name: string
    const data: Bytes

    constructor (name: string, data: Bytes)
      ensures this.name == name && this.data == data
    {
      this.name := name;
      this.data := data;
    }
  }

  /** `uploadMessage`. */
  datatype UploadMessage =
    | NoUploadMessage
    | SelectAtLeastOne                 // prompt: nothing is selected
    | CreatingBundle                   // the bundle request is on its way
    | UploadingFile(name: string)      // one file is going up whole
    | UploadingChunk(name: string, number: nat, total: nat) // chunk `number` of `total` is going up
    | ChunkFailed(name: string)        // a chunk request of this file failed
    | AllComplete                      // every file went up; the code is shown
    | UploadFailed(error: ServiceError) // the server refused; its error is shown

  /** `downloadMessage`. */
  datatype DownloadMessage =
    | NoDownloadMessage
    | EnterValidOtp                    // prompt: the code field is blank
    | Downloading                      // the download request is on its way
    | DownloadSuccessful               // the archive arrived
    | DownloadFailed                   // the server refused the code

  /** `selectedFiles.filter(file => file !== f)`. */
  function Without(files: seq<LocalFile>, f: LocalFile): (r: seq<LocalFile>)
    ensures f !in r
    ensures forall i :: 0 <= i < |r| ==> r[i] in files
    ensures forall i :: 0 <= i < |files| && files[i] != f ==> files[i] in r
  {
    if files == [] then []
    else Without(files[..|files| - 1], f) + (if files[|files| - 1] != f then [files[|files| - 1]] else [])
  }

  /** Filtering a concatenation filters each part: the files kept stay in their order. */
  lemma {:induction false} WithoutAppend(s: seq<LocalFile>, t: seq<LocalFile>, f: LocalFile)
    ensures Without(s + t, f) == Without(s, f) + Without(t, f)
    decreases |t|
  {
    if t == [] {
      assert s + t == s;
    } else {
      var t' := t[..|t| - 1];
      assert (s + t)[..|s + t| - 1] == s + t';
      WithoutAppend(s, t', f);
    }
  }

  /** Every occurrence of `f` goes, and every other file keeps its number of occurrences. */
  lemma {:induction false} WithoutCounts(files: seq<LocalFile>, f: LocalFile)
    ensures multiset(Without(files, f)) == multiset(files)[f := 0]
  {
    if files != [] {
      var init := files[..|files| - 1];
      WithoutCounts(init, f);
      assert files == init + [files[|files| - 1]];
    }
  }

  /** Removing a file that is not in the list leaves the list as it is. */
  lemma {:induction false} WithoutAbsent(files: seq<LocalFile>, f: LocalFile)
    requires f !in files
    ensures Without(files, f) == files
  {
    if files != [] {
      var init, last := files[..|files| - 1], files[|files| - 1];
      assert files == init + [last];
      assert f !in init;
      WithoutAbsent(init, f);
    }
  }

  /** The characters `String.prototype.trim` strips: white space and line terminators. */
  predicate IsJsWhitespace(c: char) {
    || c == '\t' || c == '\U{000B}' || c == '\U{000C}' || c == ' ' || c == '\U{00A0}' || c == '\U{FEFF}'
    || c == '\U{1680}' || ('\U{2000}' <= c <= '\U{200A}') || c == '\U{202F}' || c == '\U{205F}'
    || c == '\U{3000}' || c == '\n' || c == '\r' || c == '\U{2028}' || c == '\U{2029}'
  }

  predicate IsBlank(s: string) {
    forall i :: 0 <= i < |s| ==> IsJsWhitespace(s[i])
  }

  /** `s` with its leading white space removed. */
  function TrimStart(s: string): (r: string)
    ensures |r| <= |s| && r == s[|s| - |r|..]
    ensures forall k :: 0 <= k < |s| - |r| ==> IsJsWhitespace(s[k])
    ensures r == [] || !IsJsWhitespace(r[0])
  {
    if s != [] && IsJsWhitespace(s[0]) then TrimStart(s[1..]) else s
  }

  /** `s` with its trailing white space removed. */
  function TrimEnd(s: string): (r: string)
    ensures |r| <= |s| && r == s[..|r|]
    ensures forall k :: |r| <= k < |s| ==> IsJsWhitespace(s[k])
    ensures r == [] || !IsJsWhitespace(r[|r| - 1])
  {
    if s != [] && IsJsWhitespace(s[|s| - 1]) then TrimEnd(s[..|s| - 1]) else s
  }

  /** `s.trim()`. */
  function Trim(s: string): (t: string) {
    TrimEnd(TrimStart(s))
  }

  /**
   * `r` is `s` with `a` leading and `|s| - a - |r|` trailing characters stripped, all of them white
   * space, and `r` neither starts nor ends with white space.
   */
  predicate StrippedAt(s: string, a: int, r: string) {
    && 0 <= a && a + |r| <= |s| && r == s[a..a + |r|]
    && (r == [] || (!IsJsWhitespace(r[0]) && !IsJsWhitespace(r[|r| - 1])))
    && (forall k :: 0 <= k < a ==> IsJsWhitespace(s[k]))
    && (forall k :: a + |r| <= k < |s| ==> IsJsWhitespace(s[k]))
  }

  /** `trim` keeps the part of `s` between its leading and its trailing white space. */
  lemma TrimStrips(s: string)
    ensures StrippedAt(s, |s| - |TrimStart(s)|, Trim(s))
  {
    StripShape(s, TrimStart(s), Trim(s));
  }

  /** What `TrimStart` and `TrimEnd` promise, put together for a suffix `t` of `s` and a prefix `r` of `t`. */
  lemma StripShape(s: string, t: string, r: string)
    requires |t| <= |s| && t == s[|s| - |t|..]
    requires forall k :: 0 <= k < |s| - |t| ==> IsJsWhitespace(s[k])
    requires t == [] || !IsJsWhitespace(t[0])
    requires |r| <= |t| && r == t[..|r|]
    requires forall k :: |r| <= k < |t| ==> IsJsWhitespace(t[k])
    requires r == [] || !IsJsWhitespace(r[|r| - 1])
    ensures StrippedAt(s, |s| - |t|, r)
  {
    var a := |s| - |t|;
    PrefixOfSuffix(s, a, r);
    if r != [] {
      assert r[0] == t[0];
    }
    forall k | a + |r| <= k < |s| ensures IsJsWhitespace(s[k]) {
      assert IsJsWhitespace(t[k - a]);
    }
  }

  /** `!s.trim()` holds exactly when every character of `s` is white space. */
  lemma TrimEmptyIffBlank(s: string)
    ensures Trim(s) == [] <==> IsBlank(s)
  {
    var t := TrimStart(s);
    if t != [] {
      assert !IsJsWhitespace(t[0]);
      assert s[|s| - |t|] == t[0];
    }
  }

  /** A string of decimal digits has nothing to trim. */
  lemma DigitsTrimmed(s: string)
    requires Otp.IsDigits(s)
    ensures Trim(s) == s
  {
    assert s != [] ==> !IsJsWhitespace(s[0]) && !IsJsWhitespace(s[|s| - 1]);
  }

  /** The file records the upload loop adds: file `j` under a blob named with `uuids[j]`. */
  function Uploaded(sel: seq<LocalFile>, uuids: seq<string>, otp: string): (r: seq<FileRecord>)
    requires |sel| <= |uuids|
    ensures |r| == |sel|
    ensures forall j :: 0 <= j < |sel| ==>
      r[j] == FileRecord(sel[j].name, UploadBlob(uuids[j], sel[j].name), otp)
  {
    if sel == [] then []
    else
      var j := |sel| - 1;
      Uploaded(sel[..j], uuids, otp) + [FileRecord(sel[j].name, UploadBlob(uuids[j], sel[j].name), otp)]
  }

  /** The blob store after the upload loop: each file's bytes under its blob. */
  function StoredUploads(store: map<BlobPath, Bytes>, sel: seq<LocalFile>, uuids: seq<string>): (r: map<BlobPath, Bytes>)
    requires |sel| <= |uuids|
  {
    if sel == [] then store
    else
      var j := |sel| - 1;
      StoredUploads(store, sel[..j], uuids)[UploadBlob(uuids[j], sel[j].name) := sel[j].data]
  }

  /** With distinct UUIDs no upload overwrites another: each blob holds its own file's bytes. */
  lemma {:induction false} StoredUploadsHold(store: map<BlobPath, Bytes>, sel: seq<LocalFile>, uuids: seq<string>)
    requires |sel| <= |uuids|
    requires forall j, k :: 0 <= j < k < |uuids| ==> uuids[j] != uuids[k]
    ensures forall j :: 0 <= j < |sel| ==>
      && UploadBlob(uuids[j], sel[j].name) in StoredUploads(store, sel, uuids)
      && StoredUploads(store, sel, uuids)[UploadBlob(uuids[j], sel[j].name)] == sel[j].data
  {
    if sel != [] {
      var n := |sel| - 1;
      StoredUploadsHold(store, sel[..n], uuids);
      forall j | 0 <= j < n
        ensures StoredUploads(store, sel, uuids)[UploadBlob(uuids[j], sel[j].name)] == sel[j].data
      {
        assert sel[..n][j] == sel[j];
        assert uuids[j] != uuids[n];
      }
    }
  }

  /** Blobs that were there before the uploads and are not named with one of their UUIDs are kept. */
  lemma {:induction false} StoredUploadsKeep(store: map<BlobPath, Bytes>, sel: seq<LocalFile>, uuids: seq<string>)
    requires |sel| <= |uuids|
    requires forall j :: 0 <= j < |uuids| ==> FreshUuid(store, uuids[j])
    ensures forall p :: p in store ==> p in StoredUploads(store, sel, uuids) && StoredUploads(store, sel, uuids)[p] == store[p]
  {
    if sel != [] {
      StoredUploadsKeep(store, sel[..|sel| - 1], uuids);
    }
  }

  /**
   * A code that `trim` would change is never a bundle's code, since codes are digits: when it reaches
   * the service as typed, the download fails and nothing changes.
   */
  lemma PaddedCodeRefused(s: Snapshot, code: string, now: int)
    requires ValidState(s)
    requires Trim(code) != code
    ensures StreamOutcome(s, code, now) == (Err(InvalidOrExpiredOtp), s)
  {
    if code in s.bundles {
      DigitsTrimmed(code);
    }
  }

  /** The service's stores after each file of `sel` went up whole, file `j` under `uuids[j]`. */
  function UploadsOutcome(s: Snapshot, sel: seq<LocalFile>, uuids: seq<string>, otp: string): (s': Snapshot)
    requires |sel| <= |uuids|
  {
    s.(files := s.files + Uploaded(sel, uuids, otp), blobs := StoredUploads(s.blobs, sel, uuids))
  }

  /** One more file uploaded to a known bundle is one more single upload. */
  lemma UploadsStep(s: Snapshot, sel: seq<LocalFile>, uuids: seq<string>, otp: string, i: nat)
    requires i < |sel| <= |uuids|
    requires otp in s.bundles
    ensures UploadsOutcome(s, sel[..i + 1], uuids, otp)
      == UploadSingleOutcome(UploadsOutcome(s, sel[..i], uuids, otp), otp, sel[i].name, sel[i].data, uuids[i]).1
  {
    assert sel[..i + 1][..i] == sel[..i];
    var rec := FileRecord(sel[i].name, UploadBlob(uuids[i], sel[i].name), otp);
    assert s.files + (Uploaded(sel[..i], uuids, otp) + [rec]) == s.files + Uploaded(sel[..i], uuids, otp) + [rec];
  }

  /** A single upload stages nothing and writes no chunk blob, so upload ids that were fresh stay fresh. */
  lemma UploadKeepsChunkDirs(s: Snapshot, otp: string, name: string, data: Bytes, uuid: string)
    ensures var s' := UploadSingleOutcome(s, otp, name, data, uuid).1;
      && s'.chunks == s.chunks
      && forall u :: FreshChunkDir(s.blobs, u) ==> FreshChunkDir(s'.blobs, u)
  {
  }

  /**
   * After a new bundle is created and the selection uploaded to it, the bundle holds exactly the
   * selected files, in selection order; with distinct fresh UUIDs each blob holds its own file's
   * bytes and no blob that was there before is overwritten.
   */
  lemma BundleHoldsSelection(s: Snapshot, draw: nat, now: int, sel: seq<LocalFile>, uuids: seq<string>)
    requires ValidState(s) && draw < Otp.DrawBound && Otp.Format(draw) !in s.bundles
    requires |sel| <= |uuids|
    requires forall j, k :: 0 <= j < k < |uuids| ==> uuids[j] != uuids[k]
    requires forall j :: 0 <= j < |uuids| ==> FreshUuid(s.blobs, uuids[j])
    ensures var otp := Otp.Format(draw);
      var s' := UploadsOutcome(CreateOutcome(s, draw, now).1, sel, uuids, otp);
      && s'.bundles[otp] == Bundle(otp, now + TtlSeconds, now)
      && FilesOf(s'.files, otp) == Uploaded(sel, uuids, otp)
      && (forall j :: 0 <= j < |sel| ==>
            UploadBlob(uuids[j], sel[j].name) in s'.blobs && s'.blobs[UploadBlob(uuids[j], sel[j].name)] == sel[j].data)
      && (forall p :: p in s.blobs ==> p in s'.blobs && s'.blobs[p] == s.blobs[p])
  {
    var otp := Otp.Format(draw);
    var s1 := CreateOutcome(s, draw, now).1;
    CreateAddsEmptyBundle(s, draw, now);
    FilesOfAll(Uploaded(sel, uuids, otp), otp);
    FilesOfAppend(s1.files, Uploaded(sel, uuids, otp), otp);
    StoredUploadsHold(s1.blobs, sel, uuids);
    StoredUploadsKeep(s1.blobs, sel, uuids);
  }

  /** Records of stored uploads, two of whose files share a name, repeat that name at the same places. */
  lemma UploadedRepeat(sel: seq<LocalFile>, uuids: seq<string>, otp: string, store: map<BlobPath, Bytes>, a: nat, b: nat)
    requires |sel| <= |uuids|
    requires forall j :: 0 <= j < |sel| ==> UploadBlob(uuids[j], sel[j].name) in store
    requires a < b < |sel| && sel[a].name == sel[b].name
    ensures var fs := Uploaded(sel, uuids, otp);
      && (forall i :: 0 <= i < |fs| ==> fs[i].filePath in store)
      && a < b < |fs| && fs[a].fileName == fs[b].fileName
  {
  }

  /**
   * Two selected files with the same name make the new bundle undownloadable: `putNextEntry` refuses
   * the second entry before anything is deleted, so every download fails and nothing changes.
   */
  lemma DuplicateNamesBlockDownload(s: Snapshot, draw: nat, now: int, sel: seq<LocalFile>, uuids: seq<string>,
                                    later: int, a: nat, b: nat)
    requires ValidState(s) && draw < Otp.DrawBound && Otp.Format(draw) !in s.bundles
    requires |sel| <= |uuids|
    requires forall j, k :: 0 <= j < k < |uuids| ==> uuids[j] != uuids[k]
    requires forall j :: 0 <= j < |uuids| ==> FreshUuid(s.blobs, uuids[j])
    requires a < b < |sel| && sel[a].name == sel[b].name
    ensures var otp := Otp.Format(draw);
      var s' := UploadsOutcome(CreateOutcome(s, draw, now).1, sel, uuids, otp);
      StreamOutcome(s', otp, later)
        == (if !Live(s', otp, later) then Err(InvalidOrExpiredOtp) else Err(DuplicateZipEntry), s')
  {
    var otp := Otp.Format(draw);
    var s' := UploadsOutcome(CreateOutcome(s, draw, now).1, sel, uuids, otp);
    BundleHoldsSelection(s, draw, now, sel, uuids);
    UploadedRepeat(sel, uuids, otp, s'.blobs, a, b);
    StreamRefusesRepeatedName(s', otp, later, a, b);
  }

  class AppComponent {
    /** The file service behind the HTTP endpoints. */
    const backend: FileService
    var selectedFiles: seq<LocalFile>
    var uploadMessage: UploadMessage
    var uploadedOtp: string
    var downloadOtpInput: string
    var downloadMessage: DownloadMessage
    var downloading: bool

    constructor (backend: FileService)
      ensures this.backend == backend
      ensures selectedFiles == [] && uploadMessage == NoUploadMessage && uploadedOtp == ""
      ensures downloadOtpInput == "" && downloadMessage == NoDownloadMessage && !downloading
    {
      this.backend := backend;
      selectedFiles, uploadMessage, uploadedOtp := [], NoUploadMessage, "";
      downloadOtpInput, downloadMessage, downloading := "", NoDownloadMessage, false;
    }

    /** `removeFile`: drops the given file, wherever and however often it occurs. */
    method RemoveFile(f: LocalFile)
      modifies this`selectedFiles
      ensures selectedFiles == Without(old(selectedFiles), f)
    {
      selectedFiles := Without(selectedFiles, f);
    }

    /** `uploadSingleFile`: one request carrying the whole file. */
    method UploadSingle(file: LocalFile, otp: string, uuid: string) returns (r: Result<(), ServiceError>)
      requires backend.Valid()
      modifies this`uploadMessage, backend
      ensures backend.Valid()
      ensures uploadMessage == UploadingFile(file.name)
      ensures (r, backend.Snap()) == UploadSingleOutcome(old(backend.Snap()), otp, file.name, file.data, uuid)
    {
      uploadMessage := UploadingFile(file.name);
      r := backend.UploadSingleFile(otp, file.name, file.data, uuid);
    }

    /**
     * `uploadChunkedFile`: the chunks are sent one after the other in ascending index, all with the
     * same upload id, name and total; the first failure stops the loop, and finalize is sent only
     * after every chunk went through. For a fresh upload id the outcome is that of a single upload,
     * except that an empty file is refused for missing chunks.
     */
    method UploadChunkedFile(file: LocalFile, otp: string, uploadId: string, uuid: string)
      returns (r: Result<(), ServiceError>)
      requires backend.Valid()
      requires uploadId !in backend.chunks && FreshChunkDir(backend.blobs, uploadId)
      modifies this`uploadMessage, backend
      ensures backend.Valid()
      ensures uploadMessage ==
        if |file.data| == 0 then old(uploadMessage)
        else if otp !in old(backend.bundles) then ChunkFailed(file.name)
        else UploadingChunk(file.name, TotalChunks(|file.data|), TotalChunks(|file.data|))
      ensures otp !in old(backend.bundles) ==> r == Err(InvalidOtp) && backend.Snap() == old(backend.Snap())
      ensures otp in old(backend.bundles) && |file.data| == 0 ==>
        r == Err(MissingChunks) && backend.Snap() == old(backend.Snap())
      ensures otp in old(backend.bundles) && |file.data| > 0 ==>
        (r, backend.Snap()) == UploadSingleOutcome(old(backend.Snap()), otp, file.name, file.data, uuid)
    {
      ghost var s := backend.Snap();
      var total := TotalChunks(|file.data|);
      r := SendChunks(file, otp, uploadId, total);
      if r.Err? {
        return;
      }
      if total > 0 {
        ChunkedEqualsSingle(s, otp, uploadId, file.name, file.data, uuid);
      } else {
        EmptyFileFinalizes(s, otp, uploadId, uuid);
      }
      r := backend.FinalizeUpload(otp, uploadId, uuid);
    }

    /** The chunk loop of `uploadChunkedFile`: chunk `i` of `total` is sent as request `i`, and the first failure ends it. */
    method SendChunks(file: LocalFile, otp: string, uploadId: string, total: nat) returns (r: Result<(), ServiceError>)
      requires backend.Valid() && uploadId !in backend.chunks
      requires total == TotalChunks(|file.data|)
      modifies this`uploadMessage, backend
      ensures backend.Valid()
      ensures r.Err? <==> otp !in old(backend.bundles) && total > 0
      ensures r.Err? ==>
        r == Err(InvalidOtp) && uploadMessage == ChunkFailed(file.name) && backend.Snap() == old(backend.Snap())
      ensures r.Ok? ==>
        && backend.Snap() == AfterChunks(old(backend.Snap()), uploadId, file.name, file.data, total)
        && uploadMessage == (if total == 0 then old(uploadMessage) else UploadingChunk(file.name, total, total))
    {
      ghost var s := backend.Snap();
      var i := 0;
      while i < total
        invariant 0 <= i <= total
        invariant backend.Valid()
        invariant backend.Snap() == AfterChunks(s, uploadId, file.name, file.data, i)
        invariant i == 0 ==> uploadMessage == old(uploadMessage)
        invariant i > 0 ==> otp in s.bundles && uploadMessage == UploadingChunk(file.name, i, total)
      {
        uploadMessage := UploadingChunk(file.name, i + 1, total);
        if otp in s.bundles {
          SendNextChunk(s, otp, uploadId, file.name, file.data, i);
        }
        var sent := backend.UploadChunk(otp, Chunk(file.data, i), file.name, i, total, uploadId);
        if sent.Err? {
          assert otp !in s.bundles && i == 0;
          uploadMessage := ChunkFailed(file.name);
          return sent;
        }
        i := i + 1;
      }
      r := Ok(());
    }

    /** One pass of the upload loop: the size dispatch, then the whole-file or the chunked path. */
    method UploadOne(file: LocalFile, otp: string, uuid: string, uploadId: string) returns (r: Result<(), ServiceError>)
      requires backend.Valid() && otp in backend.bundles
      requires uploadId !in backend.chunks && FreshChunkDir(backend.blobs, uploadId)
      modifies this`uploadMessage, backend
      ensures backend.Valid()
      ensures uploadMessage ==
        if UsesChunks(|file.data|) then UploadingChunk(file.name, TotalChunks(|file.data|), TotalChunks(|file.data|))
        else UploadingFile(file.name)
      ensures (r, backend.Snap()) == UploadSingleOutcome(old(backend.Snap()), otp, file.name, file.data, uuid)
    {
      if UsesChunks(|file.data|) {
        r := UploadChunkedFile(file, otp, uploadId, uuid);
      } else {
        r := UploadSingle(file, otp, uuid);
      }
    }

    /**
     * `uploadFiles`: with no file selected only the message changes. Otherwise a bundle is created
     * and every selected file is uploaded to it in list order; on success the code is shown and the
     * selection cleared. `draw` is the server's random draw, `uuids[j]` the server's UUID for file
     * `j`, and `uploadIds[j]` the client's upload id should file `j` go through the chunked path.
     */
    method UploadFiles(draw: nat, now: int, uuids: seq<string>, uploadIds: seq<string>)
      requires backend.Valid()
      requires draw < Otp.DrawBound
      requires |uuids| == |selectedFiles| == |uploadIds|
      requires forall j :: 0 <= j < |uploadIds| ==>
        uploadIds[j] !in backend.chunks && FreshChunkDir(backend.blobs, uploadIds[j])
      modifies this`selectedFiles, this`uploadMessage, this`uploadedOtp, this`downloadMessage, backend
      ensures backend.Valid()
      ensures old(selectedFiles) == [] ==>
        && uploadMessage == SelectAtLeastOne
        && uploadedOtp == old(uploadedOtp) && downloadMessage == old(downloadMessage)
        && selectedFiles == old(selectedFiles)
        && backend.Snap() == old(backend.Snap())
      ensures old(selectedFiles) != [] && Otp.Format(draw) in old(backend.bundles) ==>
        && uploadMessage == UploadFailed(DuplicateOtp)
        && uploadedOtp == "" && downloadMessage == NoDownloadMessage
        && selectedFiles == old(selectedFiles)
        && backend.Snap() == old(backend.Snap())
      ensures old(selectedFiles) != [] && Otp.Format(draw) !in old(backend.bundles) ==>
        var otp := Otp.Format(draw);
        && uploadMessage == AllComplete
        && uploadedOtp == otp && downloadMessage == NoDownloadMessage
        && selectedFiles == []
        && backend.Snap() == UploadsOutcome(CreateOutcome(old(backend.Snap()), draw, now).1, old(selectedFiles), uuids, otp)
    {
      if |selectedFiles| == 0 {
        uploadMessage := SelectAtLeastOne;
        return;
      }
      uploadMessage := CreatingBundle;
      uploadedOtp := "";
      downloadMessage := NoDownloadMessage;
      var created := backend.CreateSharedBundle(draw, now);
      if created.Err? {
        uploadMessage := UploadFailed(created.error);
        return;
      }
      var otp := created.value;
      UploadAll(selectedFiles, otp, uuids, uploadIds);
      uploadMessage := AllComplete;
      uploadedOtp := otp;
      selectedFiles := [];
    }

    /** The loop of `uploadFiles`: the files go up one after the other, each to the new bundle. */
    method UploadAll(sel: seq<LocalFile>, otp: string, uuids: seq<string>, uploadIds: seq<string>)
      requires backend.Valid() && otp in backend.bundles
      requires |uuids| == |sel| == |uploadIds|
      requires forall j :: 0 <= j < |uploadIds| ==>
        uploadIds[j] !in backend.chunks && FreshChunkDir(backend.blobs, uploadIds[j])
      modifies this`uploadMessage, backend
      ensures backend.Valid()
      ensures backend.Snap() == UploadsOutcome(old(backend.Snap()), sel, uuids, otp)
    {
      ghost var s := backend.Snap();
      var i := 0;
      while i < |sel|
        invariant 0 <= i <= |sel|
        invariant backend.Valid()
        invariant backend.Snap() == UploadsOutcome(s, sel[..i], uuids, otp)
        invariant forall j :: i <= j < |sel| ==> uploadIds[j] !in backend.chunks && FreshChunkDir(backend.blobs, uploadIds[j])
      {
        UploadsStep(s, sel, uuids, otp, i);
        UploadKeepsChunkDirs(backend.Snap(), otp, sel[i].name, sel[i].data, uuids[i]);
        var sent := UploadOne(sel[i], otp, uuids[i], uploadIds[i]);
        i := i + 1;
      }
      assert sel[..i] == sel;
    }

    /**
     * `downloadFile`: a blank code is refused without a request; otherwise the code, as typed (not
     * trimmed), is sent, and the archive comes back or the download fails.
     */
    method DownloadFile(now: int) returns (archive: Option<seq<Entry>>)
      requires backend.Valid()
      modifies this`downloadMessage, this`downloading, this`uploadMessage, this`uploadedOtp, backend
      ensures backend.Valid() && !downloading
      ensures Trim(downloadOtpInput) == [] ==>
        && downloadMessage == EnterValidOtp && archive == None
        && uploadMessage == old(uploadMessage) && uploadedOtp == old(uploadedOtp)
        && backend.Snap() == old(backend.Snap())
      ensures Trim(downloadOtpInput) != [] ==>
        var (r, s') := StreamOutcome(old(backend.Snap()), downloadOtpInput, now);
        && backend.Snap() == s'
        && archive == (if r.Ok? then Some(r.value) else None)
        && downloadMessage == (if r.Ok? then DownloadSuccessful else DownloadFailed)
        && uploadMessage == NoUploadMessage && uploadedOtp == ""
    {
      if Trim(downloadOtpInput) == [] {
        downloadMessage := EnterValidOtp;
        downloading := false;
        return None;
      }
      archive := Fetch(now);
    }

    /** The request of `downloadFile`: the archive on success, the failure message otherwise. */
    method Fetch(now: int) returns (archive: Option<seq<Entry>>)
      requires backend.Valid()
      modifies this`downloadMessage, this`downloading, this`uploadMessage, this`uploadedOtp, backend
      ensures backend.Valid() && !downloading
      ensures var (r, s') := StreamOutcome(old(backend.Snap()), downloadOtpInput, now);
        && backend.Snap() == s'
        && archive == (if r.Ok? then Some(r.value) else None)
        && downloadMessage == (if r.Ok? then DownloadSuccessful else DownloadFailed)
        && uploadMessage == NoUploadMessage && uploadedOtp == ""
    {
      downloadMessage := Downloading;
      uploadMessage := NoUploadMessage;
      uploadedOtp := "";
      var r := backend.StreamZipArchive(downloadOtpInput, now);
      if r.Ok? {
        downloadMessage := DownloadSuccessful;
        archive := Some(r.value);
      } else {
        downloadMessage := DownloadFailed;
        archive := None;
      }
      downloading := false;
    }
  }
}
