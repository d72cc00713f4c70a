# SnapShare file sharing, modelled in Dafny

SnapShare lets a browser user pick files and upload them into a *shared bundle*. The bundle is
identified by a six-digit one-time code (OTP) and lives for five minutes. Files up to 100 MiB go
up in one request. Larger files are cut into 5 MiB chunks: the chunks are sent one by one under a
client-chosen upload id, and the server then *finalizes* the upload by concatenating them in
chunk-index order. Anyone holding the code can download the bundle's files once, as a ZIP archive.
The download deletes the files and the bundle.

The project models two sides of that system.

- **The Spring file service** (`Backend.FileService`). It is a class whose fields are the three
  repositories and the blob store on disk:
  - `bundles`: the bundle table, keyed by code;
  - `files`: the file table, in insertion order;
  - `chunks`: the chunk records, per upload id, in arrival order;
  - `blobs`: a map from path to bytes, standing for the upload and chunk directories.

  Each operation is one method. Each method is proved equal to a pure outcome function, such as
  `Backend.FinalizeOutcome`, that maps the old stores to a result and the new stores. What the
  service promises is proved as lemmas about those outcome functions.
- **The Angular component** (`Frontend.AppComponent`). It holds the selection list, the messages
  and the download field. Its methods drive the service directly:
  - the size dispatch of the upload loop;
  - the chunk loop and the finalize call;
  - `removeFile`;
  - the blank-code guard of the download.

The frontend's promises are proved against the service outcome functions. The central facts:

- a chunked upload of a non-empty file leaves exactly the state a whole-file upload of the same
  bytes would have left (`ChunkedUpload.ChunkedEqualsSingle`), provided the upload directory
  exists (see "Left out");
- after `uploadFiles` the new bundle holds exactly the selected files, in order
  (`Frontend.BundleHoldsSelection`).

Modules:

| file | module | contents |
|---|---|---|
| `common.dfy` | `Common` | bytes, `Option`, `Result`, three small map and sequence identities |
| `otp.dfy` | `Otp` | `String.format("%06d", k)` |
| `entities.dfy` | `Entities` | records, blob paths, service errors, the bundle query and row deletion |
| `chunk_assembly.dfy` | `ChunkAssembly` | the ordered chunk query, the completeness check and the copy loop of `finalizeUpload` |
| `archive.dfy` | `Archive` | the archive entries of a bundle |
| `backend.dfy` | `Backend` | the stores, the outcome functions, their lemmas and the `FileService` class |
| `chunk_plan.dfy` | `ChunkPlan` | the client's size dispatch and the slicing of a file into chunks |
| `chunked_upload.dfy` | `ChunkedUpload` | what a full run of the chunk loop leaves, and what finalize makes of it |
| `app_component.dfy` | `Frontend` | the component class, the selection filter, `trim`, and the upload loop's outcome |

The random OTP draw, the random UUIDs, the upload ids and the clock are parameters of the
operations that use them.

## Model

Source paths are relative to the repository root:

- `FileService.java` stands for `backend/src/main/java/com/brian/file_sharing_app/service/FileService.java`;
- `app.component.ts` stands for `frontend/src/app/app.component.ts`.

The cells below use the full paths.

| member | source | states |
|---|---|---|
| Otp.PadDecimal | backend/src/main/java/com/brian/file_sharing_app/service/FileService.java:51 | for a number of at most `w` digits, `%0<w>d` yields exactly `w` decimal digits |
| Otp.PadDecimalRoundTrip | backend/src/main/java/com/brian/file_sharing_app/service/FileService.java:51 | reading the padded digits back gives the number whenever it fits the width (leading zeros included) |
| Otp.Format | backend/src/main/java/com/brian/file_sharing_app/service/FileService.java:51 | the code of draw `k < 999999` is six decimal digits whose value is `k`, which the six-character code column requires |
| Otp.FormatInjective | backend/src/main/java/com/brian/file_sharing_app/service/FileService.java:51 | two draws give the same code if and only if they are equal; `nextInt(999999)` never yields the code `999999` |
| Entities.FilesOf | backend/src/main/java/com/brian/file_sharing_app/repository/FileRepository.java:12 | the bundle query returns exactly the records that reference the bundle, and no more than there are |
| Entities.FilesOfNone | backend/src/main/java/com/brian/file_sharing_app/repository/FileRepository.java:12 | a bundle that no record references has no files |
| Entities.FilesOfAppend | backend/src/main/java/com/brian/file_sharing_app/repository/FileRepository.java:12 | the query distributes over appended records, so later saves come after earlier ones |
| Entities.FilesOfAll | backend/src/main/java/com/brian/file_sharing_app/repository/FileRepository.java:12 | records that all reference the bundle come back unchanged, in insertion order |
| Entities.FilesNotOf | backend/src/main/java/com/brian/file_sharing_app/service/FileService.java:166-169 | what remains after deleting a bundle's files: exactly the records of other bundles; see `FilesOfNotOf` |
| Entities.FilesOfNotOf | backend/src/main/java/com/brian/file_sharing_app/service/FileService.java:166-169 | after one bundle's records are deleted, every other bundle's query returns the same records as before, in the same order and with the same repeats |
| Entities.Remove | backend/src/main/java/com/brian/file_sharing_app/service/FileService.java:168 | deleting a set of rows keeps exactly the records outside the set |
| Entities.RemoveNothing | backend/src/main/java/com/brian/file_sharing_app/service/FileService.java:166-169 | deleting no rows leaves the table as it is |
| Entities.RemoveTwice | backend/src/main/java/com/brian/file_sharing_app/service/FileService.java:166-169 | deleting one more row after a batch equals deleting both at once |
| Entities.RemoveAppend | backend/src/main/java/com/brian/file_sharing_app/service/FileService.java:166-169 | deletion distributes over concatenation |
| Entities.RemoveBundleFiles | backend/src/main/java/com/brian/file_sharing_app/service/FileService.java:166-169 | deleting every record of a bundle leaves the other bundles' records, in order |
| Entities.RemoveSame | backend/src/main/java/com/brian/file_sharing_app/service/FileService.java:166-169 | only the dropped rows that are present affect deletion |
| ChunkAssembly.Insert | backend/src/main/java/com/brian/file_sharing_app/repository/ChunkedFileRepository.java:8 | inserting a record into a list sorted by index keeps it sorted and adds exactly that record |
| ChunkAssembly.SortByIndex | backend/src/main/java/com/brian/file_sharing_app/repository/ChunkedFileRepository.java:8 | the ordered chunk query is sorted by ascending chunk index and is a permutation of the staged records |
| ChunkAssembly.InsertLargest | backend/src/main/java/com/brian/file_sharing_app/repository/ChunkedFileRepository.java:8 | a record with the largest index goes to the end |
| ChunkAssembly.SortSorted | backend/src/main/java/com/brian/file_sharing_app/repository/ChunkedFileRepository.java:8 | records that already arrive in index order come back unchanged |
| ChunkAssembly.SortedUnique | backend/src/main/java/com/brian/file_sharing_app/repository/ChunkedFileRepository.java:8 | a sorted list with the same contents as a strictly sorted list is that list |
| ChunkAssembly.SortOfPermutation | backend/src/main/java/com/brian/file_sharing_app/repository/ChunkedFileRepository.java:8 | chunks that arrive in any order, one per index, come out in index order |
| ChunkAssembly.CopyableRun | backend/src/main/java/com/brian/file_sharing_app/service/FileService.java:124-128 | from a given position, the copy loop gets through exactly the following run of copyable chunks |
| ChunkAssembly.FirstUncopyable | backend/src/main/java/com/brian/file_sharing_app/service/FileService.java:124-128 | the loop copies every chunk before the stop; at the stop, the chunk's blob is absent or was deleted by an earlier copy of the same path |
| ChunkAssembly.CountMatches | backend/src/main/java/com/brian/file_sharing_app/service/FileService.java:118 | the completeness check: there are records, and their number equals the total of the first one |
| ChunkAssembly.ConcatBlobs | backend/src/main/java/com/brian/file_sharing_app/service/FileService.java:124-126 | the bytes the copy loop appends: the chunk blobs in list order |
| ChunkAssembly.AfterCopy | backend/src/main/java/com/brian/file_sharing_app/service/FileService.java:122-129 | the blob store after the copy loop: the target holds the copied prefix, whose chunk blobs are deleted; see `Backend.FileService.CopyChunks` |
| ChunkAssembly.Planned | frontend/src/app/app.component.ts:126-145 | a complete upload stages one record per index `0 .. total-1`, each carrying the file name and the total |
| ChunkAssembly.PlannedAssembles | backend/src/main/java/com/brian/file_sharing_app/service/FileService.java:117-128 | a complete upload is strictly sorted, passes the count check and is copied to the end |
| ChunkAssembly.ResentChunkPassesCountCheck | backend/src/main/java/com/brian/file_sharing_app/service/FileService.java:118 | the check counts records only: chunk 0 sent twice for a two-chunk file passes it, and the copy loop then stops at the second record |
| Archive.ArchiveOf | backend/src/main/java/com/brian/file_sharing_app/service/FileService.java:155-163 | the archive has no more entries than there are records; each entry is a stored file's name and bytes, and every stored file gives its entry |
| Archive.StoredFiles | backend/src/main/java/com/brian/file_sharing_app/service/FileService.java:155-157 | the records the loop writes: exactly those whose blob exists, in order |
| Archive.DistinctNames | backend/src/main/java/com/brian/file_sharing_app/service/FileService.java:158-159 | `putNextEntry` refuses a name already in the archive; the download succeeds only when this holds (`StreamRejects`, `StreamConsumes`) |
| Archive.ArchiveSkipsMissing | backend/src/main/java/com/brian/file_sharing_app/service/FileService.java:155-163 | skipping records whose blob is gone: the archive equals the archive of the stored records alone |
| Archive.ArchiveEntries | backend/src/main/java/com/brian/file_sharing_app/service/FileService.java:155-163 | whether or not blobs are missing, entry `i` is the `i`-th stored record's name and exact bytes, and there are as many entries as stored records |
| Archive.ArchiveOfAppend | backend/src/main/java/com/brian/file_sharing_app/service/FileService.java:155-163 | the archive of two runs of records is the first run's archive followed by the second's |
| Archive.RepeatInPrefix | backend/src/main/java/com/brian/file_sharing_app/service/FileService.java:158-159 | a repeated entry name among the first records makes the whole archive fail |
| Archive.ExtendNames | backend/src/main/java/com/brian/file_sharing_app/service/FileService.java:158-159 | adding an entry keeps the names distinct if and only if the name is new |
| Archive.ArchiveOfStored | backend/src/main/java/com/brian/file_sharing_app/service/FileService.java:155-163 | when every blob is stored, entry `i` is file `i`'s name and exact bytes |
| Archive.ArchiveStep | backend/src/main/java/com/brian/file_sharing_app/service/FileService.java:155-163 | one more record adds its entry, with its name and bytes, exactly when its blob exists |
| Archive.RepeatedNameRefused | backend/src/main/java/com/brian/file_sharing_app/service/FileService.java:158-159 | when every blob is stored, two records with the same file name make the archive writer refuse |
| Backend.ChunksInOrder | backend/src/main/java/com/brian/file_sharing_app/service/FileService.java:117 | the records finalize reads are sorted by index and are exactly the staged records of the upload |
| Backend.CreateOutcome | backend/src/main/java/com/brian/file_sharing_app/service/FileService.java:50-59 | the result and new stores of `createSharedBundle`; its properties are those of `CreateAddsEmptyBundle` |
| Backend.UploadSingleOutcome | backend/src/main/java/com/brian/file_sharing_app/service/FileService.java:63-84 | the result and new stores of `uploadSingleFile`; see `UploadSingleAddsOneFile` |
| Backend.UploadChunkOutcome | backend/src/main/java/com/brian/file_sharing_app/service/FileService.java:87-108 | the result and new stores of `uploadChunk`; see `UploadChunkStagesOne` |
| Backend.FinalizeOutcome | backend/src/main/java/com/brian/file_sharing_app/service/FileService.java:111-140 | the result and new stores of `finalizeUpload`, including the partial effects of a copy that stops; see `FinalizeRejects`, `FinalizeAssembles`, `FinalizeStops` |
| Backend.Live | backend/src/main/java/com/brian/file_sharing_app/service/FileService.java:145-146 | the bundle exists and its expiry is strictly after now |
| Backend.StreamOutcome | backend/src/main/java/com/brian/file_sharing_app/service/FileService.java:144-172 | the result and new stores of `streamZipArchive`; see `StreamRejects`, `StreamConsumes` |
| Backend.CreateAddsEmptyBundle | backend/src/main/java/com/brian/file_sharing_app/service/FileService.java:50-59 | the call fails (`DuplicateOtp`, nothing changed) exactly when the code is taken; otherwise the new bundle has six digits, value = draw, expiry = now + 300 s, no files, and nothing else changes |
| Backend.UploadSingleAddsOneFile | backend/src/main/java/com/brian/file_sharing_app/service/FileService.java:63-84 | an unknown code gives `InvalidOtp` and changes nothing; a known code appends one record to the bundle and writes the bytes to `<uuid>_<name>`, adding exactly that path; a fresh UUID overwrites no blob |
| Backend.UploadChunkStagesOne | backend/src/main/java/com/brian/file_sharing_app/service/FileService.java:87-108 | an unknown code changes nothing; otherwise the chunk blob is written (a re-sent index overwrites it), one record is staged after the others, and other uploads are untouched |
| Backend.StagedPathsInChunkDir | backend/src/main/java/com/brian/file_sharing_app/service/FileService.java:98 | the staged records point into the chunk directory |
| Backend.FinalizeRejects | backend/src/main/java/com/brian/file_sharing_app/service/FileService.java:111-120 | an unknown code gives `InvalidOtp` and a missing or mismatched record count gives `MissingChunks`, both changing nothing; an upload with no records always gives `MissingChunks` |
| Backend.FinalizeAssembles | backend/src/main/java/com/brian/file_sharing_app/service/FileService.java:111-140 | when all chunk blobs are there: the new blob holds the chunks' bytes in ascending index order, every chunk blob and record is gone, every other blob and every other upload's records are unchanged, one file named after chunk 0 joins the bundle, and a second finalize fails |
| Backend.FinalizeStops | backend/src/main/java/com/brian/file_sharing_app/service/FileService.java:122-129 | when a chunk blob is missing at its turn: the error names that path, the final blob holds the chunks copied so far, those chunk blobs are deleted, every other blob is unchanged, and the tables are unchanged |
| Backend.StreamRejects | backend/src/main/java/com/brian/file_sharing_app/service/FileService.java:144-164 | an unknown or expired code (`InvalidOrExpiredOtp`) or a repeated entry name changes nothing |
| Backend.StreamConsumes | backend/src/main/java/com/brian/file_sharing_app/service/FileService.java:144-172 | a live bundle yields its archive; its bundle, records and blobs are deleted, every other bundle's query returns exactly what it returned before (same records, same order), every blob outside the bundle's paths keeps its bytes, the staged chunks stay, and a second download fails |
| Backend.StreamReturnsStored | backend/src/main/java/com/brian/file_sharing_app/service/FileService.java:152-163 | a live bundle's download returns one entry per file whose blob still exists, in order: entry `i` is the `i`-th such file's name and exact bytes |
| Backend.StreamRefusesRepeatedName | backend/src/main/java/com/brian/file_sharing_app/service/FileService.java:154-163 | a bundle with two stored files of the same name: every download fails (expired, or on the duplicate entry) and changes nothing |
| Backend.CreateKeepsValid | backend/src/main/java/com/brian/file_sharing_app/service/FileService.java:50-59 | creating a bundle keeps codes as six-digit keys |
| Backend.UploadSingleKeepsValid | backend/src/main/java/com/brian/file_sharing_app/service/FileService.java:79-83 | every file record still references an existing bundle |
| Backend.UploadChunkKeepsValid | backend/src/main/java/com/brian/file_sharing_app/service/FileService.java:98-107 | chunk records still point into the chunk directory |
| Backend.FinalizeKeepsValid | backend/src/main/java/com/brian/file_sharing_app/service/FileService.java:133-139 | the finalized file references an existing bundle |
| Backend.StreamKeepsValid | backend/src/main/java/com/brian/file_sharing_app/service/FileService.java:166-171 | no remaining file record references the deleted bundle |
| Backend.FileService.constructor | backend/src/main/java/com/brian/file_sharing_app/service/FileService.java:33-46 | the service starts with empty stores |
| Backend.FileService.CreateSharedBundle | backend/src/main/java/com/brian/file_sharing_app/service/FileService.java:50-59 | the method's result and new stores are `CreateOutcome`'s, and validity is kept |
| Backend.FileService.UploadSingleFile | backend/src/main/java/com/brian/file_sharing_app/service/FileService.java:63-84 | the method's result and new stores are `UploadSingleOutcome`'s |
| Backend.FileService.UploadChunk | backend/src/main/java/com/brian/file_sharing_app/service/FileService.java:87-108 | the method's result and new stores are `UploadChunkOutcome`'s |
| Backend.FileService.FinalizeUpload | backend/src/main/java/com/brian/file_sharing_app/service/FileService.java:111-120 | the method's result and new stores are `FinalizeOutcome`'s |
| Backend.FileService.Assemble | backend/src/main/java/com/brian/file_sharing_app/service/FileService.java:122-140 | given the records of the one ordered query, after the checks pass, the copy, the new record and the record deletion give `FinalizeOutcome`'s result and stores |
| Backend.FileService.CopyChunks | backend/src/main/java/com/brian/file_sharing_app/service/FileService.java:122-129 | the copy loop stops at `FirstUncopyable` and leaves the blob store `AfterCopy` describes |
| Backend.FileService.StreamZipArchive | backend/src/main/java/com/brian/file_sharing_app/service/FileService.java:144-172 | the method's result and new stores are `StreamOutcome`'s |
| Backend.FileService.WriteArchive | backend/src/main/java/com/brian/file_sharing_app/service/FileService.java:154-164 | the ZIP loop succeeds exactly when the entry names are distinct, and then returns `ArchiveOf` |
| Backend.FileService.DeleteFiles | backend/src/main/java/com/brian/file_sharing_app/service/FileService.java:166-169 | the delete loop removes exactly the files' blobs and rows |
| Backend.FileService.Consume | backend/src/main/java/com/brian/file_sharing_app/service/FileService.java:166-171 | the end of the download: the bundle is gone, the file table loses exactly the bundle's records, and the blob store loses exactly their paths |
| Backend.CopyStopsHere | backend/src/main/java/com/brian/file_sharing_app/service/FileService.java:126 | a copy that finds no blob is the first chunk that cannot be copied |
| Backend.CopyGoesOn | backend/src/main/java/com/brian/file_sharing_app/service/FileService.java:125-127 | one successful copy appends the chunk's bytes and deletes its path |
| ChunkPlan.DispatchBoundary | frontend/src/app/app.component.ts:86-93 | exactly 100 MiB takes the single-request path; one byte more takes the chunked path, in 21 chunks |
| ChunkPlan.UsesChunks | frontend/src/app/app.component.ts:86-89 | the dispatch test: strictly more than 100 MiB |
| ChunkPlan.TotalChunks | frontend/src/app/app.component.ts:122 | `ceil(size / 5 MiB)`: the fewest 5 MiB chunks that cover the file, and zero only for an empty file |
| ChunkPlan.Chunk | frontend/src/app/app.component.ts:127 | every slice the loop sends is non-empty and at most 5 MiB |
| ChunkPlan.Chunks | frontend/src/app/app.component.ts:126-127 | the loop sends `TotalChunks` slices, slice `i` being `Chunk(data, i)` |
| ChunkPlan.ChunkShape | frontend/src/app/app.component.ts:127 | every slice but the last is full, the last holds the rest, and slice `i` starts at byte `i * 5 MiB` |
| ChunkPlan.FlattenPrefix | frontend/src/app/app.component.ts:126-127 | the first `k` slices, joined, are the file's first `k * 5 MiB` bytes |
| ChunkPlan.ChunksCover | frontend/src/app/app.component.ts:126-127 | the slices, joined in index order, are exactly the file |
| ChunkPlan.Flatten | frontend/src/app/app.component.ts:126-127 | the slices joined end to end, the reference that `FlattenPrefix` and `ChunksCover` compare with the file |
| ChunkedUpload.StagedChunksHeld | backend/src/main/java/com/brian/file_sharing_app/service/FileService.java:98-99 | each sent slice is stored under its own index |
| ChunkedUpload.StageBlobs | backend/src/main/java/com/brian/file_sharing_app/service/FileService.java:98-99 | the blob store after the first `n` slices were written as chunk blobs; see `StagedChunksHeld`, `StageKeepsUploads`, `StageThenDrop` |
| ChunkedUpload.StageKeepsUploads | backend/src/main/java/com/brian/file_sharing_app/service/FileService.java:98-99 | staging chunks never creates a blob in the upload directory, so a UUID stays fresh |
| ChunkedUpload.StageThenDrop | backend/src/main/java/com/brian/file_sharing_app/service/FileService.java:127 | staging into a fresh chunk directory and deleting the planned chunk blobs restores the store |
| ChunkedUpload.ConcatPlannedPrefix | backend/src/main/java/com/brian/file_sharing_app/service/FileService.java:124-128 | the first `k` staged chunk blobs, concatenated, are the first `k` slices joined |
| ChunkedUpload.CompleteRunChecks | backend/src/main/java/com/brian/file_sharing_app/service/FileService.java:117-128 | a full chunk run comes back from the query in index order, passes the count check, and can be copied to the end |
| ChunkedUpload.CompleteRunFinalizes | backend/src/main/java/com/brian/file_sharing_app/service/FileService.java:122-129 | copying a full run writes exactly the file's bytes to the target and leaves no chunk blob |
| ChunkedUpload.SendNextChunk | frontend/src/app/app.component.ts:126-138 | sending slice `i` to a known bundle stages it after the first `i` |
| ChunkedUpload.AfterChunks | frontend/src/app/app.component.ts:126-145 | the stores after the first `i` slices were sent under a fresh upload id; `SendNextChunk` relates it to `uploadChunk` |
| ChunkedUpload.ChunkedEqualsSingle | frontend/src/app/app.component.ts:120-152 | sending every slice of a non-empty file, then finalizing, gives the same result and stores as a single-request upload of the file |
| ChunkedUpload.EmptyFileFinalizes | frontend/src/app/app.component.ts:122-147 | an empty file sends no chunk, and finalize fails with `MissingChunks` (or `InvalidOtp`) without changing anything |
| Frontend.LocalFile.constructor | frontend/src/app/app.component.ts:107-110 | the browser `File` object the upload code reads: its `name`, and its bytes (`size`, `slice`, the form data) |
| Frontend.Without | frontend/src/app/app.component.ts:53-55 | the filtered list no longer holds the removed file, holds only files from the list, and keeps every other file |
| Frontend.WithoutAppend | frontend/src/app/app.component.ts:54 | the filter distributes over concatenation, so kept files stay in order |
| Frontend.WithoutCounts | frontend/src/app/app.component.ts:54 | every occurrence of the file goes, and every other file keeps its number of occurrences |
| Frontend.WithoutAbsent | frontend/src/app/app.component.ts:54 | removing a file that is not selected changes nothing |
| Frontend.TrimStart | frontend/src/app/app.component.ts:168 | strips exactly the leading white space |
| Frontend.TrimEnd | frontend/src/app/app.component.ts:168 | strips exactly the trailing white space |
| Frontend.IsJsWhitespace | frontend/src/app/app.component.ts:168 | the characters `String.prototype.trim` strips (white space and line terminators), the set `TrimStart`, `TrimEnd` and `TrimStrips` are stated over |
| Frontend.Trim | frontend/src/app/app.component.ts:168 | `trim` as the composition of the two; see `TrimStrips` |
| Frontend.TrimStrips | frontend/src/app/app.component.ts:168 | `trim` keeps the slice of the input after its leading white space and before its trailing white space; the slice neither starts nor ends with white space, and everything cut off is white space |
| Frontend.TrimEmptyIffBlank | frontend/src/app/app.component.ts:168-172 | the guard fires if and only if the input is all white space |
| Frontend.DigitsTrimmed | frontend/src/app/app.component.ts:168 | a six-digit code has nothing to trim |
| Frontend.PaddedCodeRefused | frontend/src/app/app.component.ts:168-178 | a code that `trim` would change is never a bundle's code, so when it reaches the service as typed the download is refused and nothing changes |
| Frontend.Uploaded | frontend/src/app/app.component.ts:88-94 | the upload loop adds one record per selected file, in order, each under its own UUID and the bundle's code |
| Frontend.UploadedRepeat | frontend/src/app/app.component.ts:88-94 | two selected files with the same name give two upload records with that file name, at the same positions |
| Frontend.StoredUploads | frontend/src/app/app.component.ts:88-94 | the blob store after the upload loop, the reference definition for `StoredUploadsHold` and `StoredUploadsKeep` |
| Frontend.StoredUploadsHold | frontend/src/app/app.component.ts:88-94 | with distinct UUIDs, each uploaded blob holds its own file's bytes |
| Frontend.StoredUploadsKeep | frontend/src/app/app.component.ts:88-94 | with fresh UUIDs, the uploads keep every blob that existed before |
| Frontend.UploadsStep | frontend/src/app/app.component.ts:88-94 | one more pass of the loop is one more single upload |
| Frontend.UploadsOutcome | frontend/src/app/app.component.ts:88-94 | the stores after every selected file went up whole; `UploadsStep` relates it to `uploadSingleFile` |
| Frontend.BundleHoldsSelection | frontend/src/app/app.component.ts:72-98 | after a successful `uploadFiles`, the new bundle's files are exactly the selection, in order, each blob holding its file's bytes, and no earlier blob is lost |
| Frontend.DuplicateNamesBlockDownload | backend/src/main/java/com/brian/file_sharing_app/service/FileService.java:154-163 | two selected files with the same name make the new bundle undownloadable: every download of it fails (as expired, or on the duplicate ZIP entry) and changes nothing |
| Frontend.AppComponent.constructor | frontend/src/app/app.component.ts:13-27 | the component starts with no selection, no messages and no download in progress |
| Frontend.AppComponent.RemoveFile | frontend/src/app/app.component.ts:53-55 | the selection becomes `Without(old selection, f)` |
| Frontend.AppComponent.UploadSingle | frontend/src/app/app.component.ts:107-118 | shows `Uploading "<name>"...`, and the service's result and stores are `UploadSingleOutcome`'s |
| Frontend.AppComponent.UploadChunkedFile | frontend/src/app/app.component.ts:120-152 | an unknown code fails with `InvalidOtp` and changes nothing; an empty file fails with `MissingChunks`; otherwise the result and stores are those of a single-request upload; the message matches each case |
| Frontend.AppComponent.SendChunks | frontend/src/app/app.component.ts:126-145 | the loop fails exactly when the code is unknown and there is a chunk to send; it then shows the chunk-failure message and changes nothing; otherwise every slice is staged in order and the last progress message is shown |
| Frontend.AppComponent.UploadOne | frontend/src/app/app.component.ts:88-94 | a file above 100 MiB takes the chunked path (its last chunk message is shown), any other the single-request path; either way the result and stores are those of a single-request upload |
| Frontend.AppComponent.UploadFiles | frontend/src/app/app.component.ts:72-105 | with no selection: the prompt, and nothing changes; a taken code: `Upload failed` and the service unchanged; otherwise `All uploads complete`, the code is shown, the selection is cleared, and the stores are the new bundle plus every selected file |
| Frontend.AppComponent.UploadAll | frontend/src/app/app.component.ts:88-94 | the loop leaves the stores `UploadsOutcome` describes: one single upload per selected file, in order |
| Frontend.AppComponent.DownloadFile | frontend/src/app/app.component.ts:167-207 | a blank input shows the prompt and sends nothing; otherwise the raw input goes to `streamZipArchive`, the stores become `StreamOutcome`'s, and the message reports success or failure; `downloading` ends false either way |
| Frontend.AppComponent.Fetch | frontend/src/app/app.component.ts:174-206 | the request part of `downloadFile`: the upload fields are cleared, the archive is returned on success, and a failure shows the failure message |

## Left out

- Blob paths are a datatype (`UploadBlob(uuid, name)`, `ChunkBlob(uploadId, index, name)`), not strings. This assumes the upload and chunk directories differ and names contain no path separators; path collisions through crafted names are not modelled.
- Directory handling is not modelled: `createDirectories` and the `deleteIfExists` of the chunk directory after finalize. Only blobs are modelled.
- The model assumes the upload directory exists. In the source only `uploadSingleFile` creates it (FileService.java:69-72); `finalizeUpload` opens its target there without creating it (FileService.java:122-123). So on a server that has never taken a whole-file upload, a chunked upload fails at finalize with `NoSuchFileException`, and its chunk records and chunk blobs stay. `ChunkedUpload.ChunkedEqualsSingle` and `Backend.FinalizeAssembles` do not cover that case.
- `Otp.Format` prints ASCII digits. `String.format` uses the default locale's zero digit, so a locale whose digits are not ASCII would print other characters; that case is not modelled.
- Streaming I/O is not modelled: bytes are whole values, and the partially written ZIP a failing download has already sent is not modelled. A duplicate entry name is an error that changes nothing, because the exception leaves the archive block before the delete loop and the bundle deletion are reached.
- The ZIP encoding itself is not modelled; the archive is its list of entries.
- Concurrency, Spring transactions and rollback are not modelled. Each operation is atomic, except that a failed finalize keeps the blob changes its copy loop made, as the file system does.
- `Math.ceil`, the `/` and `slice` of TypeScript work on exact integers. File sizes are far below 2^53, so nothing is lost.
- Network and transport failures are not modelled. Neither is the catch of `uploadFiles` for a per-file failure: once a fresh bundle exists, every single upload and chunk succeeds, so that branch cannot be reached in the model.
- The HTTP controller (`FileController.java`) is not part of this model. It calls `createZipArchive`, which the service does not define, so the component calls the service methods directly.
- The browser's URL parsing of the download request is not modelled: the input is sent to the service as typed. A real browser strips trailing spaces and removes tabs and newlines from the URL, so a code with only trailing white space can still succeed; `Frontend.PaddedCodeRefused` holds for what reaches the service.
- The UI parts are not modelled: the `showDownloadSection` and `progress` fields, `getFileSize` and `getTotalSize`, `startDownload`'s progress timer, `onFileSelected`, `onFileDrop`, `triggerFileSelect`, the DOM, reading the file name from `Content-Disposition`, and `BACKEND_URL`.
- Messages are tags, not formatted strings; the chunk counter message keeps the index and the total.
- Randomness and the clock are parameters: the `nextInt` draw, the UUIDs, the client upload ids, `Date.now()` and `LocalDateTime.now()`. Time is an integer number of seconds.
- The `createdAt` timestamp of a file record is not modelled; a bundle keeps its `createdAt`.
- The bundle's file query (`findBySharedBundle`) has no ordering clause; the model returns the records in insertion order, which the database does not guarantee. `Entities.FilesOf` and the archive order rest on this assumption.
- The repository query for chunks is a stable insertion sort: records with the same index keep their arrival order. The real database guarantees no order for ties.
- `Frontend.AppComponent.UploadFiles` and `Frontend.AppComponent.UploadChunkedFile` require fresh upload ids, which the client's `Date.now()` and `Math.random()` choose.
- `Frontend.BundleHoldsSelection` and `Backend.UploadSingleAddsOneFile` state the no-overwrite part only under distinct, fresh UUIDs, as a random UUID is in practice.
- Behaviour modelled as the code has it, with no extra guard added:
  - finalize checks neither distinct indices nor a consistent total, so a re-sent chunk passes the count check, as `ChunkAssembly.ResentChunkPassesCountCheck` shows;
  - uploads do not check the bundle's expiry;
  - an OTP collision is not retried; it fails on the unique column.
