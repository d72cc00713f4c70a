/**
 * What a complete run of the client's chunk loop leaves on the server, and why the server's
 * `finalizeUpload` then rebuilds exactly the file that was cut up.
 */
module ChunkedUpload {
  import opened Common
  import opened Entities
  import opened ChunkAssembly
  import opened ChunkPlan
  import opened Backend

  /** The blob store after the first `n` slices of `data` were stored as chunk blobs of `uploadId`. */
  function StageBlobs(store: map<BlobPath, Bytes>, uploadId: string, name: string, data: Bytes, n: nat)
    : (r: map<BlobPath, Bytes>)
    requires n <= TotalChunks(|data|)
  {
    if n == 0 then store
    else StageBlobs(store, uploadId, name, data, n - 1)[ChunkBlob(uploadId, n - 1, name) := Chunk(data, n - 1)]
  }

  /** Each staged slice is held under its own index. */
  lemma {:induction false} StagedChunksHeld(store: map<BlobPath, Bytes>, uploadId: string, name: string, data: Bytes, n: nat)
    requires n <= TotalChunks(|data|)
    ensures forall i :: 0 <= i < n ==>
      && ChunkBlob(uploadId, i, name) in StageBlobs(store, uploadId, name, data, n)
      && StageBlobs(store, uploadId, name, data, n)[ChunkBlob(uploadId, i, name)] == Chunk(data, i)
  {
    if n > 0 {
      StagedChunksHeld(store, uploadId, name, data, n - 1);
    }
  }

  /** Staging chunk blobs does not name any blob of the upload directory. */
  lemma {:induction false} StageKeepsUploads(store: map<BlobPath, Bytes>, uploadId: string, name: string, data: Bytes, n: nat, uuid: string)
    requires n <= TotalChunks(|data|)
    requires FreshUuid(store, uuid)
    ensures FreshUuid(StageBlobs(store, uploadId, name, data, n), uuid)
  {
    if n > 0 {
      StageKeepsUploads(store, uploadId, name, data, n - 1, uuid);
    }
  }

  /** Staging into a fresh chunk directory and deleting the planned chunk blobs restores the store. */
  lemma {:induction false} StageThenDrop(store: map<BlobPath, Bytes>, uploadId: string, name: string, data: Bytes, n: nat)
    requires FreshChunkDir(store, uploadId)
    requires n <= TotalChunks(|data|)
    ensures StageBlobs(store, uploadId, name, data, n) - ChunkPaths(Planned(uploadId, name, TotalChunks(|data|))) == store
  {
    var paths := ChunkPaths(Planned(uploadId, name, TotalChunks(|data|)));
    if n == 0 {
      assert forall p :: p in store ==> p !in paths;
    } else {
      StageThenDrop(store, uploadId, name, data, n - 1);
      assert Planned(uploadId, name, TotalChunks(|data|))[n - 1].filePath == ChunkBlob(uploadId, n - 1, name);
      assert ChunkBlob(uploadId, n - 1, name) in paths;
    }
  }

  /** The first `k` planned chunk blobs, concatenated, are the first `k` slices joined. */
  lemma {:induction false} ConcatPlannedPrefix(store: map<BlobPath, Bytes>, uploadId: string, name: string, data: Bytes, k: nat)
    requires k <= TotalChunks(|data|)
    requires forall i :: 0 <= i < TotalChunks(|data|) ==>
      ChunkBlob(uploadId, i, name) in store && store[ChunkBlob(uploadId, i, name)] == Chunk(data, i)
    ensures AllStored(Planned(uploadId, name, TotalChunks(|data|))[..k], store)
    ensures ConcatBlobs(Planned(uploadId, name, TotalChunks(|data|))[..k], store) == Flatten(Chunks(data)[..k])
  {
    var ps, cs := Planned(uploadId, name, TotalChunks(|data|)), Chunks(data);
    if k > 0 {
      ConcatPlannedPrefix(store, uploadId, name, data, k - 1);
      assert ps[..k][..k - 1] == ps[..k - 1];
      assert cs[..k][..k - 1] == cs[..k - 1];
    }
  }

  /**
   * A file cut into its slices, all staged under a fresh upload id, passes the server's count check,
   * comes out of the query in index order and can be copied to the end.
   */
  lemma CompleteRunChecks(store: map<BlobPath, Bytes>, uploadId: string, name: string, data: Bytes)
    requires |data| > 0
    ensures var total := TotalChunks(|data|);
      var cs := Planned(uploadId, name, total);
      && SortByIndex(cs) == cs
      && CountMatches(cs)
      && FirstUncopyable(cs, StageBlobs(store, uploadId, name, data, total)) == total
  {
    var total := TotalChunks(|data|);
    StagedChunksHeld(store, uploadId, name, data, total);
    PlannedAssembles(uploadId, name, total, StageBlobs(store, uploadId, name, data, total));
    SortSorted(Planned(uploadId, name, total));
  }

  /**
   * Copying every staged slice reassembles exactly the file's bytes, and the staged chunk blobs are
   * all gone afterwards.
   */
  lemma CompleteRunFinalizes(store: map<BlobPath, Bytes>, uploadId: string, name: string, data: Bytes, target: BlobPath)
    requires FreshChunkDir(store, uploadId) && target.UploadBlob?
    requires |data| > 0
    ensures var total := TotalChunks(|data|);
      AfterCopy(Planned(uploadId, name, total), StageBlobs(store, uploadId, name, data, total), target)
        == store[target := data]
  {
    var total := TotalChunks(|data|);
    var staged := StageBlobs(store, uploadId, name, data, total);
    var cs := Planned(uploadId, name, total);
    CompleteRunChecks(store, uploadId, name, data);
    StagedChunksHeld(store, uploadId, name, data, total);
    ConcatPlannedPrefix(staged, uploadId, name, data, total);
    TakeAll(cs);
    TakeAll(Chunks(data));
    ChunksCover(data);
    StageThenDrop(store, uploadId, name, data, total);
  }

  /** The service's stores after the client sent the first `i` slices of `data` under a fresh upload id. */
  function AfterChunks(s: Snapshot, uploadId: string, name: string, data: Bytes, i: nat): (s': Snapshot)
    requires i <= TotalChunks(|data|)
    ensures s'.bundles == s.bundles && s'.files == s.files
  {
    if i == 0 then s
    else s.(chunks := s.chunks[uploadId := Planned(uploadId, name, TotalChunks(|data|))[..i]],
            blobs := StageBlobs(s.blobs, uploadId, name, data, i))
  }

  /** Sending slice `i` to a known bundle stores it and stages its record after the earlier ones. */
  lemma SendNextChunk(s: Snapshot, otp: string, uploadId: string, name: string, data: Bytes, i: nat)
    requires otp in s.bundles && uploadId !in s.chunks
    requires i < TotalChunks(|data|)
    ensures UploadChunkOutcome(AfterChunks(s, uploadId, name, data, i), otp, Chunk(data, i), name, i,
                               TotalChunks(|data|), uploadId)
      == (Ok(()), AfterChunks(s, uploadId, name, data, i + 1))
  {
    var plan := Planned(uploadId, name, TotalChunks(|data|));
    var before := AfterChunks(s, uploadId, name, data, i);
    assert Staged(before, uploadId) == plan[..i];
    assert plan[..i + 1] == plan[..i] + [plan[i]];
    assert StageBlobs(s.blobs, uploadId, name, data, i + 1) == before.blobs[ChunkBlob(uploadId, i, name) := Chunk(data, i)];
    assert plan[i] == ChunkRecord(name, ChunkBlob(uploadId, i, name), i, TotalChunks(|data|));
    assert before.chunks[uploadId := plan[..i + 1]] == s.chunks[uploadId := plan[..i + 1]];
  }

  /**
   * A positive-size file whose slices were all sent under a fresh upload id is finalized into the
   * state a single-request upload of the same file would have left: one file record and one blob
   * holding exactly its bytes, with no chunk blob or record left behind.
   */
  lemma ChunkedEqualsSingle(s: Snapshot, otp: string, uploadId: string, name: string, data: Bytes, uuid: string)
    requires otp in s.bundles && uploadId !in s.chunks && FreshChunkDir(s.blobs, uploadId)
    requires |data| > 0
    ensures FinalizeOutcome(AfterChunks(s, uploadId, name, data, TotalChunks(|data|)), otp, uploadId, uuid)
      == UploadSingleOutcome(s, otp, name, data, uuid)
  {
    var total := TotalChunks(|data|);
    var plan := Planned(uploadId, name, total);
    var target := UploadBlob(uuid, name);
    var t := AfterChunks(s, uploadId, name, data, total);
    TakeAll(plan);
    assert t.chunks == s.chunks[uploadId := plan];
    assert t.blobs == StageBlobs(s.blobs, uploadId, name, data, total);
    CompleteRunChecks(s.blobs, uploadId, name, data);
    CompleteRunFinalizes(s.blobs, uploadId, name, data, target);
    var cs := ChunksInOrder(t, uploadId);
    assert cs == plan;
    assert cs[0].fileName == name;
    UpdateThenRemove(s.chunks, uploadId, plan);
  }

  /** An empty file sends no chunk, and finalize then finds no records. */
  lemma EmptyFileFinalizes(s: Snapshot, otp: string, uploadId: string, uuid: string)
    requires uploadId !in s.chunks
    ensures FinalizeOutcome(s, otp, uploadId, uuid)
      == (if otp in s.bundles then Err(MissingChunks) else Err(InvalidOtp), s)
  {
    assert ChunksInOrder(s, uploadId) == [];
  }
}
