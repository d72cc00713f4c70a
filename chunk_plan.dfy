/**
 * The client's chunk plan: a file above the single-upload limit is cut into `ceil(size / 5 MiB)`
 * consecutive slices, each sent with its index. The division is modelled on exact integers.
 */
module ChunkPlan {
  import opened Common

  /** `CHUNK_SIZE`: 5 MiB per chunk. */
  const ChunkSize: nat := 5 * 1024 * 1024

  /** `CHUNK_SIZE_LIMIT`: 100 MiB; larger files go through the chunked path. */
  const SingleUploadLimit: nat := 100 * 1024 * 1024

  /** The size dispatch of the upload loop: strictly larger than the limit. */
  predicate UsesChunks(size: nat) {
    size > SingleUploadLimit
  }

  /** A file of exactly 100 MiB goes up in one request; one byte more and it goes in 21 chunks. */
  lemma DispatchBoundary()
    ensures !UsesChunks(SingleUploadLimit) && UsesChunks(SingleUploadLimit + 1)
    ensures TotalChunks(SingleUploadLimit + 1) == 21
  {
  }

  function Min(a: int, b: int): (m: int) {
    if a <= b then a else b
  }

  /** `Math.ceil(size / CHUNK_SIZE)`: the fewest chunks of ChunkSize bytes that cover `size` bytes. */
  function TotalChunks(size: nat): (n: nat)
    ensures n * ChunkSize >= size
    ensures n > 0 ==> (n - 1) * ChunkSize < size
    ensures size > 0 <==> n > 0
  {
    var q := (size + ChunkSize - 1) / ChunkSize;
    assert q * ChunkSize + (size + ChunkSize - 1) % ChunkSize == size + ChunkSize - 1;
    q
  }

  /** `file.slice(i * CHUNK_SIZE, (i + 1) * CHUNK_SIZE)`: the end is clamped to the file's size. */
  function Chunk(data: Bytes, i: nat): (c: Bytes)
    requires i < TotalChunks(|data|)
    ensures 0 < |c| <= ChunkSize
  {
    data[i * ChunkSize .. Min((i + 1) * ChunkSize, |data|)]
  }

  /** The slices sent for a file, in the order the loop sends them. */
  function Chunks(data: Bytes): (cs: seq<Bytes>)
    ensures |cs| == TotalChunks(|data|)
    ensures forall i :: 0 <= i < |cs| ==> cs[i] == Chunk(data, i)
  {
    seq(TotalChunks(|data|), i requires 0 <= i < TotalChunks(|data|) => Chunk(data, i))
  }

  /** The slices joined end to end. */
  function Flatten(cs: seq<Bytes>): (r: Bytes) {
    if cs == [] then [] else Flatten(cs[..|cs| - 1]) + cs[|cs| - 1]
  }

  /**
   * Every slice but the last is a full chunk, the last holds the rest, and slice `i` starts at
   * byte `i * ChunkSize`: the slices are contiguous and do not overlap.
   */
  lemma ChunkShape(data: Bytes, i: nat)
    requires i < TotalChunks(|data|)
    ensures i + 1 < TotalChunks(|data|) ==> |Chunk(data, i)| == ChunkSize
    ensures i + 1 == TotalChunks(|data|) ==> |Chunk(data, i)| == |data| - i * ChunkSize
    ensures forall k :: 0 <= k < |Chunk(data, i)| ==> Chunk(data, i)[k] == data[i * ChunkSize + k]
  {
  }

  /** The first `k` slices joined are the first `k` chunks' worth of bytes of the file. */
  lemma {:induction false} FlattenPrefix(data: Bytes, k: nat)
    requires k <= TotalChunks(|data|)
    ensures Flatten(Chunks(data)[..k]) == data[..Min(k * ChunkSize, |data|)]
  {
    if k > 0 {
      var cs := Chunks(data);
      FlattenPrefix(data, k - 1);
      assert cs[..k][..k - 1] == cs[..k - 1];
      assert (k - 1) * ChunkSize < |data|;
      assert data[..Min(k * ChunkSize, |data|)]
          == data[..(k - 1) * ChunkSize] + data[(k - 1) * ChunkSize .. Min(k * ChunkSize, |data|)];
    }
  }

  /** The slices partition the file: joined in index order they give back exactly its bytes. */
  lemma ChunksCover(data: Bytes)
    ensures Flatten(Chunks(data)) == data
  {
    var cs := Chunks(data);
    FlattenPrefix(data, |cs|);
    assert cs[..|cs|] == cs;
  }
}
