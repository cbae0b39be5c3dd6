/**
 * `LazyLoader`: which fixed-size chunks of a long list have been loaded, and
 * which chunks an index range still needs.
 */
module LazyLoading {
  import opened Arith

  /** A chunk size; the constructor's default is 100. */
  type ChunkSize = n: int | n > 0 witness 100

  const DefaultChunkSize: ChunkSize := 100

  /** The loader's state: the set of loaded chunk numbers and the chunk size. */
  datatype LazyLoader = LazyLoader(loaded: set<int>, chunkSize: ChunkSize)

  /** `new LazyLoader(chunkSize)`: nothing loaded yet. */
  function NewLoader(chunkSize: ChunkSize): (l: LazyLoader)
    ensures l.chunkSize == chunkSize
    ensures forall c :: !IsChunkLoaded(l, c)
  {
    LazyLoader({}, chunkSize)
  }

  /** `getChunkIndex`: the chunk holding item `index`, i.e. `Math.floor(index / chunkSize)`. */
  function ChunkIndex(l: LazyLoader, index: int): (c: int)
    ensures l.chunkSize * c <= index < l.chunkSize * (c + 1)
  {
    FloorDiv(index, l.chunkSize)
  }

  /** Chunk numbers follow item order. */
  lemma ChunkIndexMonotone(l: LazyLoader, i: int, j: int)
    requires i <= j
    ensures ChunkIndex(l, i) <= ChunkIndex(l, j)
  {
    CancelLt(l.chunkSize, ChunkIndex(l, i), ChunkIndex(l, j) + 1);
  }

  predicate IsChunkLoaded(l: LazyLoader, chunk: int) {
    chunk in l.loaded
  }

  /**
   * `markChunkLoaded`: afterwards the chunk is loaded, no other chunk changes
   * status, and marking a loaded chunk again changes nothing.
   */
  function MarkChunkLoaded(l: LazyLoader, chunk: int): (r: LazyLoader)
    ensures IsChunkLoaded(r, chunk)
    ensures forall c :: c != chunk ==> (IsChunkLoaded(r, c) <==> IsChunkLoaded(l, c))
    ensures r.chunkSize == l.chunkSize
    ensures IsChunkLoaded(l, chunk) ==> r == l
  {
    l.(loaded := l.loaded + {chunk})
  }

  /**
   * `getRequiredChunks`: in ascending order, exactly the chunks from the one
   * holding `startIndex` to the one holding `endIndex` that are not loaded.
   */
  method GetRequiredChunks(l: LazyLoader, startIndex: int, endIndex: int) returns (chunks: seq<int>)
    ensures forall i, j :: 0 <= i < j < |chunks| ==> chunks[i] < chunks[j]
    ensures forall c :: c in chunks <==> ChunkIndex(l, startIndex) <= c <= ChunkIndex(l, endIndex) && !IsChunkLoaded(l, c)
  {
    chunks := [];
    var startChunk := ChunkIndex(l, startIndex);
    var endChunk := ChunkIndex(l, endIndex);
    var i := startChunk;
    while i <= endChunk
      invariant i == startChunk || startChunk < i <= endChunk + 1
      invariant forall a, b :: 0 <= a < b < |chunks| ==> chunks[a] < chunks[b]
      invariant forall a :: 0 <= a < |chunks| ==> chunks[a] < i
      invariant forall c :: c in chunks <==> startChunk <= c < i && !IsChunkLoaded(l, c)
      decreases endChunk - i
    {
      if !IsChunkLoaded(l, i) {
        chunks := chunks + [i];
      }
      i := i + 1;
    }
  }
}
