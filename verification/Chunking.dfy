/** Splitting a video into chunks: the FlashVSR stream example, the runner's FlashVSR path, and the
    SwiftVR session with its warm-up prefix. */
module Chunking {
  import opened Common

  const FIRST_CHUNK_SIZE := 25
  const CHUNK_SIZE := 16

  /** Consecutive half-open intervals from 0 to `n`, none empty except when there are no frames. */
  ghost predicate Tiles(indices: seq<(int, int)>, n: nat) {
    && indices != [] && indices[0].0 == 0 && indices[|indices| - 1].1 == n
    && (forall k :: 0 <= k < |indices| - 1 ==> indices[k].1 == indices[k + 1].0)
    && ((forall k :: 0 <= k < |indices| ==> indices[k].0 < indices[k].1) || (n == 0 && indices == [(0, 0)]))
  }

  /** The first chunk has up to 25 frames, every later one 16 except possibly the last. */
  ghost predicate FlashSizes(indices: seq<(int, int)>, n: nat) {
    && (indices != [] ==> indices[0].1 - indices[0].0 == if n < 25 then n else 25)
    && (forall k :: 1 <= k < |indices| ==>
          indices[k].1 == if indices[k].0 + 16 < n then indices[k].0 + 16 else n)
  }

  method GetChunkIndices(frameCount: nat) returns (indices: seq<(int, int)>)
    ensures Tiles(indices, frameCount) && FlashSizes(indices, frameCount)
  {
    indices := [(0, Min(FIRST_CHUNK_SIZE, frameCount))];
    var offset := FIRST_CHUNK_SIZE;
    while offset < frameCount
      invariant Tiles(indices, Min(offset, frameCount))
      invariant FlashSizes(indices, frameCount)
    {
      indices := indices + [(offset, Min(offset + CHUNK_SIZE, frameCount))];
      offset := offset + CHUNK_SIZE;
    }
  }

  lemma TilesGrow(indices: seq<(int, int)>, offset: nat, end: nat, n: nat)
    requires Tiles(indices, offset) && FlashSizes(indices, n)
    requires 0 < offset < n && end == Min(offset + CHUNK_SIZE, n)
    ensures Tiles(indices + [(offset, end)], end) && FlashSizes(indices + [(offset, end)], n)
  {
  }

  lemma {:induction false} TilesOrdered(indices: seq<(int, int)>, n: nat, j: nat, k: nat)
    requires Tiles(indices, n) && j < k < |indices|
    ensures indices[j].1 <= indices[k].0
    decreases k - j
  {
    if j + 1 < k {
      TilesOrdered(indices, n, j, k - 1);
    }
  }

  /** No gap and no overlap: each frame lies in exactly one chunk. */
  lemma EachFrameOnce(indices: seq<(int, int)>, n: nat, i: nat)
    requires Tiles(indices, n) && i < n
    ensures exists k :: 0 <= k < |indices| && indices[k].0 <= i < indices[k].1
    ensures forall j, k :: 0 <= j < k < |indices| && indices[j].0 <= i < indices[j].1 ==>
                             !(indices[k].0 <= i < indices[k].1)
  {
    var k := 0;
    while indices[k].1 <= i
      invariant 0 <= k < |indices| && indices[k].0 <= i
      decreases |indices| - k
    {
      k := k + 1;
    }
    assert indices[k].0 <= i < indices[k].1;
    forall a, b | 0 <= a < b < |indices| && indices[a].0 <= i < indices[a].1
      ensures !(indices[b].0 <= i < indices[b].1)
    {
      TilesOrdered(indices, n, a, b);
    }
  }

  /** Tiling and sizes determine the chunks. */
  lemma {:induction false} FlashChunksUnique(a: seq<(int, int)>, b: seq<(int, int)>, n: nat, k: nat)
    requires Tiles(a, n) && FlashSizes(a, n) && Tiles(b, n) && FlashSizes(b, n)
    requires k < |a|
    ensures k < |b| && a[k] == b[k]
  {
    if k > 0 {
      FlashChunksUnique(a, b, n, k - 1);
      assert a[k - 1].1 == a[k].0 < a[k].1 && a[k].1 <= n;
    }
  }

  lemma FlashChunksEqual(a: seq<(int, int)>, b: seq<(int, int)>, n: nat)
    requires Tiles(a, n) && FlashSizes(a, n) && Tiles(b, n) && FlashSizes(b, n)
    ensures a == b
  {
    FlashChunksUnique(a, b, n, |a| - 1);
    FlashChunksUnique(b, a, n, |b| - 1);
    forall k | 0 <= k < |a| ensures a[k] == b[k] {
      FlashChunksUnique(a, b, n, k);
    }
  }

  function Flatten<T>(chunks: seq<seq<T>>): seq<T> {
    if chunks == [] then [] else Flatten(chunks[..|chunks| - 1]) + chunks[|chunks| - 1]
  }

  lemma FlattenGrows<T>(chunks: seq<seq<T>>, chunk: seq<T>)
    ensures Flatten(chunks + [chunk]) == Flatten(chunks) + chunk
  {
    assert (chunks + [chunk])[..|chunks|] == chunks;
  }

  /** The chunks are the slices that the index list names. */
  ghost predicate SlicedBy<T>(chunks: seq<seq<T>>, frames: seq<T>, indices: seq<(int, int)>) {
    && |chunks| == |indices|
    && (forall k :: 0 <= k < |indices| ==>
          0 <= indices[k].0 <= indices[k].1 <= |frames| && chunks[k] == frames[indices[k].0..indices[k].1])
  }

  /** The first `upto` frames are cut into chunks, as the index list says. */
  ghost predicate CutSoFar<T>(chunks: seq<seq<T>>, indices: seq<(int, int)>, frames: seq<T>, upto: nat)
    requires upto <= |frames|
  {
    && Tiles(indices, upto) && FlashSizes(indices, |frames|)
    && SlicedBy(chunks, frames, indices) && Flatten(chunks) == frames[..upto]
  }

  lemma CutGrows<T>(chunks: seq<seq<T>>, indices: seq<(int, int)>, frames: seq<T>, offset: nat, end: nat)
    requires 0 < offset < |frames| && end == Min(offset + CHUNK_SIZE, |frames|)
    requires CutSoFar(chunks, indices, frames, offset)
    ensures CutSoFar(chunks + [frames[offset..end]], indices + [(offset, end)], frames, end)
  {
    TilesGrow(indices, offset, end, |frames|);
    FlattenGrows(chunks, frames[offset..end]);
    assert frames[..offset] + frames[offset..end] == frames[..end];
  }

  /** What the runner passes to the pipeline, call by call. */
  method CallRunFlashVsrChunked<T>(frames: seq<T>) returns (chunks: seq<seq<T>>, ghost indices: seq<(int, int)>)
    ensures Tiles(indices, |frames|) && FlashSizes(indices, |frames|)
    ensures SlicedBy(chunks, frames, indices)
    ensures Flatten(chunks) == frames
  {
    var head := Min(FIRST_CHUNK_SIZE, |frames|);
    chunks := [frames[..head]];
    indices := [(0, head)];
    assert chunks[..0] == [];
    var offset := FIRST_CHUNK_SIZE;
    while offset < |frames|
      invariant CutSoFar(chunks, indices, frames, Min(offset, |frames|))
      invariant offset > 0
    {
      var end := Min(offset + CHUNK_SIZE, |frames|);
      CutGrows(chunks, indices, frames, offset, end);
      chunks := chunks + [frames[offset..end]];
      indices := indices + [(offset, end)];
      offset := offset + CHUNK_SIZE;
    }
    assert frames[..|frames|] == frames;
  }

  /** Both paths cut a video the same way. */
  lemma PathsAgree<T>(frames: seq<T>, indices: seq<(int, int)>, chunks: seq<seq<T>>, cut: seq<(int, int)>)
    requires Tiles(indices, |frames|) && FlashSizes(indices, |frames|)
    requires Tiles(cut, |frames|) && FlashSizes(cut, |frames|) && SlicedBy(chunks, frames, cut)
    ensures SlicedBy(chunks, frames, indices)
  {
    FlashChunksEqual(indices, cut, |frames|);
  }

  // ----- SwiftVR

  const SWIFT_CHUNK_SIZE := 24
  const WARMUP_CHUNKS := 2

  /** The slices fed to the streaming session. */
  method SwiftChunks<T>(frames: seq<T>, size: nat) returns (chunks: seq<seq<T>>)
    requires size > 0
    ensures Flatten(chunks) == frames
    ensures forall s :: (exists k :: 0 <= k < |chunks| && |chunks[k]| == s) <==> s in ChunkSizes(|frames|, size)
  {
    chunks := [];
    var start := 0;
    while start < |frames|
      invariant 0 <= start && start % size == 0
      invariant Flatten(chunks) == frames[..Min(start, |frames|)]
      invariant forall k :: 0 <= k < |chunks| ==>
                              |chunks[k]| == size || (|chunks[k]| == |frames| % size && start >= |frames|)
      invariant chunks == [] <==> start == 0
      invariant start > 0 && |frames| >= size ==> |chunks[0]| == size
      invariant start >= |frames| && |frames| % size != 0 ==> chunks != [] && |chunks[|chunks| - 1]| == |frames| % size
      invariant chunks != [] && |frames| < size ==> |chunks| == 1 && |chunks[0]| == |frames|
      invariant forall k :: 0 <= k < |chunks| ==> |chunks[k]| > 0
    {
      var end := Min(start + size, |frames|);
      TailSize(start, |frames|, size);
      assert (chunks + [frames[start..end]])[..|chunks|] == chunks;
      assert frames[..start] + frames[start..end] == frames[..end];
      chunks := chunks + [frames[start..end]];
      NextMultiple(start, size);
      start := start + size;
    }
    assert frames[..|frames|] == frames;
    SmallModulus(|frames|, size);
  }

  lemma SmallModulus(n: nat, size: nat)
    requires size > 0
    ensures n < size ==> n % size == n
  {
  }

  lemma NextMultiple(start: nat, size: nat)
    requires size > 0 && start % size == 0
    ensures (start + size) % size == 0
  {
    ModAdd(start, 1, size);
  }

  /** From a chunk boundary, the final slice has exactly the remainder. */
  lemma TailSize(start: nat, n: nat, size: nat)
    requires size > 0 && start % size == 0 && start < n
    ensures start + size > n ==> n - start == n % size
  {
    if start + size > n {
      var q := start / size;
      assert start == q * size;
      ModUnique(n, q, n - start, size);
    }
  }

  lemma ModUnique(n: nat, q: nat, r: nat, size: nat)
    requires size > 0 && n == q * size + r && r < size
    ensures n % size == r && n / size == q
  {
    QuotientUnique(q, r, n / size, n % size, size);
  }

  lemma QuotientUnique(q: nat, r: nat, q2: nat, r2: nat, size: nat)
    requires q * size + r == q2 * size + r2 && r < size && r2 < size
    ensures q == q2 && r == r2
  {
    if q < q2 {
      OneMore(q, size);
      MultiplyMonotone(q + 1, q2, size);
    } else if q2 < q {
      OneMore(q2, size);
      MultiplyMonotone(q2 + 1, q, size);
    }
  }

  lemma ModAdd(t: nat, k: nat, size: nat)
    requires size > 0
    ensures (t + k * size) % size == t % size
  {
    var q, r := t / size, t % size;
    assert t + k * size == (q + k) * size + r;
    ModUnique(t + k * size, q + k, r, size);
  }

  /** The chunk sizes that occur when `n` frames are cut into slices of `size`. */
  function ChunkSizes(n: nat, size: nat): set<nat>
    requires size > 0
  {
    (if n >= size then {size} else {}) + (if n % size != 0 then {n % size} else {})
  }

  function WarmupFrameCount(n: nat, size: nat, warmupChunks: nat): nat
    requires size > 0
  {
    Min(n, size * warmupChunks + n % size)
  }

  /** The warm-up prefix shows the session exactly the chunk sizes of the full video, if and only
      if at least one full chunk is warmed up or the video has none. */
  lemma WarmupCoversSizes(n: nat, size: nat, warmupChunks: nat)
    requires size > 0
    ensures ChunkSizes(WarmupFrameCount(n, size, warmupChunks), size) == ChunkSizes(n, size)
            <==> warmupChunks >= 1 || n < size
  {
    var t := n % size;
    var w := WarmupFrameCount(n, size, warmupChunks);
    ModAdd(t, warmupChunks, size);
    assert t + warmupChunks * size == size * warmupChunks + t;
    SmallModulus(t, size);
    SmallModulus(n, size);
    if warmupChunks >= 1 {
      MultiplyMonotone(1, warmupChunks, size);
    } else {
      assert w == t;
      if n >= size {
        assert size in ChunkSizes(n, size);
      }
    }
  }

  /** With the example's constants the warm-up always covers the video. */
  lemma WarmupSuffices(n: nat)
    ensures SWIFT_CHUNK_SIZE == 24 && WARMUP_CHUNKS == 2
    ensures ChunkSizes(WarmupFrameCount(n, SWIFT_CHUNK_SIZE, WARMUP_CHUNKS), SWIFT_CHUNK_SIZE)
            == ChunkSizes(n, SWIFT_CHUNK_SIZE)
    ensures WarmupFrameCount(n, SWIFT_CHUNK_SIZE, WARMUP_CHUNKS) <= n
    ensures n >= 48 + n % 24 ==> WarmupFrameCount(n, SWIFT_CHUNK_SIZE, WARMUP_CHUNKS) == 48 + n % 24
  {
    WarmupCoversSizes(n, SWIFT_CHUNK_SIZE, WARMUP_CHUNKS);
  }
}
