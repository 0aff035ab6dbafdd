/** The replay service: looped video frames in chunks, each with its share of the audio track. */
module VideoReplay {
  import opened Common

  /** `audio` is empty when the chunk message carries no audio. */
  datatype Chunk<T> = Chunk(index: nat, frames: seq<T>, audio: seq<int>)

  /** The first `target` frames of the endlessly looped source. */
  function Looped<T>(source: seq<T>, target: nat): seq<T>
    requires target == 0 || source != []
  {
    seq(target, i requires 0 <= i < target => source[i % |source|])
  }

  function VideoOf<T>(chunks: seq<Chunk<T>>): seq<T> {
    if chunks == [] then [] else VideoOf(chunks[..|chunks| - 1]) + chunks[|chunks| - 1].frames
  }

  function AudioOf<T>(chunks: seq<Chunk<T>>): seq<int> {
    if chunks == [] then [] else AudioOf(chunks[..|chunks| - 1]) + chunks[|chunks| - 1].audio
  }

  /** Samples due after `emitted` frames, floored, and never more than the track has. */
  function SamplesAt(emitted: nat, rate: nat, fps: nat, track: nat): nat
    requires fps > 0
  {
    Min(emitted * rate / fps, track)
  }

  lemma SamplesGrow(a: nat, b: nat, rate: nat, fps: nat, track: nat)
    requires fps > 0 && a <= b
    ensures SamplesAt(a, rate, fps, track) <= SamplesAt(b, rate, fps, track)
  {
    MultiplyMonotone(a, b, rate);
    Divide(a * rate, b * rate, fps);
  }

  lemma Divide(a: nat, b: nat, c: nat)
    requires c > 0 && a <= b
    ensures a / c <= b / c
  {
    if b / c < a / c {
      MultiplyMonotone(b / c + 1, a / c, c);
    }
  }

  lemma LoopedStep<T>(source: seq<T>, n: nat)
    requires source != []
    ensures Looped(source, n + 1) == Looped(source, n) + [source[n % |source|]]
  {
  }

  /** Chunks are numbered from 0 and full, except that the last may be shorter when it ends the video. */
  ghost predicate WellNumbered<T>(chunks: seq<Chunk<T>>, most: nat, complete: bool) {
    && (forall k :: 0 <= k < |chunks| ==> chunks[k].index == k && 0 < |chunks[k].frames| <= most)
    && (forall k :: 0 <= k < |chunks| ==> |chunks[k].frames| == most || (complete && k == |chunks| - 1))
  }

  lemma Appended<T>(chunks: seq<Chunk<T>>, chunk: Chunk<T>)
    ensures VideoOf(chunks + [chunk]) == VideoOf(chunks) + chunk.frames
    ensures AudioOf(chunks + [chunk]) == AudioOf(chunks) + chunk.audio
  {
    assert (chunks + [chunk])[..|chunks|] == chunks;
  }

  /** The audio sent is what the video sent calls for. */
  ghost predicate Even<T>(chunks: seq<Chunk<T>>, rate: nat, fps: nat, track: nat)
    requires fps > 0
  {
    |AudioOf(chunks)| == SamplesAt(|VideoOf(chunks)|, rate, fps, track)
  }

  /** So it is after every chunk. */
  ghost predicate InStep<T>(chunks: seq<Chunk<T>>, rate: nat, fps: nat, track: nat)
    requires fps > 0
  {
    forall k :: 0 <= k <= |chunks| ==> Even(chunks[..k], rate, fps, track)
  }

  lemma StepStaysIn<T>(chunks: seq<Chunk<T>>, chunk: Chunk<T>, rate: nat, fps: nat, track: nat)
    requires fps > 0 && InStep(chunks, rate, fps, track) && Even(chunks + [chunk], rate, fps, track)
    ensures InStep(chunks + [chunk], rate, fps, track)
  {
    var longer := chunks + [chunk];
    forall k | 0 <= k <= |longer| ensures Even(longer[..k], rate, fps, track) {
      if k <= |chunks| {
        assert longer[..k] == chunks[..k];
      } else {
        assert longer[..k] == longer;
      }
    }
  }

  class VideoReplayService<T> {
    const frames: seq<T>
    const framesPerChunk: nat
    const fps: nat
    const audioPcm: Option<seq<int>>
    const audioSampleRate: nat

    constructor (frames: seq<T>, audioPcm: Option<seq<int>>, framesPerChunk: nat, fps: nat, audioSampleRate: nat)
      ensures this.frames == frames && this.audioPcm == audioPcm && this.framesPerChunk == framesPerChunk
      ensures this.fps == fps && this.audioSampleRate == audioSampleRate
    {
      this.frames := frames;
      this.audioPcm := audioPcm;
      this.framesPerChunk := framesPerChunk;
      this.fps := fps;
      this.audioSampleRate := audioSampleRate;
    }

    /** `None` stands for the ZeroDivisionError of looping an empty video.  `target` is the number
        of frames asked for, already truncated to an integer, or the source length. */
    method Serve(target: int) returns (r: Option<seq<Chunk<T>>>)
      requires framesPerChunk > 0 && fps > 0
      ensures r.None? <==> target > 0 && frames == []
      ensures r.Some? && target <= 0 ==> r.value == []
      ensures r.Some? && target > 0 ==>
                VideoOf(r.value) == Looped(frames, target) && AudioOf(r.value) == DueAudio(target)
      ensures r.Some? ==> WellNumbered(r.value, framesPerChunk, true)
      ensures r.Some? && audioPcm.Some? ==> InStep(r.value, audioSampleRate, fps, |audioPcm.value|)
    {
      if target > 0 && frames == [] {
        return None;
      }
      var chunks: seq<Chunk<T>> := [];
      var emitted := 0;
      while emitted < target
        invariant 0 <= emitted && (emitted <= target || emitted == 0)
        invariant emitted > 0 ==> frames != []
        invariant Sent(chunks, emitted, emitted >= target)
        decreases target - emitted
      {
        var count := Min(framesPerChunk, target - emitted);
        chunks := SendChunk(chunks, emitted, count, emitted + count >= target);
        emitted := emitted + count;
      }
      return Some(chunks);
    }

    ghost predicate Sent(chunks: seq<Chunk<T>>, emitted: nat, complete: bool)
      requires fps > 0 && (emitted > 0 ==> frames != [])
    {
      && VideoOf(chunks) == Looped(frames, emitted)
      && AudioOf(chunks) == DueAudio(emitted)
      && WellNumbered(chunks, framesPerChunk, complete)
      && (audioPcm.Some? ==> InStep(chunks, audioSampleRate, fps, |audioPcm.value|))
    }

    /** One pass of the serving loop. */
    method SendChunk(before: seq<Chunk<T>>, emitted: nat, count: nat, last: bool) returns (chunks: seq<Chunk<T>>)
      requires fps > 0 && frames != [] && Sent(before, emitted, false)
      requires 0 < count <= framesPerChunk && (count == framesPerChunk || last)
      ensures Sent(chunks, emitted + count, last)
    {
      var encoded := EncodeFrames(emitted, count);
      var audio := AudioSlice(emitted, count);
      var chunk := Chunk(|before|, encoded, audio);
      chunks := before + [chunk];
      Appended(before, chunk);
      if audioPcm.Some? {
        StepStaysIn(before, chunk, audioSampleRate, fps, |audioPcm.value|);
      }
    }

    /** The audio that `emitted` frames call for. */
    function DueAudio(emitted: nat): (audio: seq<int>)
      requires fps > 0
      ensures audioPcm.Some? ==> |audio| == SamplesAt(emitted, audioSampleRate, fps, |audioPcm.value|)
    {
      if audioPcm.None? then [] else audioPcm.value[..SamplesAt(emitted, audioSampleRate, fps, |audioPcm.value|)]
    }

    /** The inner loop: `count` frames from position `emitted` of the looped video. */
    method EncodeFrames(emitted: nat, count: nat) returns (encoded: seq<T>)
      requires frames != []
      ensures Looped(frames, emitted) + encoded == Looped(frames, emitted + count)
      ensures |encoded| == count
    {
      encoded := [];
      for i := 0 to count
        invariant |encoded| == i
        invariant Looped(frames, emitted) + encoded == Looped(frames, emitted + i)
      {
        LoopedStep(frames, emitted + i);
        encoded := encoded + [frames[(emitted + i) % |frames|]];
      }
    }

    method AudioSlice(emitted: nat, count: nat) returns (slice: seq<int>)
      requires fps > 0
      ensures DueAudio(emitted) + slice == DueAudio(emitted + count)
    {
      if audioPcm.None? {
        return [];
      }
      var track := audioPcm.value;
      var start := Min(emitted * audioSampleRate / fps, |track|);
      var end := Min((emitted + count) * audioSampleRate / fps, |track|);
      SamplesGrow(emitted, emitted + count, audioSampleRate, fps, |track|);
      slice := track[start..end];
    }
  }

  /** Until the track runs out, the audio sent so far is less than one sample behind the video sent
      so far, and never ahead of it; and the track has run out exactly when the video sent so far is
      at least as long. */
  lemma AudioInStep(emitted: nat, rate: nat, fps: nat, track: nat)
    requires fps > 0
    ensures
      var samples := SamplesAt(emitted, rate, fps, track);
      && (samples < track ==> samples * fps <= emitted * rate < (samples + 1) * fps)
      && (samples == track <==> emitted * rate >= track * fps)
  {
    var due := emitted * rate;
    assert due / fps * fps <= due < (due / fps + 1) * fps;
    if due / fps >= track {
      MultiplyMonotone(track, due / fps, fps);
    } else {
      MultiplyMonotone(due / fps + 1, track, fps);
    }
  }
}
