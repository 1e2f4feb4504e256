/** The capture-queue drain and the phrase segmenter of the transcription loop.
    Time is an integer count of microseconds, the resolution of Python's
    `datetime` and `timedelta`, so the timeout comparison is exact. */
module Segmenter {
  import opened Base

  /** `b''.join(queue)`: every queued chunk, in queue order, back to back. Joining
      whole-sample chunks gives whole samples. */
  function Flatten(chunks: seq<Chunk>): (r: seq<byte>)
    ensures |r| % 2 == 0
  {
    if chunks == [] then [] else Flatten(chunks[..|chunks| - 1]) + chunks[|chunks| - 1]
  }

  /** Total number of bytes held by the queued chunks. */
  function TotalLength(chunks: seq<Chunk>): nat {
    if chunks == [] then 0 else TotalLength(chunks[..|chunks| - 1]) + |chunks[|chunks| - 1]|
  }

  /** Drains the queue: joins the pending chunks in order and leaves the queue empty. */
  method DrainQueue(queue: seq<Chunk>) returns (audio: seq<byte>, rest: seq<Chunk>)
    ensures rest == []
    ensures audio == Flatten(queue)
    ensures |audio| == TotalLength(queue)
  {
    audio := [];
    var i := 0;
    while i < |queue|
      invariant 0 <= i <= |queue|
      invariant audio == Flatten(queue[..i])
      invariant |audio| == TotalLength(queue[..i])
    {
      assert queue[..i + 1][..i] == queue[..i];
      audio := audio + queue[i];
      i := i + 1;
    }
    assert queue[..i] == queue;
    rest := [];
  }

  lemma {:induction false} FlattenAppend(a: seq<Chunk>, b: seq<Chunk>)
    ensures Flatten(a + b) == Flatten(a) + Flatten(b)
    decreases |b|
  {
    if b == [] {
      assert a + b == a;
    } else {
      assert (a + b)[..|a + b| - 1] == a + b[..|b| - 1];
      FlattenAppend(a, b[..|b| - 1]);
    }
  }

  /** No chunk is lost, reordered or duplicated by the drain: chunk `i` sits in the
      joined audio right after the bytes of the chunks queued before it, and nothing
      follows the last chunk. */
  lemma {:induction false} FlattenLayout(chunks: seq<Chunk>, i: nat)
    requires i < |chunks|
    ensures var off := |Flatten(chunks[..i])|;
      && off + |chunks[i]| <= |Flatten(chunks)|
      && Flatten(chunks)[off..off + |chunks[i]|] == chunks[i]
    ensures |Flatten(chunks)| == TotalLength(chunks)
    decreases |chunks|
  {
    var n := |chunks|;
    var front := chunks[..n - 1];
    assert chunks[..n - 1] == front;
    if i == n - 1 {
      assert Flatten(chunks) == Flatten(front) + chunks[i];
      TotalLengthMatches(chunks);
    } else {
      FlattenLayout(front, i);
      assert front[..i] == chunks[..i];
      assert front[i] == chunks[i];
      var off := |Flatten(chunks[..i])|;
      assert Flatten(chunks)[off..off + |chunks[i]|] == Flatten(front)[off..off + |chunks[i]|];
    }
  }

  lemma {:induction false} TotalLengthMatches(chunks: seq<Chunk>)
    ensures |Flatten(chunks)| == TotalLength(chunks)
    decreases |chunks|
  {
    if chunks != [] {
      TotalLengthMatches(chunks[..|chunks| - 1]);
    }
  }

  /** What the loop remembers between cycles: `phrase_time` and `phrase_bytes`. */
  datatype Phrase = Phrase(time: Option<int>, bytes: seq<byte>)

  /** The result of one segmentation step: the new phrase state and `phrase_complete`. */
  datatype Advanced = Advanced(phrase: Phrase, complete: bool)

  const Initial := Phrase(None, [])

  /** A new phrase starts only when an earlier cycle has a timestamp and the gap is
      strictly longer than the timeout. */
  predicate StartsPhrase(timeout: int, last: Option<int>, now: int) {
    last.Some? && now - last.value > timeout
  }

  /** One cycle with a non-empty queue: decide the phrase boundary, stamp the cycle
      time and append the drained audio to the (possibly reset) buffer. */
  function Advance(timeout: int, p: Phrase, now: int, audio: seq<byte>): (r: Advanced)
    ensures r.phrase.time == Some(now)
    ensures r.complete <==> StartsPhrase(timeout, p.time, now)
  {
    var complete := StartsPhrase(timeout, p.time, now);
    Advanced(Phrase(Some(now), (if complete then [] else p.bytes) + audio), complete)
  }

  /** The buffer after a step: the drained audio appended to the old buffer, or to
      nothing when a new phrase starts. */
  lemma AdvanceBuffer(timeout: int, p: Phrase, now: int, audio: seq<byte>)
    ensures var r := Advance(timeout, p, now, audio);
      r.phrase.bytes == (if r.complete then [] else p.bytes) + audio
  {
  }

  /** On the first cycle with data there is no phrase boundary and the audio is
      appended to the buffer as it stands. */
  lemma FirstCycleContinues(timeout: int, bytes: seq<byte>, now: int, audio: seq<byte>)
    ensures var r := Advance(timeout, Phrase(None, bytes), now, audio);
      !r.complete && r.phrase.bytes == bytes + audio
  {
    AdvanceBuffer(timeout, Phrase(None, bytes), now, audio);
  }

  /** A gap strictly longer than the timeout leaves exactly the new audio in the buffer;
      a gap equal to the timeout (or shorter) keeps extending the old phrase. */
  lemma GapDecidesBuffer(timeout: int, last: int, bytes: seq<byte>, now: int, audio: seq<byte>)
    ensures var r := Advance(timeout, Phrase(Some(last), bytes), now, audio);
      && (now - last > timeout ==> r.complete && r.phrase.bytes == audio)
      && (now - last <= timeout ==> !r.complete && r.phrase.bytes == bytes + audio)
  {
    AdvanceBuffer(timeout, Phrase(Some(last), bytes), now, audio);
    assert [] + audio == audio;
  }

  /** One loop cycle that found data: its clock reading and the audio it drained. */
  datatype Arrival = Arrival(now: int, audio: seq<byte>)

  /** The segmenter state after a sequence of data-bearing cycles, from the start of the run. */
  function SegmentRun(timeout: int, arrivals: seq<Arrival>): Phrase {
    if arrivals == [] then Initial
    else
      var last := arrivals[|arrivals| - 1];
      Advance(timeout, SegmentRun(timeout, arrivals[..|arrivals| - 1]), last.now, last.audio).phrase
  }

  /** The audio of a run of cycles, back to back. */
  function JoinAudio(arrivals: seq<Arrival>): seq<byte> {
    if arrivals == [] then [] else JoinAudio(arrivals[..|arrivals| - 1]) + arrivals[|arrivals| - 1].audio
  }

  /** Whether cycle `i` of a run opens a new phrase: it is not the first and the gap
      to the previous data-bearing cycle is longer than the timeout. */
  predicate IsBoundary(timeout: int, arrivals: seq<Arrival>, i: nat)
    requires i < |arrivals|
  {
    i > 0 && arrivals[i].now - arrivals[i - 1].now > timeout
  }

  /** The index of the cycle that opened the current phrase (0 if none has). */
  function PhraseStart(timeout: int, arrivals: seq<Arrival>): (k: nat)
    ensures k == 0 || k < |arrivals|
  {
    if arrivals == [] then 0
    else if IsBoundary(timeout, arrivals, |arrivals| - 1) then |arrivals| - 1
    else PhraseStart(timeout, arrivals[..|arrivals| - 1])
  }

  /** Across a run, the segmenter reports a new phrase exactly at the cycles whose gap
      to the previous one exceeds the timeout, and never on the first. */
  lemma RunBoundaries(timeout: int, arrivals: seq<Arrival>, i: nat)
    requires i < |arrivals|
    ensures var a := arrivals[i];
      (Advance(timeout, SegmentRun(timeout, arrivals[..i]), a.now, a.audio).complete <==> IsBoundary(timeout, arrivals, i))
  {
    RunTime(timeout, arrivals[..i]);
    if i > 0 {
      assert arrivals[..i][i - 1] == arrivals[i - 1];
    }
  }

  /** After a run, `phrase_time` is the clock reading of its last cycle. */
  lemma RunTime(timeout: int, arrivals: seq<Arrival>)
    ensures arrivals == [] ==> SegmentRun(timeout, arrivals).time == None
    ensures arrivals != [] ==> SegmentRun(timeout, arrivals).time == Some(arrivals[|arrivals| - 1].now)
  {
  }

  lemma {:induction false} JoinAudioAppend(a: seq<Arrival>, x: Arrival)
    ensures JoinAudio(a + [x]) == JoinAudio(a) + x.audio
  {
    assert (a + [x])[..|a + [x]| - 1] == a;
  }

  /** The phrase buffer after a run holds exactly the audio drained since the cycle
      that opened the current phrase, in order: nothing older survives a boundary and
      nothing within a phrase is dropped. */
  lemma {:induction false} RunBuffer(timeout: int, arrivals: seq<Arrival>)
    ensures var k := PhraseStart(timeout, arrivals);
      SegmentRun(timeout, arrivals).bytes == JoinAudio(arrivals[k..])
    decreases |arrivals|
  {
    if arrivals != [] {
      var n := |arrivals|;
      var front := arrivals[..n - 1];
      var last := arrivals[n - 1];
      assert arrivals == front + [last];
      RunBoundaries(timeout, arrivals, n - 1);
      var before := SegmentRun(timeout, front);
      assert SegmentRun(timeout, arrivals) == Advance(timeout, before, last.now, last.audio).phrase;
      AdvanceBuffer(timeout, before, last.now, last.audio);
      if IsBoundary(timeout, arrivals, n - 1) {
        assert PhraseStart(timeout, arrivals) == n - 1;
        assert arrivals[n - 1..] == [last];
        JoinAudioAppend([], last);
      } else {
        RunBuffer(timeout, front);
        var k := PhraseStart(timeout, front);
        assert PhraseStart(timeout, arrivals) == k;
        assert arrivals[k..] == front[k..] + [last];
        JoinAudioAppend(front[k..], last);
      }
    }
  }
}
