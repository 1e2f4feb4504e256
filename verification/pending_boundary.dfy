/** A phrase boundary that meets a blank transcription is forgotten.

    When the iteration that opens a new phrase gets blank text (the engine raised, or
    heard only silence), the phrase buffer has already been emptied but no new line is
    added; the next iteration of the same phrase then sees no boundary and overwrites
    the last line, which still holds the previous phrase's text. `Pipeline.Next`
    models the loop as written and `AsWrittenOverwritesPhrase` exhibits the loss;
    `StepCorrected` remembers the pending boundary until a text arrives, and
    `CorrectedKeepsClosedPhrases` proves that no earlier phrase's line is ever
    touched again. */
module PendingBoundary {
  import opened Base
  import opened Text
  import Segmenter
  import Transcript
  import opened Pipeline

  /** The timeout of the example: six seconds, in microseconds. */
  const SixSeconds := Config(6_000_000)

  /** Engines that hear `a` in the first phrase, raise on the first iteration of the
      second phrase, and hear `b` once that phrase has grown by the next iteration's
      audio. */
  predicate ExampleEngines(first: Cycle, gap: Cycle, next: Cycle, a: string, b: string) {
    && first.engine(Segmenter.Flatten(first.queue)) == Some(a)
    && gap.engine(Segmenter.Flatten(gap.queue)) == None
    && next.engine(Segmenter.Flatten(gap.queue) + Segmenter.Flatten(next.queue)) == Some(b)
  }

  /** A line of transcript as the engine would produce it: non-blank and stripped. */
  predicate SpokenText(a: string) {
    a != "" && Stripped(a)
  }

  lemma StrippedIsOwnStrip(s: string)
    requires Stripped(s)
    ensures Strip(s) == s
  {
    assert [] + s + [] == s;
    StripSurrounded([], s, []);
  }

  lemma RunLast(cfg: Config, s: State, c: Cycle)
    requires Valid(s)
    ensures Run(cfg, s, [c]) == Next(cfg, s, c.now, c.queue, c.engine)
  {
    assert [c][1..] == [];
  }

  lemma RunThree(cfg: Config, s: State, x: Cycle, y: Cycle, z: Cycle)
    requires Valid(s)
    ensures var s1 := Next(cfg, s, x.now, x.queue, x.engine);
      var s2 := Next(cfg, s1, y.now, y.queue, y.engine);
      Run(cfg, s, [x, y, z]) == Next(cfg, s2, z.now, z.queue, z.engine)
  {
    var s1 := Next(cfg, s, x.now, x.queue, x.engine);
    var s2 := Next(cfg, s1, y.now, y.queue, y.engine);
    assert [x, y, z][1..] == [y, z];
    assert [y, z][1..] == [z];
    RunLast(cfg, s2, z);
  }

  lemma FirstCycleKeepsA(cfg: Config, first: Cycle, a: string)
    requires first.queue != []
    requires first.engine(Segmenter.Flatten(first.queue)) == Some(a) && SpokenText(a)
    ensures Next(cfg, Start, first.now, first.queue, first.engine)
      == State(Segmenter.Phrase(Some(first.now), Segmenter.Flatten(first.queue)), [a])
  {
    StrippedIsOwnStrip(a);
    var audio := Segmenter.Flatten(first.queue);
    Segmenter.AdvanceBuffer(cfg.phraseTimeout, Segmenter.Initial, first.now, audio);
    assert [] + audio == audio;
  }

  lemma GapCycleRaises(cfg: Config, s1: State, gap: Cycle, a: string)
    requires Valid(s1) && s1.phrase.time.Some? && s1.transcription == [a]
    requires gap.queue != [] && gap.now - s1.phrase.time.value > cfg.phraseTimeout
    requires gap.engine(Segmenter.Flatten(gap.queue)) == None
    ensures OpensPhrase(cfg, s1, gap.now, gap.queue)
    ensures Next(cfg, s1, gap.now, gap.queue, gap.engine)
      == State(Segmenter.Phrase(Some(gap.now), Segmenter.Flatten(gap.queue)), [a])
  {
    var audio := Segmenter.Flatten(gap.queue);
    Segmenter.AdvanceBuffer(cfg.phraseTimeout, s1.phrase, gap.now, audio);
    assert [] + audio == audio;
  }

  lemma NextCycleOverwrites(cfg: Config, s2: State, next: Cycle, a: string, b: string)
    requires Valid(s2) && s2.phrase.time.Some? && s2.transcription == [a]
    requires next.queue != [] && next.now - s2.phrase.time.value <= cfg.phraseTimeout
    requires next.engine(s2.phrase.bytes + Segmenter.Flatten(next.queue)) == Some(b) && SpokenText(b)
    ensures Next(cfg, s2, next.now, next.queue, next.engine).transcription == [b]
  {
    StrippedIsOwnStrip(b);
    Segmenter.AdvanceBuffer(cfg.phraseTimeout, s2.phrase, next.now, Segmenter.Flatten(next.queue));
  }

  /** As written, with a six-second timeout, data at 0 s, at 10 s (a new phrase: the
      gap exceeds six seconds) and at 11 s, and an engine that raises on the 10 s
      iteration: the first phrase's line is on the transcript when the second phrase
      opens, and one iteration later the second phrase's text has overwritten it. */
  lemma {:induction false} AsWrittenOverwritesPhrase(first: Cycle, gap: Cycle, next: Cycle, a: string, b: string)
    requires first.now == 0 && gap.now == 10_000_000 && next.now == 11_000_000
    requires first.queue != [] && gap.queue != [] && next.queue != []
    requires ExampleEngines(first, gap, next, a, b) && SpokenText(a) && SpokenText(b)
    ensures Run(SixSeconds, Start, [first]).transcription == [a]
    ensures OpensPhrase(SixSeconds, Run(SixSeconds, Start, [first]), gap.now, gap.queue)
    ensures Run(SixSeconds, Start, [first, gap, next]).transcription == [b]
  {
    FirstCycleKeepsA(SixSeconds, first, a);
    var s1 := Next(SixSeconds, Start, first.now, first.queue, first.engine);
    GapCycleRaises(SixSeconds, s1, gap, a);
    var s2 := Next(SixSeconds, s1, gap.now, gap.queue, gap.engine);
    NextCycleOverwrites(SixSeconds, s2, next, a, b);
    RunLast(SixSeconds, Start, first);
    RunThree(SixSeconds, Start, first, gap, next);
  }

  /** The loop state plus a flag recording a phrase boundary that has not yet
      received a line of its own. */
  datatype CState = CState(base: State, breakPending: bool)

  predicate CValid(cs: CState) {
    Valid(cs.base)
  }

  /** The iteration with the boundary kept pending across blank transcriptions. */
  function StepCorrected(cfg: Config, cs: CState, now: int, queue: seq<Chunk>, engine: Engine): (r: CState)
    requires CValid(cs)
    ensures CValid(r)
    ensures queue == [] ==> r == cs
    ensures r.breakPending ==> r.base.transcription == cs.base.transcription
  {
    if queue == [] then cs
    else
      var adv := Segmenter.Advance(cfg.phraseTimeout, cs.base.phrase, now, Segmenter.Flatten(queue));
      var text := Transcript.CycleText(engine(adv.phrase.bytes));
      var complete := adv.complete || cs.breakPending;
      Transcript.UpdateKeepsValid(cs.base.transcription, text, complete);
      CState(State(adv.phrase, Transcript.Update(cs.base.transcription, text, complete)), complete && text == "")
  }

  /** The correction changes nothing while no boundary is pending: the iteration then
      behaves exactly like the loop as written. */
  lemma CorrectedAgreesWithoutPending(cfg: Config, cs: CState, now: int, queue: seq<Chunk>, engine: Engine)
    requires CValid(cs) && !cs.breakPending
    ensures StepCorrected(cfg, cs, now, queue, engine).base == Next(cfg, cs.base, now, queue, engine)
  {
  }

  function RunCorrected(cfg: Config, cs: CState, cycles: seq<Cycle>): (r: CState)
    requires CValid(cs)
    ensures CValid(r)
    decreases |cycles|
  {
    if cycles == [] then cs
    else RunCorrected(cfg, StepCorrected(cfg, cs, cycles[0].now, cycles[0].queue, cycles[0].engine), cycles[1..])
  }

  /** `closed` is the transcript as it stood when a phrase boundary was seen: it is
      still a prefix, and either the boundary is pending or a newer line exists. */
  predicate KeepsClosed(closed: seq<string>, cs: CState) {
    var t := cs.base.transcription;
    && |closed| <= |t|
    && t[..|closed|] == closed
    && (cs.breakPending || |closed| < |t|)
  }

  /** The transcript half of a corrected iteration: a pending boundary forces a new
      line, so lines before the boundary are never overwritten. */
  lemma UpdateKeepsClosed(closed: seq<string>, t: seq<string>, text: string, complete: bool, pending: bool)
    requires |t| > 0 && |closed| <= |t| && t[..|closed|] == closed
    requires pending || |closed| < |t|
    requires pending ==> complete
    ensures var r := Transcript.Update(t, text, complete);
      && |closed| <= |r|
      && r[..|closed|] == closed
      && ((complete && text == "") || |closed| < |r|)
  {
    var r := Transcript.Update(t, text, complete);
    if text != "" && complete {
      SharedPrefix(r, t, closed, |t|, |closed|);
    } else if text != "" {
      SharedPrefix(r, t, closed, |t| - 1, |closed|);
    }
  }

  lemma StepKeepsClosed(cfg: Config, closed: seq<string>, cs: CState, now: int, queue: seq<Chunk>, engine: Engine)
    requires CValid(cs) && KeepsClosed(closed, cs)
    ensures KeepsClosed(closed, StepCorrected(cfg, cs, now, queue, engine))
  {
    if queue != [] {
      var adv := Segmenter.Advance(cfg.phraseTimeout, cs.base.phrase, now, Segmenter.Flatten(queue));
      var text := Transcript.CycleText(engine(adv.phrase.bytes));
      var complete := adv.complete || cs.breakPending;
      UpdateKeepsClosed(closed, cs.base.transcription, text, complete, cs.breakPending);
    }
  }

  lemma {:induction false} RunKeepsClosed(cfg: Config, closed: seq<string>, cs: CState, cycles: seq<Cycle>)
    requires CValid(cs) && KeepsClosed(closed, cs)
    ensures KeepsClosed(closed, RunCorrected(cfg, cs, cycles))
    decreases |cycles|
  {
    if cycles != [] {
      StepKeepsClosed(cfg, closed, cs, cycles[0].now, cycles[0].queue, cycles[0].engine);
      RunKeepsClosed(cfg, closed, StepCorrected(cfg, cs, cycles[0].now, cycles[0].queue, cycles[0].engine), cycles[1..]);
    }
  }

  /** Corrected: once an iteration opens a new phrase, the transcript as it stood
      before that iteration stays a prefix of the transcript for every later run of
      iterations, whatever the engine returns. */
  lemma {:induction false} CorrectedKeepsClosedPhrases(cfg: Config, cs: CState, now: int, queue: seq<Chunk>, engine: Engine, later: seq<Cycle>)
    requires CValid(cs)
    requires OpensPhrase(cfg, cs.base, now, queue)
    ensures var t := cs.base.transcription;
      var r := RunCorrected(cfg, StepCorrected(cfg, cs, now, queue, engine), later).base.transcription;
      |t| <= |r| && r[..|t|] == t
  {
    var t := cs.base.transcription;
    var next := StepCorrected(cfg, cs, now, queue, engine);
    assert KeepsClosed(t, next);
    RunKeepsClosed(cfg, t, next, later);
  }

  lemma RunCorrectedThree(cfg: Config, cs: CState, x: Cycle, y: Cycle, z: Cycle)
    requires CValid(cs)
    ensures var c1 := StepCorrected(cfg, cs, x.now, x.queue, x.engine);
      var c2 := StepCorrected(cfg, c1, y.now, y.queue, y.engine);
      RunCorrected(cfg, cs, [x, y, z]) == StepCorrected(cfg, c2, z.now, z.queue, z.engine)
  {
    var c1 := StepCorrected(cfg, cs, x.now, x.queue, x.engine);
    var c2 := StepCorrected(cfg, c1, y.now, y.queue, y.engine);
    var c3 := StepCorrected(cfg, c2, z.now, z.queue, z.engine);
    assert [x, y, z][1..] == [y, z];
    assert [y, z][1..] == [z];
    assert [z][1..] == [];
    assert RunCorrected(cfg, c2, [z]) == RunCorrected(cfg, c3, []) == c3;
    assert RunCorrected(cfg, c1, [y, z]) == RunCorrected(cfg, c2, [z]);
    assert RunCorrected(cfg, cs, [x, y, z]) == RunCorrected(cfg, c1, [y, z]);
  }

  /** With a boundary pending, a continuing iteration whose text is not blank gives
      the new phrase its own line instead of overwriting the last one. */
  lemma PendingCycleAppends(cfg: Config, cs: CState, next: Cycle, a: string, b: string)
    requires CValid(cs) && cs.breakPending && cs.base.phrase.time.Some? && cs.base.transcription == [a]
    requires next.queue != [] && next.now - cs.base.phrase.time.value <= cfg.phraseTimeout
    requires next.engine(cs.base.phrase.bytes + Segmenter.Flatten(next.queue)) == Some(b) && SpokenText(b)
    ensures StepCorrected(cfg, cs, next.now, next.queue, next.engine).base.transcription == [a, b]
  {
    StrippedIsOwnStrip(b);
    Segmenter.AdvanceBuffer(cfg.phraseTimeout, cs.base.phrase, next.now, Segmenter.Flatten(next.queue));
  }

  /** Corrected, on the example that loses a line as written: the boundary seen at
      10 s stays pending through the failed transcription, and the text heard at 11 s
      becomes a second line, so both phrases are on the transcript. */
  lemma {:induction false} CorrectedKeepsBothPhrases(first: Cycle, gap: Cycle, next: Cycle, a: string, b: string)
    requires first.now == 0 && gap.now == 10_000_000 && next.now == 11_000_000
    requires first.queue != [] && gap.queue != [] && next.queue != []
    requires ExampleEngines(first, gap, next, a, b) && SpokenText(a) && SpokenText(b)
    ensures RunCorrected(SixSeconds, CState(Start, false), [first, gap, next]).base.transcription == [a, b]
  {
    var cs0 := CState(Start, false);
    FirstCycleKeepsA(SixSeconds, first, a);
    CorrectedAgreesWithoutPending(SixSeconds, cs0, first.now, first.queue, first.engine);
    var cs1 := StepCorrected(SixSeconds, cs0, first.now, first.queue, first.engine);
    StrippedIsOwnStrip(a);
    assert !cs1.breakPending;
    GapCycleRaises(SixSeconds, cs1.base, gap, a);
    CorrectedAgreesWithoutPending(SixSeconds, cs1, gap.now, gap.queue, gap.engine);
    var cs2 := StepCorrected(SixSeconds, cs1, gap.now, gap.queue, gap.engine);
    assert cs2.breakPending;
    PendingCycleAppends(SixSeconds, cs2, next, a, b);
    RunCorrectedThree(SixSeconds, cs0, first, gap, next);
  }
}
