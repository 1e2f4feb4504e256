/** One iteration of the transcription loop as a pure function of the loop state,
    the clock reading, the pending capture queue and the transcription engine. */
module Pipeline {
  import opened Base
  import opened Text
  import Segmenter
  import Transcript
  import Output

  /** `--phrase_timeout`, in microseconds. */
  datatype Config = Config(phraseTimeout: int)

  /** Everything the loop carries from one iteration to the next. */
  datatype State = State(phrase: Segmenter.Phrase, transcription: seq<string>)

  /** The engine: given the whole current phrase buffer it returns the whole text, or
      `None` when the call raised. */
  type Engine = seq<byte> -> Option<string>

  /** The effect of one iteration: the new state, the queue left behind and the
      content written to the transcript file, if any. */
  datatype Outcome = Outcome(state: State, queue: seq<Chunk>, written: Option<string>)

  const Start := State(Segmenter.Initial, Transcript.Initial)

  /** Every reachable state: a valid transcript, and a phrase buffer of whole 16-bit
      samples, which the conversion to samples requires. */
  predicate Valid(s: State) {
    Transcript.Valid(s.transcription) && |s.phrase.bytes| % 2 == 0
  }

  /** The state after one iteration. An empty queue means a sleep with nothing
      changed. Otherwise the queue is drained into the phrase buffer, the engine
      transcribes the whole buffer and the transcript is updated with its text. */
  function Next(cfg: Config, s: State, now: int, queue: seq<Chunk>, engine: Engine): (r: State)
    requires Valid(s)
    ensures Valid(r)
    ensures queue == [] ==> r == s
    ensures queue != [] ==> r.phrase.time == Some(now)
  {
    if queue == [] then s
    else
      var adv := Segmenter.Advance(cfg.phraseTimeout, s.phrase, now, Segmenter.Flatten(queue));
      var text := Transcript.CycleText(engine(adv.phrase.bytes));
      Transcript.UpdateKeepsValid(s.transcription, text, adv.complete);
      State(adv.phrase, Transcript.Update(s.transcription, text, adv.complete))
  }

  /** One iteration with its effects: the queue is always left empty, and the
      transcript file is rewritten, with the whole new transcript, exactly when the
      iteration found data. */
  function Step(cfg: Config, s: State, now: int, queue: seq<Chunk>, engine: Engine): (o: Outcome)
    requires Valid(s)
    ensures o.queue == []
    ensures o.written.Some? <==> queue != []
    ensures o.written.Some? ==> o.written.value == Output.Render(o.state.transcription)
    ensures queue == [] ==> o.state == s
  {
    var r := Next(cfg, s, now, queue, engine);
    Outcome(r, [], if queue == [] then None else Some(Output.Render(r.transcription)))
  }

  /** An iteration adds at most one line and leaves every line before the last as it was. */
  lemma NextKeepsEarlierLines(cfg: Config, s: State, now: int, queue: seq<Chunk>, engine: Engine)
    requires Valid(s)
    ensures var t := Next(cfg, s, now, queue, engine).transcription;
      var n := |s.transcription|;
      && n <= |t| <= n + 1
      && t[..n - 1] == s.transcription[..n - 1]
  {
  }

  /** Whether this iteration opens a new phrase. */
  predicate OpensPhrase(cfg: Config, s: State, now: int, queue: seq<Chunk>) {
    queue != [] && Segmenter.StartsPhrase(cfg.phraseTimeout, s.phrase.time, now)
  }

  /** The text this iteration obtains from the engine (empty when the queue is empty). */
  function TextOf(cfg: Config, s: State, now: int, queue: seq<Chunk>, engine: Engine): string {
    if queue == [] then ""
    else
      var adv := Segmenter.Advance(cfg.phraseTimeout, s.phrase, now, Segmenter.Flatten(queue));
      Transcript.CycleText(engine(adv.phrase.bytes))
  }

  /** The transcript gains a line exactly when a new phrase opens and the engine
      returns non-blank text; otherwise its length is unchanged. */
  lemma StepGrowth(cfg: Config, s: State, now: int, queue: seq<Chunk>, engine: Engine)
    requires Valid(s)
    ensures var o := Next(cfg, s, now, queue, engine);
      (|o.transcription| == |s.transcription| + 1 <==> OpensPhrase(cfg, s, now, queue) && TextOf(cfg, s, now, queue, engine) != "")
  {
  }

  /** A cycle whose text is blank — the engine raised, or returned only whitespace —
      leaves the transcript as it was, even when that cycle opened a new phrase and
      so already emptied the phrase buffer. */
  lemma BlankTextKeepsTranscript(cfg: Config, s: State, now: int, queue: seq<Chunk>, engine: Engine)
    requires Valid(s)
    requires TextOf(cfg, s, now, queue, engine) == ""
    ensures Next(cfg, s, now, queue, engine).transcription == s.transcription
    ensures OpensPhrase(cfg, s, now, queue) ==>
      Next(cfg, s, now, queue, engine).phrase.bytes == Segmenter.Flatten(queue)
  {
    if queue != [] {
      Segmenter.AdvanceBuffer(cfg.phraseTimeout, s.phrase, now, Segmenter.Flatten(queue));
    }
  }

  /** The engine is always handed the whole phrase so far: the old buffer followed by
      the drained chunks, or only the drained chunks when a new phrase opens. */
  lemma StepBuffer(cfg: Config, s: State, now: int, queue: seq<Chunk>, engine: Engine)
    requires Valid(s)
    requires queue != []
    ensures Next(cfg, s, now, queue, engine).phrase.bytes
      == (if OpensPhrase(cfg, s, now, queue) then [] else s.phrase.bytes) + Segmenter.Flatten(queue)
    ensures TextOf(cfg, s, now, queue, engine)
      == Transcript.CycleText(engine(Next(cfg, s, now, queue, engine).phrase.bytes))
    ensures |Next(cfg, s, now, queue, engine).phrase.bytes| % 2 == 0
  {
    Segmenter.AdvanceBuffer(cfg.phraseTimeout, s.phrase, now, Segmenter.Flatten(queue));
  }

  /** The first iteration that finds data never opens a new phrase: its text, if any,
      replaces the initial empty line. */
  lemma FirstDataReplacesEmptyLine(cfg: Config, now: int, queue: seq<Chunk>, engine: Engine)
    requires queue != []
    ensures var o := Next(cfg, Start, now, queue, engine);
      && o.phrase.bytes == Segmenter.Flatten(queue)
      && o.transcription == [TextOf(cfg, Start, now, queue, engine)]
  {
    Segmenter.FirstCycleContinues(cfg.phraseTimeout, [], now, Segmenter.Flatten(queue));
  }

  /** The file written after an iteration reads back as the transcript itself, line
      for line, as long as no line carries a newline of its own; it then holds
      exactly one newline per transcript line. */
  lemma WrittenFileReadsBack(cfg: Config, s: State, now: int, queue: seq<Chunk>, engine: Engine)
    requires Valid(s)
    requires queue != []
    requires var t := Next(cfg, s, now, queue, engine).transcription;
      forall i :: 0 <= i < |t| ==> '\n' !in t[i]
    ensures var o := Step(cfg, s, now, queue, engine);
      && Output.ReadLines(o.written.value) == o.state.transcription
      && Output.Newlines(o.written.value) == |o.state.transcription|
  {
    var t := Next(cfg, s, now, queue, engine).transcription;
    forall i | 0 <= i < |t|
      ensures Strip(t[i]) == t[i] && Output.SingleLine(t[i])
    {
      assert [] + t[i] + [] == t[i];
      StripSurrounded([], t[i], []);
    }
    Output.RenderReadBack(t);
    Output.RenderLineCount(t);
  }

  /** One loop iteration's inputs: the clock reading, the queue found pending and the
      engine's behaviour during that iteration, which may differ from one iteration to
      the next (a transient failure, say). */
  datatype Cycle = Cycle(now: int, queue: seq<Chunk>, engine: Engine)

  /** The state after a sequence of iterations. */
  function Run(cfg: Config, s: State, cycles: seq<Cycle>): (r: State)
    requires Valid(s)
    ensures Valid(r)
    decreases |cycles|
  {
    if cycles == [] then s
    else
      Run(cfg, Next(cfg, s, cycles[0].now, cycles[0].queue, cycles[0].engine), cycles[1..])
  }

  /** Over any number of iterations the transcript never shrinks, and every line
      before the one that was last at the start is left exactly as it was. */
  lemma {:induction false} RunKeepsEarlierLines(cfg: Config, s: State, cycles: seq<Cycle>)
    requires Valid(s)
    ensures var r := Run(cfg, s, cycles);
      && |s.transcription| <= |r.transcription|
      && r.transcription[..|s.transcription| - 1] == s.transcription[..|s.transcription| - 1]
    decreases |cycles|
  {
    if cycles != [] {
      var o := Next(cfg, s, cycles[0].now, cycles[0].queue, cycles[0].engine);
      NextKeepsEarlierLines(cfg, s, cycles[0].now, cycles[0].queue, cycles[0].engine);
      RunKeepsEarlierLines(cfg, o, cycles[1..]);
      RunUnfold(cfg, s, cycles);
      var t := Run(cfg, s, cycles).transcription;
      var mid := o.transcription;
      SharedPrefix(t, mid, s.transcription, |mid| - 1, |s.transcription| - 1);
    }
  }

  lemma RunUnfold(cfg: Config, s: State, cycles: seq<Cycle>)
    requires Valid(s) && cycles != []
    ensures Run(cfg, s, cycles) == Run(cfg, Next(cfg, s, cycles[0].now, cycles[0].queue, cycles[0].engine), cycles[1..])
  {
  }

  /** Agreeing on a prefix is transitive, down to the shorter prefix. */
  lemma SharedPrefix(r: seq<string>, mid: seq<string>, t: seq<string>, m: nat, k: nat)
    requires k <= m <= |r| && m <= |mid| && k <= |t|
    requires r[..m] == mid[..m] && mid[..k] == t[..k]
    ensures r[..k] == t[..k]
  {
    assert r[..k] == r[..m][..k];
    assert mid[..k] == mid[..m][..k];
  }

  /** Over any number of iterations the transcript gains at most one line per iteration. */
  lemma {:induction false} RunGrowthBound(cfg: Config, s: State, cycles: seq<Cycle>)
    requires Valid(s)
    ensures |Run(cfg, s, cycles).transcription| <= |s.transcription| + |cycles|
    decreases |cycles|
  {
    if cycles != [] {
      var o := Next(cfg, s, cycles[0].now, cycles[0].queue, cycles[0].engine);
      NextKeepsEarlierLines(cfg, s, cycles[0].now, cycles[0].queue, cycles[0].engine);
      RunGrowthBound(cfg, o, cycles[1..]);
    }
  }

  /** The data-bearing iterations of a run as the segmenter sees them: the clock
      reading and the drained audio of every iteration whose queue was non-empty. */
  function Arrivals(cycles: seq<Cycle>): (r: seq<Segmenter.Arrival>)
    ensures |r| <= |cycles|
  {
    if cycles == [] then []
    else
      var c := cycles[|cycles| - 1];
      Arrivals(cycles[..|cycles| - 1])
        + (if c.queue == [] then [] else [Segmenter.Arrival(c.now, Segmenter.Flatten(c.queue))])
  }

  /** An iteration that finds data leaves exactly the segmenter's new phrase state. */
  lemma NextPhrase(cfg: Config, s: State, now: int, queue: seq<Chunk>, engine: Engine)
    requires Valid(s) && queue != []
    ensures Next(cfg, s, now, queue, engine).phrase
      == Segmenter.Advance(cfg.phraseTimeout, s.phrase, now, Segmenter.Flatten(queue)).phrase
  {
  }

  /** Running one more iteration is one more step after the run. */
  lemma {:induction false} RunSnoc(cfg: Config, s: State, cycles: seq<Cycle>, c: Cycle)
    requires Valid(s)
    ensures Run(cfg, s, cycles + [c]) == Next(cfg, Run(cfg, s, cycles), c.now, c.queue, c.engine)
    decreases |cycles|
  {
    if cycles == [] {
      assert cycles + [c] == [c];
      RunUnfold(cfg, s, [c]);
      assert [c][1..] == [];
    } else {
      var o := Next(cfg, s, cycles[0].now, cycles[0].queue, cycles[0].engine);
      assert (cycles + [c])[0] == cycles[0];
      assert (cycles + [c])[1..] == cycles[1..] + [c];
      RunUnfold(cfg, s, cycles + [c]);
      RunUnfold(cfg, s, cycles);
      RunSnoc(cfg, o, cycles[1..], c);
    }
  }

  /** The phrase state the loop carries after any iterations, including those that
      found an empty queue, is the segmenter's state after exactly the data-bearing
      ones; so the segmenter's run lemmas describe the loop itself. */
  lemma {:induction false} RunPhrase(cfg: Config, cycles: seq<Cycle>)
    ensures Run(cfg, Start, cycles).phrase == Segmenter.SegmentRun(cfg.phraseTimeout, Arrivals(cycles))
    decreases |cycles|
  {
    if cycles != [] {
      var n := |cycles|;
      var front := cycles[..n - 1];
      var c := cycles[n - 1];
      assert cycles == front + [c];
      RunSnoc(cfg, Start, front, c);
      RunPhrase(cfg, front);
      var prev := Run(cfg, Start, front);
      var arrs := Arrivals(front);
      if c.queue != [] {
        var arr := Segmenter.Arrival(c.now, Segmenter.Flatten(c.queue));
        assert Arrivals(cycles) == arrs + [arr];
        assert (arrs + [arr])[..|arrs|] == arrs;
        NextPhrase(cfg, prev, c.now, c.queue, c.engine);
      } else {
        assert Arrivals(cycles) == arrs + [];
        assert arrs + [] == arrs;
      }
    }
  }
}
