/** The running transcript: a list of lines whose last entry is the phrase still
    being heard, updated once per cycle from the engine's whole-text result. */
module Transcript {
  import opened Base
  import opened Text

  /** `transcription = ['']`: the transcript before any audio has been heard. */
  const Initial: seq<string> := [""]

  /** Every reachable transcript is non-empty and holds only stripped lines. */
  predicate Valid(t: seq<string>) {
    |t| > 0 && forall i :: 0 <= i < |t| ==> Stripped(t[i])
  }

  /** The text a cycle contributes: the engine's whole text, stripped, or the empty
      string when the engine raised (`None`). */
  function CycleText(outcome: Option<string>): (text: string)
    ensures Stripped(text)
    ensures outcome.None? ==> text == ""
    ensures outcome.Some? ==> text == Strip(outcome.value)
  {
    match outcome
    case None => ""
    case Some(raw) => Strip(raw)
  }

  /** Folds one cycle's text into the transcript: a completed phrase gets a new line,
      a continuing phrase overwrites the last line, and empty text changes nothing. */
  function Update(t: seq<string>, text: string, complete: bool): (r: seq<string>)
    requires |t| > 0
    ensures |r| > 0
    ensures |r| == |t| + (if complete && text != "" then 1 else 0)
    ensures r[..|t| - 1] == t[..|t| - 1]
    ensures text == "" ==> r == t
    ensures text != "" ==> r[|r| - 1] == text
    ensures complete ==> r[..|t|] == t
  {
    if text == "" then t
    else if complete then t + [text]
    else t[..|t| - 1] + [text]
  }

  /** Updating with a cycle's text keeps the transcript non-empty and stripped. */
  lemma UpdateKeepsValid(t: seq<string>, text: string, complete: bool)
    requires Valid(t) && Stripped(text)
    ensures Valid(Update(t, text, complete))
  {
    var r := Update(t, text, complete);
    forall i | 0 <= i < |r|
      ensures Stripped(r[i])
    {
      if i < |t| - 1 {
        assert r[i] == r[..|t| - 1][i];
      } else if i == |t| - 1 && |r| > |t| {
        assert r[i] == r[..|t|][i];
      }
    }
  }
}
