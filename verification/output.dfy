/** The plain-text transcript file: its name and the content rewritten on every cycle. */
module Output {
  import opened Text

  /** `--save_format`: the argument parser admits `txt` only. */
  datatype SaveFormat = Txt

  function Extension(format: SaveFormat): string {
    match format
    case Txt => "txt"
  }

  /** `{save_name}_{timestamp}.{save_format}`; the timestamp string is taken as given. */
  function OutputFilename(saveName: string, timestamp: string, format: SaveFormat): string {
    saveName + "_" + timestamp + "." + Extension(format)
  }

  /** The index of the last `.` in `s`, if any. */
  function LastDot(s: string): (k: int)
    ensures -1 <= k < |s|
    ensures k >= 0 ==> s[k] == '.'
    ensures forall i :: k < i < |s| ==> s[i] != '.'
  {
    if s == [] then -1
    else if s[|s| - 1] == '.' then |s| - 1
    else LastDot(s[..|s| - 1])
  }

  /** The file name cut at its last dot: the stem and the extension. */
  function SplitExtension(name: string): (string, string) {
    var k := LastDot(name);
    if k < 0 then (name, "") else (name[..k], name[k + 1..])
  }

  /** The extension of the output file is the save format, and the stem is the base
      name, an underscore and the timestamp, whatever characters those contain. */
  lemma {:induction false} FilenameRoundTrip(saveName: string, timestamp: string, format: SaveFormat)
    ensures SplitExtension(OutputFilename(saveName, timestamp, format))
      == (saveName + "_" + timestamp, Extension(format))
  {
    var stem := saveName + "_" + timestamp;
    var name := OutputFilename(saveName, timestamp, format);
    assert name == stem + "." + "txt";
    var k := |stem|;
    assert name[k] == '.';
    assert forall i :: k < i < |name| ==> name[i] != '.' by {
      assert name[k + 1..] == "txt";
    }
    LastDotIsLast(name, k);
    assert name[..k] == stem;
    assert name[k + 1..] == "txt";
  }

  lemma LastDotIsLast(s: string, k: nat)
    requires k < |s| && s[k] == '.'
    requires forall i :: k < i < |s| ==> s[i] != '.'
    ensures LastDot(s) == k
  {
  }

  /** The file content: each line stripped and newline-terminated, in order. */
  function Render(lines: seq<string>): string {
    if lines == [] then "" else Strip(lines[0]) + "\n" + Render(lines[1..])
  }

  /** Rendering distributes over concatenation of transcripts. */
  lemma {:induction false} RenderAppend(a: seq<string>, b: seq<string>)
    ensures Render(a + b) == Render(a) + Render(b)
    decreases |a|
  {
    if a == [] {
      assert a + b == b;
    } else {
      assert (a + b)[1..] == a[1..] + b;
      RenderAppend(a[1..], b);
    }
  }

  /** Number of newline characters in `s`. */
  function Newlines(s: string): nat {
    if s == [] then 0 else (if s[0] == '\n' then 1 else 0) + Newlines(s[1..])
  }

  lemma {:induction false} NewlinesAppend(a: string, b: string)
    ensures Newlines(a + b) == Newlines(a) + Newlines(b)
    decreases |a|
  {
    if a == [] {
      assert a + b == b;
    } else {
      assert (a + b)[1..] == a[1..] + b;
      NewlinesAppend(a[1..], b);
    }
  }

  lemma NewlinesCons(head: string, tail: string)
    ensures Newlines(head + "\n" + tail) == Newlines(head) + 1 + Newlines(tail)
  {
    NewlinesAppend(head, "\n");
    NewlinesAppend(head + "\n", tail);
  }

  /** Newlines inside the stripped lines themselves. */
  function InnerNewlines(lines: seq<string>): nat {
    if lines == [] then 0 else Newlines(Strip(lines[0])) + InnerNewlines(lines[1..])
  }

  /** The file has one terminating newline per transcript line, plus any newline a
      line carries inside its stripped text. */
  lemma {:induction false} RenderNewlines(lines: seq<string>)
    ensures Newlines(Render(lines)) == |lines| + InnerNewlines(lines)
    decreases |lines|
  {
    if lines != [] {
      var head := Strip(lines[0]);
      var tail := Render(lines[1..]);
      assert Render(lines) == head + "\n" + tail;
      NewlinesCons(head, tail);
      RenderNewlines(lines[1..]);
    }
  }

  /** A line whose stripped text has no newline of its own. */
  predicate SingleLine(line: string) {
    '\n' !in Strip(line)
  }

  lemma {:induction false} NoNewlineCount(s: string)
    requires '\n' !in s
    ensures Newlines(s) == 0
    decreases |s|
  {
    if s != [] {
      assert s[0] in s;
      assert forall c :: c in s[1..] ==> c in s;
      NoNewlineCount(s[1..]);
    }
  }

  /** Without newlines inside the text, the file has exactly one line per entry. */
  lemma {:induction false} RenderLineCount(lines: seq<string>)
    requires forall i :: 0 <= i < |lines| ==> SingleLine(lines[i])
    ensures Newlines(Render(lines)) == |lines|
  {
    RenderNewlines(lines);
    NoInnerNewlines(lines);
  }

  lemma {:induction false} NoInnerNewlines(lines: seq<string>)
    requires forall i :: 0 <= i < |lines| ==> SingleLine(lines[i])
    ensures InnerNewlines(lines) == 0
    decreases |lines|
  {
    if lines != [] {
      assert SingleLine(lines[0]);
      NoNewlineCount(Strip(lines[0]));
      NoInnerNewlines(lines[1..]);
    }
  }

  /** The index of the first newline in `s`, or `|s|` when there is none. */
  function FirstNewline(s: string): (k: nat)
    ensures k <= |s|
    ensures k < |s| ==> s[k] == '\n'
    ensures forall i :: 0 <= i < k ==> s[i] != '\n'
  {
    if s == [] || s[0] == '\n' then 0 else 1 + FirstNewline(s[1..])
  }

  /** Python's `line.strip()` applied to every line, as the write loop does. */
  function StripAll(lines: seq<string>): (r: seq<string>)
    ensures |r| == |lines|
    ensures forall i :: 0 <= i < |lines| ==> r[i] == Strip(lines[i])
  {
    if lines == [] then [] else [Strip(lines[0])] + StripAll(lines[1..])
  }

  /** Reads newline-terminated lines back out of a file's content. */
  function ReadLines(s: string): seq<string>
    decreases |s|
  {
    if s == [] then []
    else
      var k := FirstNewline(s);
      if k == |s| then [s] else [s[..k]] + ReadLines(s[k + 1..])
  }

  lemma FirstNewlineOf(x: string, rest: string)
    requires '\n' !in x
    ensures FirstNewline(x + "\n" + rest) == |x|
  {
    var s := x + "\n" + rest;
    assert forall i :: 0 <= i < |x| ==> s[i] == x[i];
    assert s[|x|] == '\n';
  }

  lemma ReadLinesCons(head: string, tail: string)
    requires '\n' !in head
    ensures ReadLines(head + "\n" + tail) == [head] + ReadLines(tail)
  {
    var s := head + "\n" + tail;
    FirstNewlineOf(head, tail);
    assert s[..|head|] == head;
    assert s[|head| + 1..] == tail;
  }

  /** Reading the file back gives the stripped transcript lines, in order, as long as
      no line carries a newline inside its text. */
  lemma {:induction false} RenderReadBack(lines: seq<string>)
    requires forall i :: 0 <= i < |lines| ==> SingleLine(lines[i])
    ensures ReadLines(Render(lines)) == StripAll(lines)
    decreases |lines|
  {
    if lines != [] {
      var head := Strip(lines[0]);
      var tail := Render(lines[1..]);
      assert SingleLine(lines[0]);
      ReadLinesCons(head, tail);
      RenderReadBack(lines[1..]);
    }
  }
}
