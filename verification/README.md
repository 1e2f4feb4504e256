# Live transcript loop — Dafny model

This project models the core of `live-transcript.txt.py`. That program records the
microphone in the background, groups the recorded audio into spoken phrases by the
wall-clock gap between polling cycles, and re-transcribes the whole current phrase on
every cycle. It keeps a running transcript, with one line per phrase, and rewrites a
plain-text file with that transcript after every cycle that found audio.

The model covers, as pure functions over immutable data:

- **Device choice** (`Devices`). The `--input_device` argument is either `list`, a
  digit string naming an index, or a case-insensitive fragment of a device name.
- **Output file name** (`Output.OutputFilename`). It is
  `{save_name}_{timestamp}.{save_format}`, and the timestamp string is a parameter.
- **Queue drain and phrase segmenter** (`Segmenter`). The pending chunks are joined in
  order. A new phrase starts only when an earlier cycle left a `phrase_time` and the
  gap is strictly longer than `phrase_timeout`. The phrase buffer is reset at a new
  phrase and then extended with the drained audio.
- **Transcript update** (`Transcript`). The engine's whole text is stripped. An
  exception becomes the empty text. A non-empty text is appended on a new phrase and
  otherwise replaces the last line.
- **Text file content** (`Output.Render`). Each line is stripped and newline-terminated.
- **One loop iteration and runs of iterations** (`Pipeline`). These compose the above
  with the engine passed in as a function.
- **A defect in the loop and its correction** (`PendingBoundary`). See "## Findings".

Time is an integer number of microseconds, which is the resolution of Python's
`datetime` and `timedelta`. The transcription engine is a total function from the
phrase buffer's bytes to `Option<string>`, where `None` stands for a raised exception.
Each iteration of a run carries its own engine function, so a failure on one
iteration says nothing about the others. Queued chunks hold whole 16-bit samples.
Python's `str.strip()` is modelled with the exact `str.isspace()` character set.
`lower()` and `isdigit()` are modelled on ASCII.

Three facts about the code shape the model:

- `phrase_time` and the buffer reset (lines 82-85) happen before the engine call, so a
  failed transcription still starts the new phrase and keeps the new phrase time.
- An iteration does its work whenever the queue is non-empty (line 80), even if the
  drained bytes are empty.
- Only the plain-text format exists: the argument parser admits `txt` only (line 23),
  and only the engine's whole text is read (line 103).

## Model

| member | source | states |
|---|---|---|
| Segmenter.DrainQueue | live-transcript.txt.py:87-88 | the joined audio is every queued chunk in queue order, its length is the sum of the chunk lengths, and the queue is left empty |
| Segmenter.FlattenLayout | live-transcript.txt.py:87 | chunk i sits in the joined audio exactly after the bytes of the chunks before it, so nothing is lost, reordered or duplicated |
| Segmenter.Advance | live-transcript.txt.py:81-85 | the cycle time becomes the phrase time, and a new phrase is reported exactly when a previous time exists and the gap exceeds the timeout |
| Segmenter.FirstCycleContinues | live-transcript.txt.py:81-89 | with no earlier phrase time there is no boundary, and the audio extends the buffer |
| Segmenter.GapDecidesBuffer | live-transcript.txt.py:82-89 | a gap strictly longer than the timeout leaves only the new audio; a gap equal to the timeout or shorter keeps extending the phrase |
| Segmenter.RunBoundaries | live-transcript.txt.py:80-85 | across a run of data-bearing cycles, a boundary is reported exactly at the cycles whose gap to the previous cycle exceeds the timeout, and never at the first |
| Segmenter.RunTime | live-transcript.txt.py:85 | after a run the phrase time is the last cycle's time, or unset for an empty run |
| Segmenter.RunBuffer | live-transcript.txt.py:80-89 | after any run the buffer is exactly the audio of the cycles since the one that opened the current phrase, in order |
| Text.Strip | live-transcript.txt.py:103 | the result neither starts nor ends with whitespace and is no longer than the input |
| Text.TrimStartDrops | live-transcript.txt.py:103 | what stripping the front keeps is a suffix of the input, and everything it drops is whitespace |
| Text.TrimEndDrops | live-transcript.txt.py:103 | what stripping the end keeps is a prefix of the input, and everything it drops is whitespace |
| Text.StripInfix | live-transcript.txt.py:103 | the input is the stripped text with whitespace before it and whitespace after it |
| Text.StripSurrounded | live-transcript.txt.py:103 | any whitespace around a stripped string is removed exactly, giving that string back |
| Text.StripIdempotent | live-transcript.txt.py:117 | stripping a stripped line changes nothing |
| Text.DecimalRoundTrip | live-transcript.txt.py:47-52 | reading back the decimal form of an index gives the index |
| Transcript.CycleText | live-transcript.txt.py:92-105 | the cycle's text is the engine's whole text stripped, or empty when the engine raised, and is always stripped |
| Transcript.Update | live-transcript.txt.py:107-111 | empty text changes nothing; otherwise a new phrase appends the text and a continuing phrase replaces only the last line; earlier lines are kept |
| Transcript.UpdateKeepsValid | live-transcript.txt.py:107-111 | the transcript stays non-empty with every line stripped |
| Output.FilenameRoundTrip | live-transcript.txt.py:31 | cutting the file name at its last dot gives back the base name and timestamp, and the format as extension |
| Output.RenderAppend | live-transcript.txt.py:116-117 | the file content of a concatenated transcript is the concatenation of the contents |
| Output.RenderNewlines | live-transcript.txt.py:116-117 | the file holds one terminating newline per transcript line plus any newline inside a stripped line |
| Output.RenderLineCount | live-transcript.txt.py:116-117 | without newlines inside the lines, the file has exactly one newline per transcript line |
| Output.RenderReadBack | live-transcript.txt.py:116-117 | reading the file back line by line gives the stripped transcript lines in order, when no stripped line holds a newline of its own |
| Devices.Scan | live-transcript.txt.py:50-57 | the enumeration stops at the first matching device, and reports none only when no device from the start position matches |
| Devices.SelectDevice | live-transcript.txt.py:44-57 | `list` and only `list` lists the devices; no argument uses the default; a chosen index is in range, matches and has no earlier match; the default is used only when nothing matches |
| Devices.DigitSelection | live-transcript.txt.py:51-54 | a digit string selects the device at that index when it is in range, and the default device otherwise |
| Devices.ListedIndexSelects | live-transcript.txt.py:46-54 | typing an index shown in the listing selects that device |
| Devices.NameSelection | live-transcript.txt.py:55-57 | any other query selects device i exactly when name i contains the query ignoring case and no earlier name does |
| Devices.NameFallback | live-transcript.txt.py:55-57 | any other query selects the default device exactly when no name contains it ignoring case, including when there is no device |
| Devices.EmptyQuerySelectsFirst | live-transcript.txt.py:55-57 | an empty query selects the first device |
| Pipeline.Next | live-transcript.txt.py:79-126 | an iteration keeps the transcript non-empty and stripped and the buffer in whole samples, changes nothing when the queue is empty, and stamps the phrase with the cycle time otherwise |
| Pipeline.Step | live-transcript.txt.py:80-117 | the queue is always left empty, and the file is rewritten with the whole new transcript exactly when the iteration found data |
| Pipeline.NextKeepsEarlierLines | live-transcript.txt.py:107-111 | an iteration adds at most one line and leaves every line before the last unchanged |
| Pipeline.StepGrowth | live-transcript.txt.py:82-109 | the transcript gains a line exactly when the iteration opens a new phrase and the engine's text is not blank |
| Pipeline.BlankTextKeepsTranscript | live-transcript.txt.py:83-107 | blank text leaves the transcript unchanged, even though a new phrase has already emptied the buffer |
| Pipeline.StepBuffer | live-transcript.txt.py:83-96 | the engine is given the new phrase buffer, which is the whole phrase so far (the old buffer plus the drained chunks, or only the drained chunks at a new phrase) and holds whole 16-bit samples |
| Pipeline.FirstDataReplacesEmptyLine | live-transcript.txt.py:80-111 | the first iteration with data never opens a phrase, and its text replaces the initial empty line |
| Pipeline.WrittenFileReadsBack | live-transcript.txt.py:103-117 | the written file reads back as the transcript itself, with one newline per line, when no line holds a newline of its own |
| Pipeline.RunKeepsEarlierLines | live-transcript.txt.py:77-111 | over any number of iterations the transcript never shrinks, and lines before the initially last one never change |
| Pipeline.RunPhrase | live-transcript.txt.py:77-89 | after any iterations, empty-queue ones included, the loop's phrase state is the segmenter's state after exactly the data-bearing iterations, so the segmenter's run lemmas describe the loop |
| Pipeline.RunGrowthBound | live-transcript.txt.py:77-111 | over any number of iterations the transcript gains at most one line per iteration |
| PendingBoundary.AsWrittenOverwritesPhrase | live-transcript.txt.py:82-111 | as written, with data at 0 s, 10 s and 11 s and an engine that raises at 10 s, the first phrase's line is replaced by the second phrase's text |
| PendingBoundary.CorrectedKeepsBothPhrases | live-transcript.txt.py:82-111 | corrected, on the same three iterations, the transcript ends with both phrases' lines, first then second |
| PendingBoundary.StepCorrected | live-transcript.txt.py:82-111 | the corrected iteration keeps the transcript valid, and while a boundary is pending the transcript is untouched |
| PendingBoundary.CorrectedAgreesWithoutPending | live-transcript.txt.py:80-111 | with no pending boundary the corrected iteration is the loop as written |
| PendingBoundary.PendingCycleAppends | live-transcript.txt.py:107-111 | with a boundary pending, a continuing iteration with non-blank text appends a line instead of replacing the last one |
| PendingBoundary.RunKeepsClosed | live-transcript.txt.py:82-111 | under the corrected iteration, a transcript that is a prefix with a pending boundary or a newer line stays so through any run of iterations |
| PendingBoundary.CorrectedKeepsClosedPhrases | live-transcript.txt.py:82-111 | after an iteration that opens a phrase, the transcript before it stays a prefix through every later iteration, whatever the engine returns |

## Left out

- Microphone capture is not modelled. This covers ambient-noise calibration, the background listener and its callback (lines 59, 66-73), and the thread-safe queue. The queue found at each cycle is a parameter, and its drain is taken as atomic. The source joins the queue's contents (line 87) and clears them (line 88) as two statements outside the queue's lock, so a chunk the listener puts between them is cleared without being read; the "nothing lost" of `Segmenter.DrainQueue` and `Segmenter.FlattenLayout` holds for the atomic drain only.
- The `--default_microphone` argument added on Linux (lines 25-26) is not modelled; it is parsed and never used.
- The conversion of the buffer to float samples, the model load and the engine call (lines 60, 90, 95-100) are not modelled. The engine is a parameter from the phrase bytes to a text or a failure.
- Argument parsing, `datetime.now()` and `strftime` are not modelled (lines 16-30, 79). The clock reading and the timestamp string are parameters.
- The conversion of the float `--phrase_timeout` to a `timedelta` is not modelled; the timeout is taken as an integer number of microseconds.
- File I/O and its error handler (lines 115-119), console clearing and printing (lines 121-124), `sleep(0.25)` (line 126), and the `KeyboardInterrupt` exit with its final print (lines 127-132) are not modelled. `Pipeline.Step` gives the content the file is rewritten with, not the write itself.
- Pipeline.Next: chunks are taken to hold whole 16-bit samples, as the recorder delivers them, so the buffer always has an even length; the uncaught `ValueError` that line 90 would raise on an odd-length buffer, which ends the program, is not modelled.
- Text.Lower: only ASCII letters are lowered; Python's `str.lower()` also lowers other scripts.
- Text.IsDigits: only ASCII digits count. Python's `isdigit()` also accepts other digits, for which the source's `int(...)` may raise.
- Output.RenderReadBack: read-back is proved only when no stripped line holds a newline of its own; engine text can contain one, and such a line then reads back as several lines.
- Output.RenderLineCount: the one-newline-per-line count holds only when no stripped line carries an interior newline, which engine text can contain; `Output.RenderNewlines` states the general count.

## Findings

| source | as written | input that shows it | evidently intended | confidence | as-written member | corrected member |
|---|---|---|---|---|---|---|
| live-transcript.txt.py:82-111 | a phrase boundary is recorded only in the local `phrase_complete`; when that cycle's text is blank, the buffer is already reset but no line is appended, and the next cycle sees no boundary and overwrites the previous phrase's line | timeout 6 s; data at 0 s and the engine hears "hello"; data at 10 s and the engine raises; data at 11 s and the engine hears "world" on the grown buffer; the transcript goes from ["hello"] to ["world"] | a boundary stays pending until a non-blank text gives the new phrase its own line, so a finished phrase's line is never overwritten | not executed | PendingBoundary.AsWrittenOverwritesPhrase | PendingBoundary.CorrectedKeepsClosedPhrases |

`Pipeline` models the loop as written. `PendingBoundary.StepCorrected` is the corrected
iteration, and `PendingBoundary.CorrectedAgreesWithoutPending` shows it differs from the
written loop only while a boundary is pending. `PendingBoundary.CorrectedKeepsBothPhrases`
runs the corrected iteration on the example that loses a line as written and shows
that both lines are kept.
