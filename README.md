# Resumable LLM correction pass and transcript merge, modelled in Dafny

This project models the two pieces of the speech-transcription pipeline that
have logic of their own.

- **The batch correction pass of `LLMMistral.py`.** `main` loads the set of
  finished files from `checkpoint.log` and lists the `.json` files of the
  input directory. For each file not in that set, `process_file` sends the
  records, in order, to a language model through `correct_text_with_llm`. A
  record whose reply content is not a string or does not parse as JSON is
  appended to `error_segments.log`, and the record itself is kept. A request
  that fails outright makes the whole file fail (see below). When every
  record got a reply, the corrected list is written to the output directory
  under the same name, and only then does `save_checkpoint` append the name
  to the log.
- **`merge_segments` of `compare_and_merge_llm.py`.** It pairs the Whisper
  and faster-whisper record lists position by position, up to the shorter
  list.

## Modules

| file | module | role |
|---|---|---|
| `wrappers.dfy` | `Wrappers` | `Option` and `Result` |
| `json_value.dfy` | `JsonValue` | loaded JSON values; Python's `d[key]` and its `KeyError`/`TypeError` |
| `py_text.dfy` | `PyText` | `str.isspace`, `strip`, `startswith`/`endswith`; how a text file is read as lines (universal newlines) |
| `checkpoint.dfy` | `Checkpoint` | `load_checkpoint` and `save_checkpoint` on the log's text |
| `correction.dfy` | `Correction` | the reply clean-up and the outcome of one `correct_text_with_llm` call |
| `batch.dfy` | `Batch` | `process_file` and `main`: spec functions over a `Files` value, and a `Disk` class whose methods run the loops imperatively against them |
| `merge.dfy` | `Merge` | `merge_segments`: the spec function and the looping method |

## How the environment is modelled

There is no real file system or network. The state `Batch` writes is a
`Files` value, which the `Disk` class holds as fields:

- the checkpoint log's text, with `None` while the file does not exist;
- the error log, as the sequence of logged records;
- the output directory, as a map from file name to record list;
- the records a request was attempted for, in order (including those whose `requests.post` raised).

What the pass only reads is an `Env`:

- the directory listing;
- what `open` + `json.load` gives for each input, or `None` where it raises;
- whether writing each output succeeds;
- the model's reply to the `n`-th request overall;
- `json.loads`, as a partial function parameter.

A reply is `NoContent` when `requests.post`, `raise_for_status`, `.json()`
or the `["choices"][0]["message"]["content"]` lookup raised. Otherwise it is
`Content(raw)`.

## Where the code departs from its evident intent (the model follows the code)

- **A transport failure does not fall back to the original record.** The
  `except` block of `correct_text_with_llm` (LLMMistral.py:70-75) logs the
  record and returns it, so every failure inside the `try` was evidently
  meant to fall back. It does not when the request itself failed: the
  handler prints `raw` (LLMMistral.py:72), which was never bound, so the
  handler raises `UnboundLocalError`. Nothing is logged, the exception
  leaves `process_file`, and `main` catches it. The file is therefore not
  written and not checkpointed, and it stays eligible for the next run.
  `Correct` returns `Escaped` for this case. `NoContentFailsFile` and
  `ProcessOutcome` state what it does to the whole file. The intended
  behaviour is modelled beside it. `CorrectIntended` falls back on a reply
  without content too, and `ProcessWith` is `process_file` for any
  per-record handler. The record-loop lemmas (`CorrectPrefixThrough`,
  `CorrectPrefixRequests`, `CorrectPrefixLog`, `CorrectPrefixValues`) take
  the handler as a parameter. Through them, `IntendedProcessOutcome` shows
  that with the intended handler a readable file fails only when its output
  cannot be written, and `IntendedKeepsFile` exhibits a file that the code
  loses and the intended handler keeps.
- **A reply whose content is not a string does fall back.** Its `raw` is
  bound, and `raw.strip()` raises inside the `try`.
- **A name with surrounding whitespace never reads back as itself.** The
  log stores each name as given but `load_checkpoint` strips each line. Such
  a name is therefore never recognised as done and is re-processed on every
  run. `LoadAfterAppend` states this. The resumption lemmas (`RunResumes`,
  `SecondRunIsNoop`) hold for listed names without surrounding whitespace or
  line breaks, and say so in their requires.
- **A name with a line break is checkpointed as two names.** `save_checkpoint`
  writes the name and a newline, so a name holding `\n` (or a lone `\r`,
  which reading translates to `\n`) becomes two lines of the log, and each reads
  back as its own stripped name. A listed `x\ny.json` that is processed
  successfully checkpoints `x` and `y.json`. A `y.json` that was never
  processed is then skipped on the next run, and `x\ny.json` itself is never
  recognised as done. `AppendWithLineBreak` states this for `\n`, and
  `AppendWithCarriageReturn` for a lone `\r`.
- **A log whose last line lacks its newline loses that line on the next
  append.** `save_checkpoint` always ends the log with a newline, but a log
  edited by hand may not. The next name is then written onto the unfinished
  line, and neither name reads back: a log holding `a.json` becomes
  `a.jsonb.json` after saving `b.json`. `AppendToUnterminatedLine` states
  this. The lemmas that say no name is lost (`LoadGrowsOnAppend`,
  `LoopGrows`, `RunLoad`) require a log that ends in a newline.

## Model

| member | source | states |
|---|---|---|
| PyText.IsSpace | LLMMistral.py:34 | the space, tab, `\n` and `\r` are whitespace; letters, digits, `.` and `_` are not |
| PyText.StartsWith | LLMMistral.py:64 | `s.startswith(prefix)`, the `^` anchor of the pattern: `s` is the prefix followed by the rest of `s` |
| PyText.EndsWith | LLMMistral.py:96 | `f.endswith(".json")`: `s` is its front followed by the suffix |
| PyText.Strip | LLMMistral.py:34 | `strip()` leaves no whitespace at either end, never grows the string, and yields "" exactly for all-whitespace input |
| PyText.StripPadded | LLMMistral.py:34 | stripping whitespace padding off an already stripped string gives that string back |
| PyText.StripFixpoint | LLMMistral.py:34 | `strip()` leaves a string unchanged iff it has no whitespace at either end |
| PyText.Normalize | LLMMistral.py:33 | reading in text mode leaves no `\r` and never lengthens the text |
| PyText.Lines | LLMMistral.py:34 | iterating the file yields lines none of which holds a `\n` |
| PyText.NormalizeAppend | LLMMistral.py:33-34 | universal-newline translation of a concatenation is the concatenation of the translations when the first part does not end in `\r` |
| PyText.NormalizeCarriageReturn | LLMMistral.py:33-34 | reading a line with a lone `\r` inside it gives two lines, or one when nothing follows the `\r` |
| PyText.LinesAppend | LLMMistral.py:34 | iterating a text file after appending to one that ends in a newline yields the old lines followed by the new ones |
| Checkpoint.LoadCheckpoint | LLMMistral.py:30-34 | a missing log loads as the empty set; every loaded name is non-blank and stripped |
| Checkpoint.Entry | LLMMistral.py:34 | a line contributes nothing iff it is all whitespace, and otherwise its stripped text, which is non-empty |
| Checkpoint.LineSet | LLMMistral.py:34 | every name of the set built from the lines is non-empty and stripped |
| Checkpoint.LineSetMembers | LLMMistral.py:34 | a name is in the loaded set iff it is non-blank and some line of the log strips to it |
| Checkpoint.LineSetAppend | LLMMistral.py:34 | the set built from two runs of lines is the union of their sets (duplicates merge) |
| Checkpoint.LoadCheckpointLines | LLMMistral.py:30-34 | a missing log and an empty log load alike: the set of the log's lines |
| Checkpoint.AppendLine | LLMMistral.py:37-39 | appending creates the log if needed, keeps the old text as a prefix and adds exactly the name and a newline |
| Checkpoint.LoadAfterAppend | LLMMistral.py:30-39 | after appending a name without line breaks to a log that ends in a newline, the set read back is the old set plus the stripped name, the log still ends in a newline, and the name itself reads back iff it was there or is non-blank and stripped |
| Checkpoint.AppendWithLineBreak | LLMMistral.py:30-39 | appending a name `a` + `\n` + `b` writes the same text as appending `a` then `b`; read back, the log gains both stripped parts as separate names, so a plain `b` reads back as done |
| Checkpoint.AppendWithCarriageReturn | LLMMistral.py:30-39 | appending a name `a` + `\r` + `b` to a log that ends in a newline loads as the old set plus both stripped parts, as for `\n` |
| Checkpoint.LoadGrowsOnAppend | LLMMistral.py:30-39 | for a log that ends in a newline, whatever the name, an append never removes a name from the loaded set |
| Checkpoint.OneNameLog | LLMMistral.py:30-34 | a log holding one plain name, with or without its final newline, loads as exactly that name |
| Checkpoint.AppendToUnterminatedLine | LLMMistral.py:30-39 | appending to a log whose one line lacks its newline loads as the two names run together, and neither the old nor the new name reads back |
| Correction.DropAssistantPrefix | LLMMistral.py:64 | text not starting with `Assistant:` is kept; otherwise the prefix and the whitespace after it are dropped, leaving a suffix that starts with no whitespace |
| Correction.Clean | LLMMistral.py:64 | the text handed to `json.loads` is stripped and is a suffix of the stripped reply, and equals it when the reply does not start with `Assistant:` |
| Correction.CleanDecorated | LLMMistral.py:64 | whitespace, `Assistant:`, whitespace, a stripped body and whitespace clean to exactly the body; only one prefix is removed |
| Correction.Correct | LLMMistral.py:58-75 | the call raises exactly when the request produced no content; it returns the parsed reply exactly when the content is a string whose cleaned text parses; otherwise it returns the original record |
| Batch.JsonNames | LLMMistral.py:96 | each listed name is a candidate as often as it is listed when it ends in `.json`, and never otherwise |
| Batch.JsonNamesAppend | LLMMistral.py:96 | filtering a concatenated listing is the concatenation of the filtered parts, so the listing's order is kept |
| Batch.JsonNamesSingle | LLMMistral.py:96 | a single name is kept iff it ends in `.json` |
| Batch.JsonNamesListed | LLMMistral.py:96 | every candidate is a listed name |
| Batch.Pending | LLMMistral.py:102-105 | the names handed on are exactly the candidates not in the loaded set, with their multiplicities |
| Batch.PendingAppend | LLMMistral.py:102-105 | the names handed on from a concatenation are those of the first part followed by those of the second, in order |
| Batch.PendingSingle | LLMMistral.py:102-105 | a single name is handed on iff it is not in the loaded set |
| Batch.Committed | LLMMistral.py:37-39 | the text successive `save_checkpoint` calls write for a sequence of names: one line per name, so it ends in a newline and is at least as long as the sequence |
| Batch.CommittedAppend | LLMMistral.py:37-39 | saving two runs of names writes the lines of the first run, then those of the second |
| Batch.CommittedLines | LLMMistral.py:30-39 | the lines saved for names without line breaks read back, in order, as exactly those names |
| Batch.Record | LLMMistral.py:59-75 | one call's effects: the record joins the requests, and it joins the error log when the call fell back |
| Batch.RecordEffects | LLMMistral.py:59-75 | one call adds its record to the requests, adds it to the error log iff the call fell back and otherwise leaves that log alone, and never touches the checkpoint log or the outputs |
| Batch.CorrectPrefix | LLMMistral.py:82-86 | the record loop never touches the checkpoint log or the outputs; when it gets through `n` records it holds `n` results and has sent `n` requests |
| Batch.FirstEscape | LLMMistral.py:84-86 | the position of the first record whose call raises: every call before it returns, and the one there raises |
| Batch.FallbackLog | LLMMistral.py:70-75 | the records logged from the first `n` are at most `n`, and each is one of them |
| Batch.Sent | LLMMistral.py:84-86 | the number of requests sent lies between the first raising position and `n` |
| Batch.CorrectPrefixThrough | LLMMistral.py:84-86 | the record loop gets through the first `n` records exactly when no call among them raised |
| Batch.CorrectPrefixRequests | LLMMistral.py:84-86 | the loop sends the records in order, up to and including the first whose call raised |
| Batch.CorrectPrefixLog | LLMMistral.py:70-75 | the error log gains, in order, exactly the records before the first raising call whose call fell back |
| Batch.CorrectPrefixValues | LLMMistral.py:84-86 | when the loop gets through, position `i` of the corrected list is the result of the call for record `i`, sent as the `i`-th request of the file |
| Batch.CorrectPrefixStops | LLMMistral.py:84-86 | once a call has raised, later records are never looked at |
| Batch.ProcessWith | LLMMistral.py:78-91 | `process_file` with a given per-record handler never touches the checkpoint log; a failed call leaves the outputs alone, and a successful one writes exactly its own output |
| Batch.ProcessSpec | LLMMistral.py:78-91 | `process_file` never touches the checkpoint log; a failed call leaves the outputs alone, and a successful one writes exactly its own output |
| Batch.FirstEscapeNoContent | LLMMistral.py:58-75 | the first raising call of a file is exactly the first request that produced no content |
| Batch.ProcessOutcome | LLMMistral.py:78-91 | `process_file` returns iff the input reads, every request of the file produced content and the output can be written; it gives the requests sent, the records logged, and the written output at each position |
| Batch.NoContentFailsFile | LLMMistral.py:70-75 | a request with no content makes the whole file fail, with no output written and no more logged records than records before it |
| Correction.CorrectIntended | LLMMistral.py:58-75 | the handler as its `except` block evidently intends: it never raises, returns the parsed reply exactly when the content is a string whose cleaned text parses, and otherwise returns the original record |
| Correction.CorrectIntendedDiffers | LLMMistral.py:58-75 | the intended handler agrees with the code on every reply with content; on a reply without content the code raises and the intended handler returns the record |
| Batch.IntendedNeverEscapes | LLMMistral.py:70-75 | with the intended handler no call of a file raises |
| Batch.FallbackLogged | LLMMistral.py:70-75 | every record among the first `n` whose call fell back is in the error log |
| Batch.ProcessThrough | LLMMistral.py:78-91 | with a handler under which no call of the file raises, a readable input fails only when its output cannot be written; all records are sent, the error log gains exactly the fallback records, and each position holds the handler's result |
| Batch.IntendedProcessOutcome | LLMMistral.py:70-91 | with the intended handler a readable file succeeds iff its output can be written; every record is sent, the error log gains exactly the fallback records, and each position holds the parsed reply or the original record |
| Batch.IntendedLogsNoContent | LLMMistral.py:70-75 | with the intended handler a record whose request produced no content reaches the error log |
| Batch.IntendedKeepsFile | LLMMistral.py:70-91 | a readable, writable file with a request that produced no content fails as written, but is written under the intended handler with that record kept as it was |
| Batch.ProcessorFrames | LLMMistral.py:78-91 | `process_file`, as the step of main's loop, keeps the checkpoint log and writes at most its own output |
| Batch.Handle | LLMMistral.py:110-115 | one `try` of main's loop records the call and its outcome, appends the name as a line of the log iff the call returned, and otherwise keeps what `process_file` left |
| Batch.Step | LLMMistral.py:102-105 | a name in the loaded set is skipped with nothing changed; any other name is handed to `process_file` and its outcome recorded |
| Batch.LoopPrefix | LLMMistral.py:102-115 | the loop after its first `n` turns has called `process_file` for no name in the loaded set |
| Batch.LoopAttempts | LLMMistral.py:102-115 | the loop calls `process_file` for exactly the names outside the loaded set, in order |
| Batch.LoopCheckpoint | LLMMistral.py:110-115 | the log text gains one line per call that returned, in order |
| Batch.LoopOutputs | LLMMistral.py:110-115 | an output changes only under a name whose call returned |
| Batch.LoopLoad | LLMMistral.py:110-115 | for a log that ends in a newline and names without line breaks, the log read back holds the old set plus the stripped names whose call returned |
| Batch.LoopGrows | LLMMistral.py:110-115 | for a log that ends in a newline, no entry of the log is ever lost |
| Batch.LoopAllDone | LLMMistral.py:102-105 | a loop over names all in the loaded set changes nothing |
| Batch.RunSpec | LLMMistral.py:94-115 | with no `.json` name listed a run changes nothing and makes no call, and it never calls `process_file` for a name in the loaded set |
| Batch.RunAttempts | LLMMistral.py:94-115 | the calls of a run are, in order, for exactly the listed `.json` names outside the loaded set |
| Batch.RunSkipsDone | LLMMistral.py:102-105 | no call is made for a name in the loaded set, and every call is for a listed `.json` name |
| Batch.RunCheckpoint | LLMMistral.py:94-115 | after a run the log is the old text followed by one line per successful file, in processing order |
| Batch.RunOutputs | LLMMistral.py:94-115 | an output file can only change for a name whose processing returned |
| Batch.RunLoad | LLMMistral.py:94-115 | on a log ending in a newline and listed `.json` names without line breaks, the set loaded after a run is the old set plus the stripped names of the successful files |
| Batch.SucceededPlain | LLMMistral.py:34-39 | for plain listed names, the names a run adds to the set are exactly those whose call returned |
| Batch.RunResumes | LLMMistral.py:94-115 | the next run skips a plain name iff this run skipped it or processed it successfully; a failed file stays eligible |
| Batch.RerunIsNoop | LLMMistral.py:96-105 | when every listed `.json` name is in the loaded set, a run changes nothing and makes no call |
| Batch.RunCovers | LLMMistral.py:94-115 | after a run in which every call returned, every listed `.json` name is in the loaded set |
| Batch.SecondRunIsNoop | LLMMistral.py:94-115 | after a run in which every call returned, a second run over the same listing changes nothing |
| Batch.Disk.SaveCheckpoint | LLMMistral.py:37-39 | the log becomes the old log with the name and a newline appended; nothing else changes |
| Batch.Disk.CorrectText | LLMMistral.py:42-75 | one call: the record is sent, the result is `Correct` of the reply to that request, and a fallback record is appended to the error log |
| Batch.Disk.CorrectRecords | LLMMistral.py:82-86 | the record loop leaves exactly the state and result of the specified loop over all records |
| Batch.Disk.ProcessFile | LLMMistral.py:78-91 | `process_file` leaves exactly the state and outcome its spec function gives |
| Batch.Disk.HandleFile | LLMMistral.py:107-115 | the `try` of main's loop: process the file and checkpoint it iff that returned |
| Batch.Disk.Run | LLMMistral.py:94-100 | `main` leaves exactly the state of the specified run and records its calls |
| Batch.Disk.RunLoop | LLMMistral.py:102-115 | the loop over the candidate files leaves exactly the state of the specified loop |
| Merge.MergePair | compare_and_merge_llm.py:17-23 | a pair merges iff the Whisper record is a dictionary with `start`, `end` and `text` and the faster-whisper record is one with `text`; the fields are copied, with speaker `"Unknown"` when absent; otherwise the first failing lookup's error is raised |
| Merge.Get | compare_and_merge_llm.py:20 | `d.get(key, default)`: the entry when the key is present, even `null`, and the default otherwise |
| JsonValue.Subscript | compare_and_merge_llm.py:18-22 | `d[key]` gives the value iff the value is a dictionary holding the key, and raises `KeyError(key)` on a dictionary without it and `TypeError` otherwise |
| Merge.MergePrefix | compare_and_merge_llm.py:15-24 | when the first `n` turns get through, the list so far holds `n` records |
| Merge.MergeAll | compare_and_merge_llm.py:14-24 | a merge that gets through has the shorter list's length, and an empty list on either side merges to the empty list |
| Merge.FirstFailure | compare_and_merge_llm.py:16-23 | the position of the first pair that raises |
| Merge.MergePrefixClosed | compare_and_merge_llm.py:15-24 | the loop gets through exactly when no pair raises, and then position `i` is pair `i` merged; otherwise the first failing pair's error is raised |
| Merge.MergeAllFields | compare_and_merge_llm.py:14-24 | for well-formed records the result has the length of the shorter list, and each position holds the Whisper start, end, speaker (or `"Unknown"`) and text and the faster-whisper text |
| Merge.MergePrefixLocal | compare_and_merge_llm.py:16-23 | the first `n` turns read only the first `n` records of each list |
| Merge.MergeIgnoresTail | compare_and_merge_llm.py:16 | records past the shorter length never affect the result |
| Merge.MergeUsesFastTextOnly | compare_and_merge_llm.py:22 | of a faster-whisper record only its `text` is read |
| Merge.MergeSegments | compare_and_merge_llm.py:14-24 | the loop returns exactly the specified merge; on success it has the shorter length and position `i` is pair `i` merged |

## Findings

| source | as written | input that shows it | evidently intended | confidence | as-written member | corrected member |
|---|---|---|---|---|---|---|
| LLMMistral.py:72 | the handler prints `raw`, which is unbound when `requests.post`, `raise_for_status`, `.json()` or the `choices` lookup raised, so it raises `UnboundLocalError` | a readable, writable input file whose first request fails (for example, the server is unreachable) | the record is logged and kept, and the file is written and checkpointed | not executed | Batch.NoContentFailsFile | Batch.IntendedProcessOutcome |

## Left out

- The HTTP exchange (`requests.post`, status check, `.json()`, the `choices` lookup) is a reply oracle indexed by request number, because it is network I/O.
- `json.loads`, `json.load` and `json.dump` are parameters, because a JSON parser and printer are not modelled.
- `json.dumps` of the prompt and of the logged record is left out. The error log is the sequence of logged records, not its text.
- The prompt and the request payload are left out: they cannot affect control flow once the reply is an oracle.
- `print` and `tqdm` are left out: they only produce console output.
- An input document that is not a list is left out. `process_file` iterates it, and only the list case is modelled.
- Partial writes are left out. An output that fails is modelled as not written at all.
- Failures of the error-log append inside the handler and of `save_checkpoint` inside main's `try` are left out. Both are assumed to succeed.
- A failure of `load_checkpoint` or `os.listdir`, which would end `main`, is left out.
- Concurrent runs against the same log are left out. The model is single-threaded.
- Translation of `\n` on write is left out: the log is written with `\n` line ends.
- Dictionary key order and the `indent`/`ensure_ascii` formatting of written files are left out.
- load_json, save_json and main of compare_and_merge_llm.py are left out. They are file I/O around `merge_segments`, whose inputs are modelled as the loaded record lists, and the `len` of a non-list document is not modelled.
- `os.path.join` and `os.makedirs` are left out. Outputs are keyed by the plain file name.
- batch_runner.py, transcribe_whisper.py, transcribe_fastwhisper.py, diarize.py and extract_audio.py are not part of this model. They are library invocations and floating-point time conversion.
- Batch.RunResumes, Batch.RunCovers and Batch.SecondRunIsNoop are stated only for listed names without surrounding whitespace or line breaks and for a log ending in a newline. For other names the log does not read back as written: see the whitespace and line-break bullets above.
