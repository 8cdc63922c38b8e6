/**
 * The resumable batch correction pass of LLMMistral.py: every `.json` file
 * of the input directory that checkpoint.log does not name is read, and its
 * records are sent, in order, through correct_text_with_llm. A record whose
 * reply content is not a string or does not parse is logged and kept; a
 * request that fails outright makes the whole file fail, with no later
 * record sent. When every record got a reply, the corrected list is written
 * to the output directory under the same name, and only then is the name
 * appended to checkpoint.log.
 *
 * The file system is abstract: the two logs, the output directory and the
 * history of what was asked of the language model make up `Files`; what the
 * pass only reads (the directory listing, the input documents, whether an
 * output can be written, the model's replies, the JSON parser) is an `Env`.
 */
module Batch {
  import opened Wrappers
  import opened JsonValue
  import opened PyText
  import opened Checkpoint
  import opened Correction

  const JsonSuffix: string := ".json"

  /** Everything the pass writes, plus what it tried to ask the language model. */
  datatype Files = Files(
    checkpoint: Option<string>,        // checkpoint.log; None while it does not exist
    errorLog: seq<Json>,               // error_segments.log: each entry is json.dumps(record) + "\n\n"
    outputs: map<string, seq<Json>>,   // the output directory: corrected record lists by file name
    requests: seq<Json>)               // records a request was attempted for, in order

  /** What the pass reads and cannot change. */
  datatype Env = Env(
    listing: seq<string>,               // os.listdir of the input directory, in its order
    read: string -> Option<seq<Json>>,  // open + json.load of an input file; None where either raises
    writable: string -> bool,           // whether makedirs, open and json.dump of the output succeed
    service: nat -> Reply,              // the model's answer to the n-th request ever sent
    parse: string -> Option<Json>)      // json.loads; None where it raises

  /** One call of process_file from main, and whether it returned normally. */
  datatype Attempt = Attempt(name: string, ok: bool)

  // ---------------------------------------------------------------------
  // Sequences the run is described by
  // ---------------------------------------------------------------------

  /** `[f for f in listing if f.endswith(".json")]`: each name kept as often as it is listed, or dropped. */
  function JsonNames(listing: seq<string>): (files: seq<string>)
    ensures forall x :: multiset(files)[x] == if EndsWith(x, JsonSuffix) then multiset(listing)[x] else 0
  {
    if listing == [] then []
    else
      var init, last := listing[..|listing| - 1], listing[|listing| - 1];
      assert listing == init + [last];
      if EndsWith(last, JsonSuffix) then JsonNames(init) + [last] else JsonNames(init)
  }

  /** The files main hands to process_file: those not in the loaded checkpoint set, in order. */
  function Pending(files: seq<string>, done: set<string>): (todo: seq<string>)
    ensures forall x :: multiset(todo)[x] == if x in done then 0 else multiset(files)[x]
  {
    if files == [] then []
    else
      var init, last := files[..|files| - 1], files[|files| - 1];
      assert files == init + [last];
      if last in done then Pending(init, done) else Pending(init, done) + [last]
  }

  /** The filter keeps listing order: it works on a listing piece by piece ... */
  lemma {:induction false} JsonNamesAppend(a: seq<string>, b: seq<string>)
    ensures JsonNames(a + b) == JsonNames(a) + JsonNames(b)
    decreases |b|
  {
    if b == [] {
      assert a + b == a;
    } else {
      var init := b[..|b| - 1];
      assert (a + b)[..|a + b| - 1] == a + init;
      JsonNamesAppend(a, init);
    }
  }

  /** ... and keeps a single name exactly when it ends in `.json`. */
  /** Every candidate is a listed name. */
  lemma JsonNamesListed(listing: seq<string>)
    ensures forall x :: x in JsonNames(listing) ==> x in listing
  {
    forall x | x in JsonNames(listing) ensures x in listing {
      assert multiset(JsonNames(listing))[x] > 0;
    }
  }

  lemma JsonNamesSingle(x: string)
    ensures JsonNames([x]) == if EndsWith(x, JsonSuffix) then [x] else []
  {
    assert [x][..0] == [];
  }

  /** The skip keeps order too: it works on the candidates piece by piece ... */
  lemma {:induction false} PendingAppend(a: seq<string>, b: seq<string>, done: set<string>)
    ensures Pending(a + b, done) == Pending(a, done) + Pending(b, done)
    decreases |b|
  {
    if b == [] {
      assert a + b == a;
    } else {
      var init := b[..|b| - 1];
      var last := b[|b| - 1];
      assert (a + b)[..|a + b| - 1] == a + init && (a + b)[|a + b| - 1] == last;
      assert b[..|b| - 1] == init;
      PendingAppend(a, init, done);
      if last !in done {
        Assoc(Pending(a, done), Pending(init, done), [last]);
      }
    }
  }

  /** ... and keeps a single name exactly when it is not done. */
  lemma PendingSingle(x: string, done: set<string>)
    ensures Pending([x], done) == if x in done then [] else [x]
  {
    assert [x][..0] == [];
  }

  function Names(attempts: seq<Attempt>): (names: seq<string>)
    ensures |names| == |attempts|
    ensures forall i :: 0 <= i < |attempts| ==> names[i] == attempts[i].name
  {
    if attempts == [] then [] else Names(attempts[..|attempts| - 1]) + [attempts[|attempts| - 1].name]
  }

  /** Names of the attempts that returned normally, in order. */
  function Succeeded(attempts: seq<Attempt>): (names: seq<string>)
    ensures forall x :: x in names <==> Attempt(x, true) in attempts
  {
    if attempts == [] then []
    else
      var init, last := attempts[..|attempts| - 1], attempts[|attempts| - 1];
      assert attempts == init + [last];
      if last.ok then Succeeded(init) + [last.name] else Succeeded(init)
  }

  /** The text save_checkpoint writes for a sequence of names: one line per name. */
  function Committed(names: seq<string>): (text: string)
    ensures EndsLine(text)
    ensures |text| >= |names|
  {
    if names == [] then "" else Committed(names[..|names| - 1]) + names[|names| - 1] + "\n"
  }

  /** Saving two runs of names writes the lines of the first, then those of the second. */
  lemma {:induction false} CommittedAppend(a: seq<string>, b: seq<string>)
    ensures Committed(a + b) == Committed(a) + Committed(b)
    decreases |b|
  {
    if b != [] {
      var init, last := b[..|b| - 1], b[|b| - 1];
      assert (a + b)[..|a + b| - 1] == a + init && (a + b)[|a + b| - 1] == last;
      CommittedAppend(a, init);
      calc {
        Committed(a + b);
        Committed(a + init) + last + "\n";
        Committed(a) + Committed(init) + last + "\n";
        { Assoc(Committed(a) + Committed(init), last, "\n");
          Assoc(Committed(a), Committed(init), last + "\n");
          Assoc(Committed(a), Committed(init) + last, "\n");
          Assoc(Committed(init), last, "\n"); }
        Committed(a) + (Committed(init) + last + "\n");
        Committed(a) + Committed(b);
      }
    } else {
      assert a + b == a;
    }
  }

  /** The lines saved for names without line breaks read back as exactly those names, in order. */
  lemma {:induction false} CommittedLines(names: seq<string>)
    requires forall i :: 0 <= i < |names| ==> '\n' !in names[i] && '\r' !in names[i]
    ensures LogLines(Some(Committed(names))) == names
    decreases |names|
  {
    if names != [] {
      var init, last := names[..|names| - 1], names[|names| - 1];
      assert forall i :: 0 <= i < |init| ==> init[i] == names[i];
      CommittedLines(init);
      LogLinesAfterAppend(Some(Committed(init)), last);
      assert AppendLine(Some(Committed(init)), last) == Some(Committed(names));
      assert names == init + [last];
    }
  }

  // ---------------------------------------------------------------------
  // process_file
  // ---------------------------------------------------------------------

  /**
   * What correct_text_with_llm does with a record sent as the `j`-th request
   * overall. The record loop below is stated for any such function, and
   * process_file uses this one.
   */
  function Corrector(env: Env): (Json, nat) -> Outcome {
    (segment: Json, j: nat) => Correct(segment, env.service(j), env.parse)
  }

  /**
   * The effects of one call of correct_text_with_llm that ended as `c`: the
   * record was sent, and a record that fell back was appended to the error log.
   */
  function Record(st: Files, segment: Json, c: Outcome): Files {
    st.(requests := st.requests + [segment],
        errorLog := if c.KeptOriginal? then st.errorLog + [segment] else st.errorLog)
  }

  /**
   * One call adds the record to the requests and, when it fell back, to the
   * error log: each grows by at most that record, and the checkpoint log and
   * the outputs are untouched.
   */
  lemma RecordEffects(st: Files, segment: Json, c: Outcome)
    ensures var r := Record(st, segment, c);
            && r.requests == st.requests + [segment]
            && (c.KeptOriginal? <==> |r.errorLog| == |st.errorLog| + 1)
            && r.errorLog[..|st.errorLog|] == st.errorLog
            && (c.KeptOriginal? ==> r.errorLog[|st.errorLog|] == segment)
            && r.checkpoint == st.checkpoint && r.outputs == st.outputs
  {
  }

  /** The state of process_file's loop: the files, and the corrected list so far or None once a call raised. */
  datatype Progress = Progress(files: Files, out: Option<seq<Json>>)

  /** The loop of process_file after its first `n` turns, each record handled by `fix`. */
  function CorrectPrefix(st: Files, items: seq<Json>, n: nat, fix: (Json, nat) -> Outcome): (r: Progress)
    requires n <= |items|
    ensures r.files.checkpoint == st.checkpoint && r.files.outputs == st.outputs
    ensures r.out.Some? ==> |r.out.value| == n && |r.files.requests| == |st.requests| + n
    decreases n
  {
    if n == 0 then Progress(st, Some([]))
    else
      var prev := CorrectPrefix(st, items, n - 1, fix);
      if prev.out.None? then prev
      else
        var c := fix(items[n - 1], |prev.files.requests|);
        Progress(Record(prev.files, items[n - 1], c),
                 if c.Escaped? then None else Some(prev.out.value + [c.value]))
  }

  /** The position among the first `n` records of the first whose call raises, or `n`. */
  function FirstEscape(items: seq<Json>, base: nat, n: nat, fix: (Json, nat) -> Outcome): (k: nat)
    requires n <= |items|
    ensures k <= n
    ensures forall i :: 0 <= i < k ==> !fix(items[i], base + i).Escaped?
    ensures k < n ==> fix(items[k], base + k).Escaped?
  {
    if n == 0 then 0
    else
      var k := FirstEscape(items, base, n - 1, fix);
      if k < n - 1 then k else if fix(items[n - 1], base + n - 1).Escaped? then n - 1 else n
  }

  /** The records among the first `n` that fell back: those the handler logs. */
  function FallbackLog(items: seq<Json>, base: nat, n: nat, fix: (Json, nat) -> Outcome): (log: seq<Json>)
    requires n <= |items|
    ensures |log| <= n
    ensures forall x :: x in log ==> x in items[..n]
  {
    if n == 0 then []
    else
      FallbackLog(items, base, n - 1, fix)
      + (if fix(items[n - 1], base + n - 1).KeptOriginal? then [items[n - 1]] else [])
  }

  /** How many records the first `n` turns of the record loop send: up to and including the first whose call raises. */
  function Sent(items: seq<Json>, base: nat, n: nat, fix: (Json, nat) -> Outcome): (m: nat)
    requires n <= |items|
    ensures FirstEscape(items, base, n, fix) <= m <= n
  {
    var k := FirstEscape(items, base, n, fix);
    if k < n then k + 1 else n
  }

  /** The record loop gets through all `n` records exactly when no call among them raised. */
  lemma {:induction false} CorrectPrefixThrough(st: Files, items: seq<Json>, n: nat, fix: (Json, nat) -> Outcome)
    requires n <= |items|
    ensures CorrectPrefix(st, items, n, fix).out.Some? <==> FirstEscape(items, |st.requests|, n, fix) == n
    decreases n
  {
    if n > 0 {
      CorrectPrefixThrough(st, items, n - 1, fix);
    }
  }

  /**
   * The record loop in closed form, first part: it sends the records in
   * order, up to and including the first call that raised.
   */
  lemma {:induction false} CorrectPrefixRequests(st: Files, items: seq<Json>, n: nat, fix: (Json, nat) -> Outcome)
    requires n <= |items|
    ensures CorrectPrefix(st, items, n, fix).files.requests == st.requests + items[..Sent(items, |st.requests|, n, fix)]
    decreases n
  {
    if n > 0 {
      CorrectPrefixRequests(st, items, n - 1, fix);
      CorrectPrefixThrough(st, items, n - 1, fix);
      if CorrectPrefix(st, items, n - 1, fix).out.Some? {
        RequestsStep(st, items, n, fix);
      } else {
        StoppedStep(st, items, n, fix);
      }
    }
  }

  lemma RequestsStep(st: Files, items: seq<Json>, n: nat, fix: (Json, nat) -> Outcome)
    requires 0 < n <= |items|
    requires CorrectPrefix(st, items, n - 1, fix).out.Some?
    requires FirstEscape(items, |st.requests|, n - 1, fix) == n - 1
    requires CorrectPrefix(st, items, n - 1, fix).files.requests == st.requests + items[..n - 1]
    ensures CorrectPrefix(st, items, n, fix).files.requests == st.requests + items[..Sent(items, |st.requests|, n, fix)]
  {
    assert Sent(items, |st.requests|, n, fix) == n;
    assert items[..n] == items[..n - 1] + [items[n - 1]];
    Assoc(st.requests, items[..n - 1], [items[n - 1]]);
  }

  /**
   * Second part: the error log gains, in order, the records before the first
   * call that raised whose call fell back, and nothing else.
   */
  lemma {:induction false} CorrectPrefixLog(st: Files, items: seq<Json>, n: nat, fix: (Json, nat) -> Outcome)
    requires n <= |items|
    ensures CorrectPrefix(st, items, n, fix).files.errorLog
            == st.errorLog + FallbackLog(items, |st.requests|, FirstEscape(items, |st.requests|, n, fix), fix)
    decreases n
  {
    if n > 0 {
      CorrectPrefixLog(st, items, n - 1, fix);
      CorrectPrefixThrough(st, items, n - 1, fix);
      if CorrectPrefix(st, items, n - 1, fix).out.Some? {
        LogStep(st, items, n, fix);
      } else {
        StoppedStep(st, items, n, fix);
      }
    }
  }

  /** A turn after the loop has stopped changes nothing, and the first raising call stays where it was. */
  lemma StoppedStep(st: Files, items: seq<Json>, n: nat, fix: (Json, nat) -> Outcome)
    requires 0 < n <= |items|
    requires CorrectPrefix(st, items, n - 1, fix).out.None?
    requires FirstEscape(items, |st.requests|, n - 1, fix) < n - 1
    ensures CorrectPrefix(st, items, n, fix) == CorrectPrefix(st, items, n - 1, fix)
    ensures FirstEscape(items, |st.requests|, n, fix) == FirstEscape(items, |st.requests|, n - 1, fix)
  {
  }

  lemma LogStep(st: Files, items: seq<Json>, n: nat, fix: (Json, nat) -> Outcome)
    requires 0 < n <= |items|
    requires CorrectPrefix(st, items, n - 1, fix).out.Some?
    requires FirstEscape(items, |st.requests|, n - 1, fix) == n - 1
    requires CorrectPrefix(st, items, n - 1, fix).files.errorLog
             == st.errorLog + FallbackLog(items, |st.requests|, n - 1, fix)
    ensures CorrectPrefix(st, items, n, fix).files.errorLog
            == st.errorLog + FallbackLog(items, |st.requests|, FirstEscape(items, |st.requests|, n, fix), fix)
  {
    var base := |st.requests|;
    var c := fix(items[n - 1], base + n - 1);
    if !c.Escaped? {
      Assoc(st.errorLog, FallbackLog(items, base, n - 1, fix), if c.KeptOriginal? then [items[n - 1]] else []);
    }
  }

  /**
   * Third part: when the loop gets through, position `i` of the list holds
   * what `fix` returned for record `i` sent as request `i` of the file.
   */
  lemma {:induction false} CorrectPrefixValues(st: Files, items: seq<Json>, n: nat, fix: (Json, nat) -> Outcome)
    requires n <= |items|
    ensures var r := CorrectPrefix(st, items, n, fix);
            r.out.Some? ==> forall i :: 0 <= i < n ==>
              !fix(items[i], |st.requests| + i).Escaped? && r.out.value[i] == fix(items[i], |st.requests| + i).value
    decreases n
  {
    if n > 0 {
      CorrectPrefixValues(st, items, n - 1, fix);
    }
  }

  /** One more turn of the record loop, from a state in which it has not stopped. */
  lemma CorrectPrefixNext(st: Files, items: seq<Json>, i: nat, fix: (Json, nat) -> Outcome, files: Files, corrected: seq<Json>)
    requires i < |items|
    requires CorrectPrefix(st, items, i, fix) == Progress(files, Some(corrected))
    ensures var c := fix(items[i], |files.requests|);
            CorrectPrefix(st, items, i + 1, fix)
            == Progress(Record(files, items[i], c), if c.Escaped? then None else Some(corrected + [c.value]))
  {
  }

  /** One turn of the record loop with correct_text_with_llm, whose call ended as `c`. */
  lemma CorrectorTurn(st: Files, items: seq<Json>, i: nat, env: Env, files: Files, corrected: seq<Json>, c: Outcome)
    requires i < |items|
    requires CorrectPrefix(st, items, i, Corrector(env)) == Progress(files, Some(corrected))
    requires c == Correct(items[i], env.service(|files.requests|), env.parse)
    ensures CorrectPrefix(st, items, i + 1, Corrector(env))
            == Progress(Record(files, items[i], c), if c.Escaped? then None else Some(corrected + [c.value]))
  {
    CorrectPrefixNext(st, items, i, Corrector(env), files, corrected);
    assert Corrector(env)(items[i], |files.requests|) == c;
  }

  /** Once a record's call has raised, the rest of the file is never looked at. */
  lemma {:induction false} CorrectPrefixStops(st: Files, items: seq<Json>, k: nat, n: nat, fix: (Json, nat) -> Outcome)
    requires k <= n <= |items|
    requires CorrectPrefix(st, items, k, fix).out.None?
    ensures CorrectPrefix(st, items, n, fix) == CorrectPrefix(st, items, k, fix)
    decreases n
  {
    if n > k {
      CorrectPrefixStops(st, items, k, n - 1, fix);
    }
  }

  /** The files after a call of process_file, and whether it returned normally. */
  datatype Processed = Processed(files: Files, ok: bool)

  /**
   * process_file with each record handled by `fix`: read the input (raising
   * if that fails), correct every record, then write the list to the output
   * directory under the same name (raising if that fails). The result says
   * whether it returned.
   */
  function ProcessWith(st: Files, name: string, env: Env, fix: (Json, nat) -> Outcome): (r: Processed)
    ensures r.files.checkpoint == st.checkpoint
    ensures !r.ok ==> r.files.outputs == st.outputs
    ensures r.ok ==> name in r.files.outputs && r.files.outputs == st.outputs[name := r.files.outputs[name]]
  {
    match env.read(name)
    case None => Processed(st, false)
    case Some(items) =>
      var p := CorrectPrefix(st, items, |items|, fix);
      if p.out.None? || !env.writable(name) then Processed(p.files, false)
      else Processed(p.files.(outputs := p.files.outputs[name := p.out.value]), true)
  }

  /** process_file as written, each record handled by correct_text_with_llm. */
  function ProcessSpec(st: Files, name: string, env: Env): (r: Processed)
    ensures r.files.checkpoint == st.checkpoint
    ensures !r.ok ==> r.files.outputs == st.outputs
    ensures r.ok ==> name in r.files.outputs && r.files.outputs == st.outputs[name := r.files.outputs[name]]
  {
    ProcessWith(st, name, env, Corrector(env))
  }

  /** correct_text_with_llm raises exactly on a request that produced no content. */
  lemma FirstEscapeNoContent(items: seq<Json>, base: nat, env: Env)
    ensures var k := FirstEscape(items, base, |items|, Corrector(env));
            && (forall j :: base <= j < base + k ==> env.service(j).Content?)
            && (k < |items| ==> env.service(base + k).NoContent?)
  {
    var k := FirstEscape(items, base, |items|, Corrector(env));
    forall j | base <= j < base + k ensures env.service(j).Content? {
      assert !Corrector(env)(items[j - base], base + (j - base)).Escaped?;
    }
  }

  /**
   * process_file returns normally exactly when the input reads, every reply
   * had content and the output can be written; then the written list has the
   * input's length and holds, at each position, what correct_text_with_llm
   * returned for the record there. An unreadable input changes nothing.
   */
  lemma ProcessOutcome(st: Files, name: string, env: Env)
    ensures env.read(name).None? ==> ProcessSpec(st, name, env) == Processed(st, false)
    ensures env.read(name).Some? ==>
      var items := env.read(name).value;
      var base := |st.requests|;
      var k := FirstEscape(items, base, |items|, Corrector(env));
      var r := ProcessSpec(st, name, env);
      && (r.ok <==> (forall j :: base <= j < base + |items| ==> env.service(j).Content?) && env.writable(name))
      && r.files.requests == st.requests + items[..Sent(items, base, |items|, Corrector(env))]
      && r.files.errorLog == st.errorLog + FallbackLog(items, base, k, Corrector(env))
      && (r.ok ==> name in r.files.outputs && |r.files.outputs[name]| == |items|
                   && (forall i :: 0 <= i < |items| ==>
                         r.files.outputs[name][i] == Correct(items[i], env.service(base + i), env.parse).value))
  {
    if env.read(name).Some? {
      var items := env.read(name).value;
      var fix := Corrector(env);
      CorrectPrefixThrough(st, items, |items|, fix);
      CorrectPrefixRequests(st, items, |items|, fix);
      CorrectPrefixLog(st, items, |items|, fix);
      CorrectPrefixValues(st, items, |items|, fix);
      FirstEscapeNoContent(items, |st.requests|, env);
    }
  }

  /**
   * The unbound `raw` at LLMMistral.py:72: a record whose request never
   * produced content does not fall back. The whole file fails, nothing is
   * written for it, and that record never reaches the error log.
   */
  lemma NoContentFailsFile(st: Files, name: string, env: Env, i: nat)
    requires env.read(name).Some? && i < |env.read(name).value|
    requires env.service(|st.requests| + i) == NoContent
    ensures var r := ProcessSpec(st, name, env);
            !r.ok && r.files.outputs == st.outputs
            && |r.files.errorLog| - |st.errorLog| <= i
  {
    var items := env.read(name).value;
    ProcessOutcome(st, name, env);
    FirstEscapeNoContent(items, |st.requests|, env);
    var k := FirstEscape(items, |st.requests|, |items|, Corrector(env));
    assert k <= i;
  }

  /** correct_text_with_llm with the fallback its handler evidently intends for a request that produced no content. */
  function IntendedCorrector(env: Env): (Json, nat) -> Outcome {
    (segment: Json, j: nat) => CorrectIntended(segment, env.service(j), env.parse)
  }

  /** With the intended handler no call raises, so the record loop always gets through. */
  lemma IntendedNeverEscapes(items: seq<Json>, base: nat, env: Env)
    ensures FirstEscape(items, base, |items|, IntendedCorrector(env)) == |items|
  {
    var fix := IntendedCorrector(env);
    forall i | 0 <= i < |items|
      ensures !fix(items[i], base + i).Escaped?
    {
      assert fix(items[i], base + i) == CorrectIntended(items[i], env.service(base + i), env.parse);
    }
  }

  /** Every record among the first `n` whose call fell back is in the error log. */
  lemma {:induction false} FallbackLogged(items: seq<Json>, base: nat, n: nat, fix: (Json, nat) -> Outcome, i: nat)
    requires i < n <= |items|
    requires fix(items[i], base + i).KeptOriginal?
    ensures items[i] in FallbackLog(items, base, n, fix)
    decreases n
  {
    if i < n - 1 {
      FallbackLogged(items, base, n - 1, fix, i);
    }
  }

  /**
   * process_file with a handler under which none of the file's calls raises:
   * a readable input then fails only when its output cannot be written, every
   * record is sent, the error log gains exactly the fallback records, and
   * each position holds the handler's result for its record.
   */
  lemma ProcessThrough(st: Files, name: string, env: Env, fix: (Json, nat) -> Outcome)
    requires env.read(name).Some?
    requires FirstEscape(env.read(name).value, |st.requests|, |env.read(name).value|, fix) == |env.read(name).value|
    ensures var items := env.read(name).value;
            var base := |st.requests|;
            var r := ProcessWith(st, name, env, fix);
            && (r.ok <==> env.writable(name))
            && r.files.requests == st.requests + items
            && r.files.errorLog == st.errorLog + FallbackLog(items, base, |items|, fix)
            && (r.ok ==> name in r.files.outputs && |r.files.outputs[name]| == |items|
                         && (forall i :: 0 <= i < |items| ==> r.files.outputs[name][i] == fix(items[i], base + i).value))
  {
    var items := env.read(name).value;
    CorrectPrefixThrough(st, items, |items|, fix);
    CorrectPrefixRequests(st, items, |items|, fix);
    CorrectPrefixLog(st, items, |items|, fix);
    CorrectPrefixValues(st, items, |items|, fix);
    assert items[..|items|] == items;
  }

  /**
   * process_file with the intended handler: a readable input then fails only
   * when its output cannot be written. Every record is sent, the error log
   * gains exactly the records that fell back (IntendedLogsNoContent: those
   * whose request produced no content among them), and each position holds
   * the parsed reply or the original record.
   */
  lemma IntendedProcessOutcome(st: Files, name: string, env: Env)
    ensures env.read(name).None? ==> ProcessWith(st, name, env, IntendedCorrector(env)) == Processed(st, false)
    ensures env.read(name).Some? ==>
      var items := env.read(name).value;
      var base := |st.requests|;
      var fix := IntendedCorrector(env);
      var r := ProcessWith(st, name, env, fix);
      && (r.ok <==> env.writable(name))
      && r.files.requests == st.requests + items
      && r.files.errorLog == st.errorLog + FallbackLog(items, base, |items|, fix)
      && (r.ok ==> name in r.files.outputs && |r.files.outputs[name]| == |items|
                   && (forall i :: 0 <= i < |items| ==>
                         r.files.outputs[name][i] == CorrectIntended(items[i], env.service(base + i), env.parse).value))
  {
    if env.read(name).Some? {
      var items := env.read(name).value;
      var base := |st.requests|;
      var fix := IntendedCorrector(env);
      IntendedNeverEscapes(items, base, env);
      ProcessThrough(st, name, env, fix);
      forall i | 0 <= i < |items|
        ensures fix(items[i], base + i) == CorrectIntended(items[i], env.service(base + i), env.parse)
      {
      }
    }
  }

  /**
   * The two handlers apart: a readable, writable file one of whose requests
   * produced no content fails as written but is written under the intended
   * handler, with that record kept as it was.
   */
  lemma IntendedKeepsFile(st: Files, name: string, env: Env, i: nat)
    requires env.read(name).Some? && i < |env.read(name).value|
    requires env.service(|st.requests| + i) == NoContent && env.writable(name)
    ensures !ProcessSpec(st, name, env).ok
    ensures var r := ProcessWith(st, name, env, IntendedCorrector(env));
            r.ok && r.files.outputs[name][i] == env.read(name).value[i]
  {
    NoContentFailsFile(st, name, env, i);
    IntendedProcessOutcome(st, name, env);
  }

  /** With the intended handler, a record whose request produced no content reaches the error log. */
  lemma IntendedLogsNoContent(items: seq<Json>, base: nat, env: Env, i: nat)
    requires i < |items| && env.service(base + i).NoContent?
    ensures items[i] in FallbackLog(items, base, |items|, IntendedCorrector(env))
  {
    var fix := IntendedCorrector(env);
    assert fix(items[i], base + i) == KeptOriginal(items[i]);
    FallbackLogged(items, base, |items|, fix, i);
  }

  // ---------------------------------------------------------------------
  // main
  // ---------------------------------------------------------------------

  /** The files after some turns of main's loop, and the process_file calls those turns made. */
  datatype Visit = Visit(files: Files, attempts: seq<Attempt>)

  /** process_file against `env`, as the per-file step main's loop is stated for. */
  function Processor(env: Env): (Files, string) -> Processed {
    (s: Files, name: string) => ProcessSpec(s, name, env)
  }

  /** A per-file step that never touches checkpoint.log. */
  ghost predicate KeepsCheckpoint(proc: (Files, string) -> Processed) {
    forall s: Files, name: string :: proc(s, name).files.checkpoint == s.checkpoint
  }

  /** A per-file step that writes at most its own output, and only when it returns normally. */
  ghost predicate WritesOwnOutput(proc: (Files, string) -> Processed) {
    forall s: Files, name: string ::
      && (!proc(s, name).ok ==> proc(s, name).files.outputs == s.outputs)
      && (proc(s, name).ok ==>
            name in proc(s, name).files.outputs
            && proc(s, name).files.outputs == s.outputs[name := proc(s, name).files.outputs[name]])
  }

  /** process_file has both frame properties. */
  lemma ProcessorFrames(env: Env)
    ensures KeepsCheckpoint(Processor(env)) && WritesOwnOutput(Processor(env))
  {
    forall s: Files, name: string
      ensures Processor(env)(s, name).files.checkpoint == s.checkpoint
    {
      assert Processor(env)(s, name) == ProcessSpec(s, name, env);
    }
    forall s: Files, name: string
      ensures var r := Processor(env)(s, name);
              && (!r.ok ==> r.files.outputs == s.outputs)
              && (r.ok ==> name in r.files.outputs && r.files.outputs == s.outputs[name := r.files.outputs[name]])
    {
      assert Processor(env)(s, name) == ProcessSpec(s, name, env);
    }
  }

  /** The `try` of main's loop: process the file, and checkpoint it when that returned. */
  function Handle(v: Visit, name: string, proc: (Files, string) -> Processed): (w: Visit)
    ensures w.attempts == v.attempts + [Attempt(name, proc(v.files, name).ok)]
    ensures Text(w.files.checkpoint)
            == Text(proc(v.files, name).files.checkpoint) + (if proc(v.files, name).ok then name + "\n" else "")
    ensures w.files.(checkpoint := proc(v.files, name).files.checkpoint) == proc(v.files, name).files
  {
    var r := proc(v.files, name);
    Visit(if r.ok then r.files.(checkpoint := AppendLine(r.files.checkpoint, name)) else r.files,
          v.attempts + [Attempt(name, r.ok)])
  }

  /** One turn of main's loop over the candidate files: skip a done name, else handle it. */
  function Step(v: Visit, name: string, done: set<string>, proc: (Files, string) -> Processed): (w: Visit)
    ensures name in done ==> w == v
    ensures name !in done ==> w.attempts == v.attempts + [Attempt(name, proc(v.files, name).ok)]
  {
    if name in done then v else Handle(v, name, proc)
  }

  /** main's loop after its first `n` turns; `done` is the set loaded before the loop. */
  function LoopPrefix(st: Files, files: seq<string>, n: nat, done: set<string>, proc: (Files, string) -> Processed): (v: Visit)
    requires n <= |files|
    ensures forall a :: a in v.attempts ==> a.name !in done
    decreases n
  {
    if n == 0 then Visit(st, []) else Step(LoopPrefix(st, files, n - 1, done, proc), files[n - 1], done, proc)
  }

  /**
   * main: load the checkpoint set, list the `.json` files, stop when there
   * are none, and otherwise take each file in listing order.
   */
  function RunSpec(st: Files, env: Env): (v: Visit)
    ensures JsonNames(env.listing) == [] ==> v == Visit(st, [])
    ensures forall a :: a in v.attempts ==> a.name !in LoadCheckpoint(st.checkpoint)
  {
    var done := LoadCheckpoint(st.checkpoint);
    var files := JsonNames(env.listing);
    if files == [] then Visit(st, []) else LoopPrefix(st, files, |files|, done, Processor(env))
  }

  /** The loop calls process_file for exactly the names not in `done`, in order. */
  lemma {:induction false} LoopAttempts(st: Files, files: seq<string>, n: nat, done: set<string>, proc: (Files, string) -> Processed)
    requires n <= |files|
    ensures Names(LoopPrefix(st, files, n, done, proc).attempts) == Pending(files[..n], done)
    decreases n
  {
    if n > 0 {
      LoopAttempts(st, files, n - 1, done, proc);
      var prev := LoopPrefix(st, files, n - 1, done, proc).attempts;
      var name := files[n - 1];
      var na := LoopPrefix(st, files, n, done, proc).attempts;
      PendingSnoc(files, n, done);
      if name !in done {
        var ok := proc(LoopPrefix(st, files, n - 1, done, proc).files, name).ok;
        assert na == prev + [Attempt(name, ok)];
        NamesSnoc(prev, Attempt(name, ok));
      } else {
        assert na == prev;
      }
    }
  }

  /** One more candidate: it is handed on after the earlier ones unless it is done. */
  lemma PendingSnoc(files: seq<string>, n: nat, done: set<string>)
    requires 0 < n <= |files|
    ensures Pending(files[..n], done)
            == if files[n - 1] in done then Pending(files[..n - 1], done) else Pending(files[..n - 1], done) + [files[n - 1]]
  {
    var name := files[n - 1];
    assert files[..n] == files[..n - 1] + [name];
    PendingAppend(files[..n - 1], [name], done);
    PendingSingle(name, done);
    assert Pending(files[..n - 1], done) + [] == Pending(files[..n - 1], done);
  }

  lemma NamesSnoc(attempts: seq<Attempt>, a: Attempt)
    ensures Names(attempts + [a]) == Names(attempts) + [a.name]
  {
    assert (attempts + [a])[..|attempts|] == attempts;
  }

  /** The log text gains one line per call that returned, in order. */
  lemma {:induction false} LoopCheckpoint(st: Files, files: seq<string>, n: nat, done: set<string>, proc: (Files, string) -> Processed)
    requires n <= |files|
    requires KeepsCheckpoint(proc)
    ensures var v := LoopPrefix(st, files, n, done, proc);
            Text(v.files.checkpoint) == Text(st.checkpoint) + Committed(Succeeded(v.attempts))
    decreases n
  {
    if n > 0 {
      LoopCheckpoint(st, files, n - 1, done, proc);
      var v := LoopPrefix(st, files, n - 1, done, proc);
      var na := LoopPrefix(st, files, n, done, proc).attempts;
      var name := files[n - 1];
      if name !in done {
        var r := proc(v.files, name);
        assert r.files.checkpoint == v.files.checkpoint;
        assert na[..|na| - 1] == v.attempts;
        if r.ok {
          var t, c := Text(st.checkpoint), Committed(Succeeded(v.attempts));
          assert Succeeded(na) == Succeeded(v.attempts) + [name];
          Assoc(t, c + name, "\n");
          Assoc(t, c, name);
        }
      }
    }
  }

  /** Outputs change only under a name whose call returned. */
  lemma {:induction false} LoopOutputs(st: Files, files: seq<string>, n: nat, done: set<string>, proc: (Files, string) -> Processed, name: string)
    requires n <= |files|
    requires WritesOwnOutput(proc)
    requires Attempt(name, true) !in LoopPrefix(st, files, n, done, proc).attempts
    ensures var v := LoopPrefix(st, files, n, done, proc);
            (name in v.files.outputs <==> name in st.outputs)
            && (name in st.outputs ==> v.files.outputs[name] == st.outputs[name])
    decreases n
  {
    if n > 0 {
      var v := LoopPrefix(st, files, n - 1, done, proc);
      var f := files[n - 1];
      if f !in done {
        var r := proc(v.files, f);
        assert LoopPrefix(st, files, n, done, proc).attempts == v.attempts + [Attempt(f, r.ok)];
        assert !r.ok ==> r.files.outputs == v.files.outputs;
        assert r.ok ==> f != name && r.files.outputs == v.files.outputs[f := r.files.outputs[f]];
      }
      LoopOutputs(st, files, n - 1, done, proc, name);
    }
  }

  /** Read back, the log holds the old set plus the names whose call returned. */
  lemma {:induction false} LoopLoad(st: Files, files: seq<string>, n: nat, done: set<string>, proc: (Files, string) -> Processed)
    requires n <= |files|
    requires KeepsCheckpoint(proc)
    requires EndsLine(Text(st.checkpoint))
    requires forall i :: 0 <= i < n ==> '\n' !in files[i] && '\r' !in files[i]
    ensures var v := LoopPrefix(st, files, n, done, proc);
            && EndsLine(Text(v.files.checkpoint))
            && LoadCheckpoint(v.files.checkpoint) == LoadCheckpoint(st.checkpoint) + LineSet(Succeeded(v.attempts))
    decreases n
  {
    if n > 0 {
      LoopLoad(st, files, n - 1, done, proc);
      var v := LoopPrefix(st, files, n - 1, done, proc);
      var name := files[n - 1];
      if name !in done {
        var r := proc(v.files, name);
        assert r.files.checkpoint == v.files.checkpoint;
        var na := LoopPrefix(st, files, n, done, proc).attempts;
        assert na[..|na| - 1] == v.attempts;
        if r.ok {
          assert Succeeded(na) == Succeeded(v.attempts) + [name];
          LoadStep(v.files.checkpoint, LoadCheckpoint(st.checkpoint), Succeeded(v.attempts), name);
        }
      }
    }
  }

  /** One successful turn of the loop, as the log sees it: the name joins the set read back. */
  lemma LoadStep(log: Option<string>, base: set<string>, names: seq<string>, name: string)
    requires EndsLine(Text(log))
    requires '\n' !in name && '\r' !in name
    requires LoadCheckpoint(log) == base + LineSet(names)
    ensures EndsLine(Text(AppendLine(log, name)))
    ensures LoadCheckpoint(AppendLine(log, name)) == base + LineSet(names + [name])
  {
    LoadAfterAppend(log, name);
    assert (names + [name])[..|names|] == names;
  }

  /** Appending to a log that ends in a newline never loses an entry, whatever the names. */
  lemma {:induction false} LoopGrows(st: Files, files: seq<string>, n: nat, done: set<string>, proc: (Files, string) -> Processed)
    requires n <= |files|
    requires KeepsCheckpoint(proc)
    requires EndsLine(Text(st.checkpoint))
    ensures var v := LoopPrefix(st, files, n, done, proc);
            EndsLine(Text(v.files.checkpoint)) && LoadCheckpoint(st.checkpoint) <= LoadCheckpoint(v.files.checkpoint)
    decreases n
  {
    if n > 0 {
      LoopGrows(st, files, n - 1, done, proc);
      var v := LoopPrefix(st, files, n - 1, done, proc);
      var name := files[n - 1];
      if name !in done {
        assert proc(v.files, name).files.checkpoint == v.files.checkpoint;
        LoadGrowsOnAppend(v.files.checkpoint, name);
      }
    }
  }

  /** A loop over names that are all done does nothing. */
  lemma {:induction false} LoopAllDone(st: Files, files: seq<string>, n: nat, done: set<string>, proc: (Files, string) -> Processed)
    requires n <= |files|
    requires forall i :: 0 <= i < n ==> files[i] in done
    ensures LoopPrefix(st, files, n, done, proc) == Visit(st, [])
    decreases n
  {
    if n > 0 {
      LoopAllDone(st, files, n - 1, done, proc);
    }
  }

  /**
   * The calls a run makes are, in order, for exactly the listed `.json`
   * names not in the loaded checkpoint set.
   */
  lemma RunAttempts(st: Files, env: Env)
    ensures Names(RunSpec(st, env).attempts) == Pending(JsonNames(env.listing), LoadCheckpoint(st.checkpoint))
  {
    var files := JsonNames(env.listing);
    var done := LoadCheckpoint(st.checkpoint);
    if files != [] {
      assert RunSpec(st, env) == LoopPrefix(st, files, |files|, done, Processor(env));
      LoopAttempts(st, files, |files|, done, Processor(env));
      assert files[..|files|] == files;
    }
  }

  /** Each call named by `Pending(JsonNames(listing), done)` is for a listed `.json` name outside `done`. */
  lemma PendingMembers(listing: seq<string>, done: set<string>, attempts: seq<Attempt>)
    requires Names(attempts) == Pending(JsonNames(listing), done)
    ensures forall a :: a in attempts ==> a.name !in done && EndsWith(a.name, JsonSuffix) && a.name in listing
  {
    forall a | a in attempts
      ensures a.name !in done && EndsWith(a.name, JsonSuffix) && a.name in listing
    {
      var i :| 0 <= i < |attempts| && attempts[i] == a;
      assert Names(attempts)[i] == a.name;
      assert multiset(Pending(JsonNames(listing), done))[a.name] > 0;
      assert multiset(JsonNames(listing))[a.name] > 0;
    }
  }

  /**
   * A name in the loaded checkpoint set is never handed to process_file:
   * every call of a run is for a listed name ending in `.json` that was not
   * in that set.
   */
  lemma RunSkipsDone(st: Files, env: Env)
    ensures forall a :: a in RunSpec(st, env).attempts ==>
              a.name !in LoadCheckpoint(st.checkpoint) && EndsWith(a.name, JsonSuffix) && a.name in env.listing
  {
    RunAttempts(st, env);
    PendingMembers(env.listing, LoadCheckpoint(st.checkpoint), RunSpec(st, env).attempts);
  }

  /**
   * checkpoint.log only grows: after a run it is the old text followed by
   * one line for each file whose process_file returned, in the order they
   * were processed. A file whose processing raised adds nothing.
   */
  lemma RunCheckpoint(st: Files, env: Env)
    ensures var v := RunSpec(st, env);
            Text(v.files.checkpoint) == Text(st.checkpoint) + Committed(Succeeded(v.attempts))
  {
    var files := JsonNames(env.listing);
    if files != [] {
      ProcessorFrames(env);
      LoopCheckpoint(st, files, |files|, LoadCheckpoint(st.checkpoint), Processor(env));
    }
  }

  /** An output file is written, and so can only change, for a file whose processing returned. */
  lemma RunOutputs(st: Files, env: Env, name: string)
    requires Attempt(name, true) !in RunSpec(st, env).attempts
    ensures var v := RunSpec(st, env);
            (name in v.files.outputs <==> name in st.outputs)
            && (name in st.outputs ==> v.files.outputs[name] == st.outputs[name])
  {
    var files := JsonNames(env.listing);
    if files != [] {
      ProcessorFrames(env);
      LoopOutputs(st, files, |files|, LoadCheckpoint(st.checkpoint), Processor(env), name);
    }
  }

  /** Names listed in the input directory that the checkpoint log can hold as they are. */
  predicate PlainNames(listing: seq<string>) {
    forall i :: 0 <= i < |listing| ==> '\n' !in listing[i] && '\r' !in listing[i] && Stripped(listing[i])
  }

  /**
   * What the next run will skip. When the log ends in a newline and no
   * listed `.json` name has a line break, the set loaded after a run is the
   * old set plus the stripped names of the files processed successfully,
   * and the log still ends in a newline. In particular no entry is ever lost.
   */
  lemma RunLoad(st: Files, env: Env)
    requires EndsLine(Text(st.checkpoint))
    requires forall x :: x in JsonNames(env.listing) ==> '\n' !in x && '\r' !in x
    ensures var v := RunSpec(st, env);
            && EndsLine(Text(v.files.checkpoint))
            && LoadCheckpoint(v.files.checkpoint) == LoadCheckpoint(st.checkpoint) + LineSet(Succeeded(v.attempts))
  {
    var files := JsonNames(env.listing);
    if files != [] {
      forall i | 0 <= i < |files| ensures '\n' !in files[i] && '\r' !in files[i] {
        assert files[i] in files;
      }
      ProcessorFrames(env);
      LoopLoad(st, files, |files|, LoadCheckpoint(st.checkpoint), Processor(env));
    }
  }

  /** For plain names, the log set a run adds holds a name iff a call for it returned. */
  lemma SucceededPlain(attempts: seq<Attempt>, listing: seq<string>, name: string)
    requires PlainNames(listing)
    requires forall a :: a in attempts ==> a.name in listing && a.name != ""
    requires Stripped(name)
    ensures name in LineSet(Succeeded(attempts)) <==> Attempt(name, true) in attempts
  {
    var ss := Succeeded(attempts);
    LineSetMembers(ss, name);
    if name in StripAll(ss) {
      var i :| 0 <= i < |ss| && StripAll(ss)[i] == name;
      assert ss[i] in ss;
      var j :| 0 <= j < |listing| && listing[j] == ss[i];
      StripFixpoint(ss[i]);
    }
    if Attempt(name, true) in attempts {
      assert name in ss;
      var i :| 0 <= i < |ss| && ss[i] == name;
      StripFixpoint(name);
    }
  }

  /**
   * Resumability. For listed names without surrounding whitespace or line
   * breaks, a name is skipped by the next run exactly when it was skipped
   * by this one or this run processed it successfully; so a file whose
   * processing raised (and did not also succeed) stays eligible.
   */
  lemma RunResumes(st: Files, env: Env, name: string)
    requires EndsLine(Text(st.checkpoint))
    requires PlainNames(env.listing)
    requires Stripped(name)
    ensures var v := RunSpec(st, env);
            name in LoadCheckpoint(v.files.checkpoint)
            <==> name in LoadCheckpoint(st.checkpoint) || Attempt(name, true) in v.attempts
  {
    JsonNamesListed(env.listing);
    RunLoad(st, env);
    RunSkipsDone(st, env);
    SucceededPlain(RunSpec(st, env).attempts, env.listing, name);
  }

  /**
   * Running again changes nothing when every listed `.json` name is already
   * in the checkpoint set: no file is processed and nothing is appended.
   */
  lemma RerunIsNoop(st: Files, env: Env)
    requires forall x :: x in JsonNames(env.listing) ==> x in LoadCheckpoint(st.checkpoint)
    ensures RunSpec(st, env) == Visit(st, [])
  {
    var files := JsonNames(env.listing);
    LoopAllDone(st, files, |files|, LoadCheckpoint(st.checkpoint), Processor(env));
  }

  /** A name of `files` outside `done` has a call, and when every call returned, a successful one. */
  lemma PendingAttempted(files: seq<string>, done: set<string>, attempts: seq<Attempt>, x: string)
    requires Names(attempts) == Pending(files, done)
    requires forall a :: a in attempts ==> a.ok
    requires x in files && x !in done
    ensures Attempt(x, true) in attempts
  {
    assert multiset(files)[x] > 0;
    assert multiset(Pending(files, done))[x] > 0;
    var i :| 0 <= i < |Names(attempts)| && Names(attempts)[i] == x;
    assert attempts[i] in attempts;
  }

  /** A listed `.json` name is in the checkpoint set after a run whose every call returned. */
  lemma RunCovers(st: Files, env: Env, x: string)
    requires EndsLine(Text(st.checkpoint))
    requires PlainNames(env.listing)
    requires forall a :: a in RunSpec(st, env).attempts ==> a.ok
    requires x in JsonNames(env.listing)
    ensures x in LoadCheckpoint(RunSpec(st, env).files.checkpoint)
  {
    assert x in env.listing by {
      assert multiset(JsonNames(env.listing))[x] > 0;
    }
    RunResumes(st, env, x);
    RunAttempts(st, env);
    if x !in LoadCheckpoint(st.checkpoint) {
      PendingAttempted(JsonNames(env.listing), LoadCheckpoint(st.checkpoint), RunSpec(st, env).attempts, x);
    }
  }

  /**
   * After a run in which every processed file succeeded, a second run over
   * the same listing is a no-op (for names the log can hold as they are).
   */
  lemma SecondRunIsNoop(st: Files, env: Env, env': Env)
    requires EndsLine(Text(st.checkpoint))
    requires PlainNames(env.listing)
    requires env'.listing == env.listing
    requires forall a :: a in RunSpec(st, env).attempts ==> a.ok
    ensures var s := RunSpec(st, env).files;
            RunSpec(s, env') == Visit(s, [])
  {
    var s := RunSpec(st, env).files;
    forall x | x in JsonNames(env.listing) ensures x in LoadCheckpoint(s.checkpoint) {
      RunCovers(st, env, x);
    }
    RerunIsNoop(s, env');
  }

  // ---------------------------------------------------------------------
  // The imperative program
  // ---------------------------------------------------------------------

  /** The file system the pass runs against, and a ghost record of main's calls of process_file. */
  class Disk {
    var checkpoint: Option<string>
    var errorLog: seq<Json>
    var outputs: map<string, seq<Json>>
    var requests: seq<Json>
    ghost var attempts: seq<Attempt>

    ghost function State(): Files
      reads this
    {
      Files(checkpoint, errorLog, outputs, requests)
    }

    constructor (checkpoint: Option<string>, errorLog: seq<Json>, outputs: map<string, seq<Json>>)
      ensures State() == Files(checkpoint, errorLog, outputs, []) && attempts == []
    {
      this.checkpoint := checkpoint;
      this.errorLog := errorLog;
      this.outputs := outputs;
      this.requests := [];
      this.attempts := [];
    }

    /** save_checkpoint */
    method SaveCheckpoint(filename: string)
      modifies this
      ensures State() == old(State()).(checkpoint := AppendLine(old(checkpoint), filename))
      ensures attempts == old(attempts)
    {
      checkpoint := Some(Text(checkpoint) + filename + "\n");
    }

    /** correct_text_with_llm: send the record, and on a fallback log it before returning it. */
    method CorrectText(segment: Json, env: Env) returns (c: Outcome)
      modifies this
      ensures c == Correct(segment, env.service(|old(requests)|), env.parse)
      ensures State() == Record(old(State()), segment, c) && attempts == old(attempts)
    {
      var reply := env.service(|requests|);
      requests := requests + [segment];
      c := Correct(segment, reply, env.parse);
      if c.KeptOriginal? {
        errorLog := errorLog + [segment];
      }
    }

    /** process_file's loop over the records; None once a call of correct_text_with_llm raised. */
    method CorrectRecords(items: seq<Json>, env: Env) returns (out: Option<seq<Json>>)
      modifies this
      ensures CorrectPrefix(old(State()), items, |items|, Corrector(env)) == Progress(State(), out)
      ensures attempts == old(attempts)
    {
      ghost var st0, fix := State(), Corrector(env);
      var corrected: seq<Json> := [];
      var i := 0;
      while i < |items|
        invariant 0 <= i <= |items|
        invariant CorrectPrefix(st0, items, i, fix) == Progress(State(), Some(corrected))
        invariant attempts == old(attempts)
      {
        ghost var before := State();
        var c := CorrectText(items[i], env);
        CorrectorTurn(st0, items, i, env, before, corrected, c);
        if c.Escaped? {
          CorrectPrefixStops(st0, items, i + 1, |items|, fix);
          return None;
        }
        corrected := corrected + [c.value];
        i := i + 1;
      }
      out := Some(corrected);
    }

    /** process_file; `ok` is false where the Python function raises. */
    method ProcessFile(name: string, env: Env) returns (ok: bool)
      modifies this
      ensures ProcessSpec(old(State()), name, env) == Processed(State(), ok)
      ensures attempts == old(attempts)
    {
      var doc := env.read(name);
      if doc.None? {
        return false;
      }
      var out := CorrectRecords(doc.value, env);
      if out.None? || !env.writable(name) {
        return false;
      }
      outputs := outputs[name := out.value];
      ok := true;
    }

    /** The `try` of main's loop, taken when the loop so far is `v` and the calls before it were `prior`. */
    method HandleFile(name: string, env: Env, ghost v: Visit, ghost prior: seq<Attempt>)
      requires State() == v.files && attempts == prior + v.attempts
      modifies this
      ensures var w := Handle(v, name, Processor(env));
              State() == w.files && attempts == prior + w.attempts
    {
      var ok := ProcessFile(name, env);
      assert Processor(env)(v.files, name) == Processed(State(), ok);
      attempts := attempts + [Attempt(name, ok)];
      if ok {
        SaveCheckpoint(name);
      }
    }

    /** main */
    method Run(env: Env)
      modifies this
      ensures State() == RunSpec(old(State()), env).files
      ensures attempts == old(attempts) + RunSpec(old(State()), env).attempts
    {
      var done := LoadCheckpoint(checkpoint);
      var files := JsonNames(env.listing);
      if files == [] {
        return;
      }
      RunLoop(files, done, env);
    }

    /** main's `for` loop over the candidate files, `done` being the set loaded before it. */
    method RunLoop(files: seq<string>, done: set<string>, env: Env)
      modifies this
      ensures State() == LoopPrefix(old(State()), files, |files|, done, Processor(env)).files
      ensures attempts == old(attempts) + LoopPrefix(old(State()), files, |files|, done, Processor(env)).attempts
    {
      var i := 0;
      while i < |files|
        invariant 0 <= i <= |files|
        invariant State() == LoopPrefix(old(State()), files, i, done, Processor(env)).files
        invariant attempts == old(attempts) + LoopPrefix(old(State()), files, i, done, Processor(env)).attempts
      {
        var name := files[i];
        if name in done {
          i := i + 1;
          continue;
        }
        ghost var v := LoopPrefix(old(State()), files, i, done, Processor(env));
        HandleFile(name, env, v, old(attempts));
        assert LoopPrefix(old(State()), files, i + 1, done, Processor(env)) == Handle(v, name, Processor(env));
        i := i + 1;
      }
    }
  }
}
