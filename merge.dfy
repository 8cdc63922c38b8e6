/**
 * merge_segments of compare_and_merge_llm.py: the Whisper and the
 * faster-whisper transcripts are paired position by position, up to the
 * shorter of the two, and each pair becomes one merged record. Reading and
 * writing the two documents (load_json, save_json) is not modelled: the
 * inputs are the loaded lists of records and the result is the list that
 * would be dumped.
 */
module Merge {
  import opened Wrappers
  import opened JsonValue

  /**
   * One merged record, the dictionary with keys `start_whisper`,
   * `end_whisper`, `speaker`, `text_whisper` and `text_fast`.
   */
  datatype Merged = Merged(startWhisper: Json, endWhisper: Json, speaker: Json, textWhisper: Json, textFast: Json)

  /** The speaker recorded when the Whisper record has no `speaker` key. */
  const UnknownSpeaker: Json := JString("Unknown")

  function Min(a: nat, b: nat): nat {
    if a <= b then a else b
  }

  /** `d.get(key, default)` on a dictionary: a present key keeps its value, even `null`. */
  function Get(fields: map<string, Json>, key: string, default: Json): (v: Json)
    ensures key in fields ==> v == fields[key]
    ensures key !in fields ==> v == default
  {
    if key in fields then fields[key] else default
  }

  /**
   * The dictionary display for one position. Its values are evaluated in
   * order, so the first lookup that raises decides the error: `w["start"]`,
   * `w["end"]`, then `w.get("speaker", "Unknown")` (which cannot raise once
   * `w["start"]` worked, as `w` is then a dictionary), `w["text"]`, and
   * last `f["text"]`.
   */
  function MergePair(w: Json, f: Json): (r: Result<Merged, PyError>)
    ensures r.Ok? <==> w.JObject? && "start" in w.fields && "end" in w.fields && "text" in w.fields
                       && f.JObject? && "text" in f.fields
    ensures r.Ok? ==> r.value == Merged(w.fields["start"], w.fields["end"],
                                       if "speaker" in w.fields then w.fields["speaker"] else UnknownSpeaker,
                                       w.fields["text"], f.fields["text"])
    ensures r.Err? ==> r.error == if !w.JObject? then TypeError
                                  else if "start" !in w.fields then KeyError("start")
                                  else if "end" !in w.fields then KeyError("end")
                                  else if "text" !in w.fields then KeyError("text")
                                  else if !f.JObject? then TypeError
                                  else KeyError("text")
  {
    match Subscript(w, "start")
    case Err(e) => Err(e)
    case Ok(start) =>
      match Subscript(w, "end")
      case Err(e) => Err(e)
      case Ok(end) =>
        var speaker := Get(w.fields, "speaker", UnknownSpeaker);
        match Subscript(w, "text")
        case Err(e) => Err(e)
        case Ok(textW) =>
          match Subscript(f, "text")
          case Err(e) => Err(e)
          case Ok(textF) => Ok(Merged(start, end, speaker, textW, textF))
  }

  /** The loop of merge_segments after its first `n` turns: the list so far, or the error that ended it. */
  function MergePrefix(w: seq<Json>, f: seq<Json>, n: nat): (r: Result<seq<Merged>, PyError>)
    requires n <= |w| && n <= |f|
    ensures r.Ok? ==> |r.value| == n
    decreases n
  {
    if n == 0 then Ok([])
    else
      match MergePrefix(w, f, n - 1)
      case Err(e) => Err(e)
      case Ok(ms) =>
        match MergePair(w[n - 1], f[n - 1])
        case Err(e) => Err(e)
        case Ok(m) => Ok(ms + [m])
  }

  /**
   * merge_segments: the loop over `range(min(len(w), len(f)))`. A merge that
   * gets through has the shorter list's length, and an empty list on either
   * side merges to the empty list, whatever the other side holds.
   */
  function MergeAll(w: seq<Json>, f: seq<Json>): (r: Result<seq<Merged>, PyError>)
    ensures r.Ok? ==> |r.value| == Min(|w|, |f|)
    ensures w == [] || f == [] ==> r == Ok([])
  {
    MergePrefix(w, f, Min(|w|, |f|))
  }

  /** The position among the first `n` of the first pair whose record raises, or `n`. */
  function FirstFailure(w: seq<Json>, f: seq<Json>, n: nat): (k: nat)
    requires n <= |w| && n <= |f|
    ensures k <= n
    ensures forall i :: 0 <= i < k ==> MergePair(w[i], f[i]).Ok?
    ensures k < n ==> MergePair(w[k], f[k]).Err?
  {
    if n == 0 then 0
    else
      var k := FirstFailure(w, f, n - 1);
      if k < n - 1 then k else if MergePair(w[n - 1], f[n - 1]).Err? then n - 1 else n
  }

  /**
   * The loop in closed form: it gets through exactly when no pair among the
   * first `n` raises, and then position `i` is the merge of pair `i`;
   * otherwise it raises what the first failing pair raises.
   */
  lemma {:induction false} MergePrefixClosed(w: seq<Json>, f: seq<Json>, n: nat)
    requires n <= |w| && n <= |f|
    ensures var r := MergePrefix(w, f, n);
            && (r.Ok? <==> FirstFailure(w, f, n) == n)
            && (r.Ok? ==> forall i :: 0 <= i < n ==> r.value[i] == MergePair(w[i], f[i]).value)
            && (r.Err? ==> r.error == MergePair(w[FirstFailure(w, f, n)], f[FirstFailure(w, f, n)]).error)
    decreases n
  {
    if n > 0 {
      MergePrefixClosed(w, f, n - 1);
    }
  }

  /**
   * The merge of two lists of well-formed records: as long as the shorter
   * list, and each position takes start, end, speaker (or `"Unknown"`) and
   * text from the Whisper record and only the text from the faster-whisper
   * record.
   */
  lemma MergeAllFields(w: seq<Json>, f: seq<Json>)
    requires forall i :: 0 <= i < |w| ==> w[i].JObject? && "start" in w[i].fields && "end" in w[i].fields && "text" in w[i].fields
    requires forall i :: 0 <= i < |f| ==> f[i].JObject? && "text" in f[i].fields
    ensures MergeAll(w, f).Ok?
    ensures var ms := MergeAll(w, f).value;
            && |ms| == Min(|w|, |f|)
            && forall i :: 0 <= i < |ms| ==>
                 && ms[i].startWhisper == w[i].fields["start"]
                 && ms[i].endWhisper == w[i].fields["end"]
                 && ms[i].speaker == Get(w[i].fields, "speaker", UnknownSpeaker)
                 && ms[i].textWhisper == w[i].fields["text"]
                 && ms[i].textFast == f[i].fields["text"]
  {
    MergePrefixClosed(w, f, Min(|w|, |f|));
  }

  /** The first `n` turns look only at the first `n` records of each list. */
  lemma {:induction false} MergePrefixLocal(w: seq<Json>, f: seq<Json>, w': seq<Json>, f': seq<Json>, n: nat)
    requires n <= |w| && n <= |f| && n <= |w'| && n <= |f'|
    requires w[..n] == w'[..n] && f[..n] == f'[..n]
    ensures MergePrefix(w, f, n) == MergePrefix(w', f', n)
    decreases n
  {
    if n > 0 {
      assert w[n - 1] == w[..n][n - 1] && w'[n - 1] == w'[..n][n - 1];
      assert f[n - 1] == f[..n][n - 1] && f'[n - 1] == f'[..n][n - 1];
      assert w[..n - 1] == w[..n][..n - 1] && w'[..n - 1] == w'[..n][..n - 1];
      assert f[..n - 1] == f[..n][..n - 1] && f'[..n - 1] == f'[..n][..n - 1];
      MergePrefixLocal(w, f, w', f', n - 1);
    }
  }

  /** Records past the end of the shorter list never affect the result: both lists may be cut to that length. */
  lemma MergeIgnoresTail(w: seq<Json>, f: seq<Json>)
    ensures var n := Min(|w|, |f|);
            MergeAll(w, f) == MergeAll(w[..n], f[..n])
  {
    var n := Min(|w|, |f|);
    assert w[..n][..n] == w[..n] && f[..n][..n] == f[..n];
    MergePrefixLocal(w, f, w[..n], f[..n], n);
  }

  /** What a faster-whisper record contributes: whether it has a `text` key, and the value there. */
  predicate SameText(a: Json, b: Json) {
    && (a.JObject? && "text" in a.fields <==> b.JObject? && "text" in b.fields)
    && (a.JObject? && "text" in a.fields ==> a.fields["text"] == b.fields["text"])
    && (a.JObject? <==> b.JObject?)
  }

  /**
   * Of a faster-whisper record only its text is read: two lists whose
   * records agree on that merge alike, whatever their other fields.
   */
  lemma {:induction false} MergeUsesFastTextOnly(w: seq<Json>, f: seq<Json>, f': seq<Json>, n: nat)
    requires n <= |w| && n <= |f| && |f'| == |f|
    requires forall i :: 0 <= i < |f| ==> SameText(f[i], f'[i])
    ensures MergePrefix(w, f, n) == MergePrefix(w, f', n)
    decreases n
  {
    if n > 0 {
      MergeUsesFastTextOnly(w, f, f', n - 1);
      assert SameText(f[n - 1], f'[n - 1]);
    }
  }

  /**
   * merge_segments itself: a `for` loop over the positions below the shorter
   * length that appends one merged record per turn. `Err` is the exception
   * that leaves the function.
   */
  method MergeSegments(w: seq<Json>, f: seq<Json>) returns (r: Result<seq<Merged>, PyError>)
    ensures r == MergeAll(w, f)
    ensures r.Ok? ==> |r.value| == Min(|w|, |f|)
                      && forall i :: 0 <= i < |r.value| ==> MergePair(w[i], f[i]).Ok? && r.value[i] == MergePair(w[i], f[i]).value
  {
    var merged: seq<Merged> := [];
    var n := Min(|w|, |f|);
    var i := 0;
    while i < n
      invariant 0 <= i <= n
      invariant MergePrefix(w, f, i) == Ok(merged)
    {
      var m := MergePair(w[i], f[i]);
      MergePrefixNext(w, f, i, merged);
      if m.Err? {
        r := Err(m.error);
        MergePrefixStops(w, f, i + 1, n);
        return;
      }
      merged := merged + [m.value];
      i := i + 1;
    }
    r := Ok(merged);
    MergePrefixClosed(w, f, n);
  }

  /** One more turn of the loop, from a state in which it has not stopped. */
  lemma MergePrefixNext(w: seq<Json>, f: seq<Json>, i: nat, merged: seq<Merged>)
    requires i < |w| && i < |f|
    requires MergePrefix(w, f, i) == Ok(merged)
    ensures var m := MergePair(w[i], f[i]);
            MergePrefix(w, f, i + 1) == if m.Err? then Err(m.error) else Ok(merged + [m.value])
  {
  }

  /** An error ends the loop: later turns keep it. */
  lemma {:induction false} MergePrefixStops(w: seq<Json>, f: seq<Json>, k: nat, n: nat)
    requires k <= n <= |w| && n <= |f|
    requires MergePrefix(w, f, k).Err?
    ensures MergePrefix(w, f, n) == MergePrefix(w, f, k)
    decreases n
  {
    if n > k {
      MergePrefixStops(w, f, k, n - 1);
    }
  }
}
