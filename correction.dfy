/**
 * correct_text_with_llm: one transcript record is sent to the language
 * model, a leading `Assistant:` is removed from its reply and the rest is
 * parsed as JSON. The HTTP exchange and the JSON parser are not modelled:
 * the exchange is a `Reply`, the parser a function handed in.
 */
module Correction {
  import opened Wrappers
  import opened JsonValue
  import opened PyText

  /**
   * How far the request got before `raw` was bound at LLMMistral.py:61.
   * `NoContent`: `requests.post`, `raise_for_status`, `.json()` or the
   * `["choices"][0]["message"]["content"]` lookup raised, so `raw` was never
   * assigned. `Content(raw)`: that lookup produced `raw`, which need not be a
   * string.
   */
  datatype Reply = NoContent | Content(raw: Json)

  /**
   * What the call did. `Parsed`: it returned the parsed reply.
   * `KeptOriginal`: the handler logged the record and returned it.
   * `Escaped`: the handler itself raised `UnboundLocalError` on `raw`,
   * so the exception left the function and nothing was logged.
   */
  datatype Outcome = Parsed(value: Json) | KeptOriginal(value: Json) | Escaped

  const AssistantPrefix: string := "Assistant:"

  /**
   * `re.sub(r"^Assistant:\s*", "", t)`: a `t` that starts with `Assistant:`
   * loses that prefix and the whole run of whitespace after it, so what is
   * left is a suffix that does not start with whitespace; any other `t` is
   * left alone.
   */
  function DropAssistantPrefix(t: string): (r: string)
    ensures !StartsWith(t, AssistantPrefix) ==> r == t
    ensures StartsWith(t, AssistantPrefix) ==>
              && |AssistantPrefix| <= |t| - |r|
              && EndsWith(t, r)
              && AllSpace(t[|AssistantPrefix|..|t| - |r|])
              && (r == [] || !IsSpace(r[0]))
  {
    if StartsWith(t, AssistantPrefix) then
      var rest := t[|AssistantPrefix|..];
      var k := SpaceRunEnd(rest, 0);
      assert TrimLeft(rest) == t[|AssistantPrefix| + k..];
      TrimLeft(rest)
    else t
  }

  /**
   * The text handed to `json.loads`: the reply stripped, then one leading
   * `Assistant:` prefix and the whitespace after it removed. It is itself
   * stripped and a suffix of the stripped reply, and a reply without the
   * prefix is only stripped.
   */
  function Clean(raw: string): (r: string)
    ensures Stripped(r)
    ensures EndsWith(Strip(raw), r)
    ensures !StartsWith(Strip(raw), AssistantPrefix) ==> r == Strip(raw)
  {
    var t := Strip(raw);
    var r := DropAssistantPrefix(t);
    assert r != [] ==> r[|r| - 1] == t[|t| - 1] by {
      if r != [] {
        if StartsWith(t, AssistantPrefix) {
          assert r == t[|t| - |r|..];
        }
      }
    }
    r
  }

  /**
   * Clean undoes the decoration a model adds: whitespace, `Assistant:`,
   * whitespace, the body, whitespace leaves exactly the (stripped) body. Only
   * one prefix goes: a body that itself starts with `Assistant:` keeps it.
   */
  lemma CleanDecorated(lead: string, gap: string, body: string, trail: string)
    requires AllSpace(lead) && AllSpace(gap) && AllSpace(trail)
    requires Stripped(body)
    ensures Clean(lead + (AssistantPrefix + gap + body) + trail) == body
  {
    if body == [] {
      assert AssistantPrefix + gap + body == AssistantPrefix + gap;
      CleanBare(lead, gap, trail);
    } else {
      Assoc(AssistantPrefix, gap, body);
      CleanNonEmpty(lead, AssistantPrefix + (gap + body), gap, body, trail);
    }
  }

  lemma CleanBare(lead: string, gap: string, trail: string)
    requires AllSpace(lead) && AllSpace(gap) && AllSpace(trail)
    ensures Clean(lead + (AssistantPrefix + gap) + trail) == []
  {
    var ws := gap + trail;
    Assoc(lead, AssistantPrefix, gap);
    Assoc(lead + AssistantPrefix, gap, trail);
    assert AllSpace(ws) by {
      forall i | 0 <= i < |ws| ensures IsSpace(ws[i]) {
        if i >= |gap| { assert ws[i] == trail[i - |gap|]; }
      }
    }
    StripPadded(lead, AssistantPrefix, ws);
    assert Strip(lead + AssistantPrefix + ws) == AssistantPrefix;
    assert AssistantPrefix[|AssistantPrefix|..] == [];
  }

  lemma CleanNonEmpty(lead: string, x: string, gap: string, body: string, trail: string)
    requires AllSpace(lead) && AllSpace(gap) && AllSpace(trail)
    requires Stripped(body) && body != []
    requires x == AssistantPrefix + (gap + body)
    ensures Clean(lead + x + trail) == body
  {
    assert x[|x| - 1] == body[|body| - 1];
    StripPadded(lead, x, trail);
    assert x[..|AssistantPrefix|] == AssistantPrefix;
    assert x[|AssistantPrefix|..] == gap + body;
    TrimLeftPadded(gap, body);
  }

  /**
   * correct_text_with_llm run against one reply, with `parse` for
   * `json.loads` (`None` where it raises). A reply whose content is not a
   * string fails at `raw.strip()` after `raw` is bound, so it falls back
   * like unparsable text.
   */
  function Correct(segment: Json, reply: Reply, parse: string -> Option<Json>): (c: Outcome)
    ensures c.Escaped? <==> reply.NoContent?
    ensures c.Parsed? <==> reply.Content? && reply.raw.JString? && parse(Clean(reply.raw.s)).Some?
    ensures c.Parsed? ==> c.value == parse(Clean(reply.raw.s)).value
    ensures c.KeptOriginal? ==> c.value == segment
  {
    match reply
    case NoContent => Escaped
    case Content(raw) =>
      if !raw.JString? then KeptOriginal(segment)
      else
        match parse(Clean(raw.s))
        case Some(v) => Parsed(v)
        case None => KeptOriginal(segment)
  }

  /**
   * correct_text_with_llm as its handler evidently means it: the `except`
   * block logs the record and returns it, so a request that produced no
   * content falls back like every other failure instead of raising at the
   * print of the unbound `raw`. Every other reply is handled as the code does.
   */
  function CorrectIntended(segment: Json, reply: Reply, parse: string -> Option<Json>): (c: Outcome)
    ensures !c.Escaped?
    ensures c.Parsed? <==> reply.Content? && reply.raw.JString? && parse(Clean(reply.raw.s)).Some?
    ensures c.Parsed? ==> c.value == parse(Clean(reply.raw.s)).value
    ensures c.KeptOriginal? ==> c.value == segment
  {
    if reply.NoContent? then KeptOriginal(segment) else Correct(segment, reply, parse)
  }

  /** The two differ exactly on a reply with no content: the code raises there, the intended handler falls back. */
  lemma CorrectIntendedDiffers(segment: Json, reply: Reply, parse: string -> Option<Json>)
    ensures reply.Content? ==> CorrectIntended(segment, reply, parse) == Correct(segment, reply, parse)
    ensures reply.NoContent? ==> Correct(segment, reply, parse).Escaped?
                                 && CorrectIntended(segment, reply, parse) == KeptOriginal(segment)
  {
  }
}
