/**
 * The few pieces of Python's `str` behaviour the batch pass relies on:
 * `isspace`/`\s`, `strip`, `startswith`/`endswith`, and the way a text
 * file opened for reading is cut into lines (universal newlines).
 */
module PyText {

  /**
   * `str.isspace()` for one character, which is also what `\s` matches in a
   * `re` pattern over `str`: the ASCII controls TAB..CR and FS..US, the space,
   * NEL, NBSP and the Unicode space separators and line/paragraph separators.
   * The characters of an ordinary file name (letters, digits, `.`, `_`) are
   * never whitespace.
   */
  predicate IsSpace(c: char): (b: bool)
    ensures c == ' ' || c == '\t' || c == '\n' || c == '\r' ==> b
    ensures ('0' <= c <= '9') || ('a' <= c <= 'z') || ('A' <= c <= 'Z') || c == '.' || c == '_' ==> !b
  {
    ('\t' <= c <= '\r') || ('\U{1C}' <= c <= '\U{1F}') || c == ' '
    || c == '\U{85}' || c == '\U{A0}' || c == '\U{1680}'
    || ('\U{2000}' <= c <= '\U{200A}') || c == '\U{2028}' || c == '\U{2029}'
    || c == '\U{202F}' || c == '\U{205F}' || c == '\U{3000}'
  }

  predicate AllSpace(s: string) {
    forall i :: 0 <= i < |s| ==> IsSpace(s[i])
  }

  /** Neither end of `s` is whitespace: what `strip` leaves behind. */
  predicate Stripped(s: string) {
    s == [] || (!IsSpace(s[0]) && !IsSpace(s[|s| - 1]))
  }

  /** `s.startswith(prefix)`: `s` is `prefix` followed by the rest of `s`. */
  predicate StartsWith(s: string, prefix: string): (b: bool)
    ensures b <==> |prefix| <= |s| && s == prefix + s[|prefix|..]
  {
    |prefix| <= |s| && s[..|prefix|] == prefix
  }

  /** `s.endswith(suffix)`: `s` is the front of `s` followed by `suffix`. */
  predicate EndsWith(s: string, suffix: string): (b: bool)
    ensures b <==> |suffix| <= |s| && s == s[..|s| - |suffix|] + suffix
  {
    |suffix| <= |s| && s[|s| - |suffix|..] == suffix
  }

  /** Where the run of whitespace starting at `i` ends: the first non-space at or after `i`, or `|s|`. */
  function SpaceRunEnd(s: string, i: nat): (k: nat)
    requires i <= |s|
    ensures i <= k <= |s|
    ensures forall j :: i <= j < k ==> IsSpace(s[j])
    ensures k < |s| ==> !IsSpace(s[k])
    decreases |s| - i
  {
    if i < |s| && IsSpace(s[i]) then SpaceRunEnd(s, i + 1) else i
  }

  /** Where the run of whitespace ending at `j` starts: just after the last non-space before `j`, or 0. */
  function SpaceRunStart(s: string, j: nat): (k: nat)
    requires j <= |s|
    ensures k <= j
    ensures forall i :: k <= i < j ==> IsSpace(s[i])
    ensures 0 < k ==> !IsSpace(s[k - 1])
  {
    if 0 < j && IsSpace(s[j - 1]) then SpaceRunStart(s, j - 1) else j
  }

  /** `str.lstrip()`: `s` after its leading whitespace. */
  function TrimLeft(s: string): string {
    s[SpaceRunEnd(s, 0)..]
  }

  /** `str.rstrip()`: `s` before its trailing whitespace. */
  function TrimRight(s: string): string {
    s[..SpaceRunStart(s, |s|)]
  }

  /** `str.strip()` with no argument. */
  function Strip(s: string): (r: string)
    ensures Stripped(r)
    ensures |r| <= |s|
    ensures AllSpace(s) <==> r == []
  {
    var u := TrimLeft(s);
    var r := TrimRight(u);
    assert r != [] ==> r[0] == u[0] && r[|r| - 1] == u[|r| - 1];
    assert r == [] ==> AllSpace(s) by {
      if r == [] {
        assert SpaceRunEnd(s, 0) == |s|;
      }
    }
    r
  }

  /** Leading whitespace followed by a string that does not start with whitespace: lstrip removes exactly the whitespace. */
  lemma TrimLeftPadded(lead: string, rest: string)
    requires AllSpace(lead)
    requires rest == [] || !IsSpace(rest[0])
    ensures TrimLeft(lead + rest) == rest
  {
    var s := lead + rest;
    assert s[|lead|..] == rest;
  }

  /** A string that does not end in whitespace followed by whitespace: rstrip removes exactly the whitespace. */
  lemma TrimRightPadded(rest: string, trail: string)
    requires AllSpace(trail)
    requires rest == [] || !IsSpace(rest[|rest| - 1])
    ensures TrimRight(rest + trail) == rest
  {
    var s := rest + trail;
    assert s[..|rest|] == rest;
  }

  /**
   * `strip` undoes whitespace padding: surrounding an already stripped
   * string with whitespace and stripping it gives the string back.
   */
  lemma StripPadded(lead: string, x: string, trail: string)
    requires AllSpace(lead) && AllSpace(trail)
    requires Stripped(x)
    ensures Strip(lead + x + trail) == x
  {
    if x == [] {
      assert lead + x + trail == lead + trail;
      assert AllSpace(lead + trail) by {
        forall i | 0 <= i < |lead + trail| ensures IsSpace((lead + trail)[i]) {
          if i >= |lead| { assert (lead + trail)[i] == trail[i - |lead|]; }
        }
      }
    } else {
      Assoc(lead, x, trail);
      TrimLeftPadded(lead, x + trail);
      TrimRightPadded(x, trail);
    }
  }

  /** The strings `strip` leaves unchanged are exactly the stripped ones. */
  lemma StripFixpoint(s: string)
    ensures Strip(s) == s <==> Stripped(s)
  {
    if Stripped(s) {
      StripPadded([], s, []);
      assert [] + s + [] == s;
    }
  }

  /**
   * Universal-newline translation done when a text file is read: `\r\n`
   * and a lone `\r` each become `\n`.
   */
  function Normalize(c: string): (r: string)
    ensures '\r' !in r
    ensures |r| <= |c|
  {
    if c == [] then []
    else if c[0] != '\r' then [c[0]] + Normalize(c[1..])
    else if |c| > 1 && c[1] == '\n' then "\n" + Normalize(c[2..])
    else "\n" + Normalize(c[1..])
  }

  /** Index of the first `\n` in `c`, or `|c|` when there is none. */
  function LineEnd(c: string): (k: nat)
    ensures k <= |c|
    ensures k < |c| ==> c[k] == '\n'
    ensures forall i :: 0 <= i < k ==> c[i] != '\n'
  {
    if c == [] || c[0] == '\n' then 0 else 1 + LineEnd(c[1..])
  }

  /**
   * The lines that iterating over a text file yields, with their `\n`
   * dropped; a final line without `\n` is a line too, and no empty line
   * follows a final `\n`.
   */
  function Lines(c: string): (r: seq<string>)
    ensures forall i :: 0 <= i < |r| ==> '\n' !in r[i]
    decreases |c|
  {
    if c == [] then []
    else
      var k := LineEnd(c);
      if k == |c| then [c] else [c[..k]] + Lines(c[k + 1..])
  }

  /** A text that is empty or ends in a newline: appending to it starts a fresh line. */
  predicate EndsLine(c: string) {
    c == [] || c[|c| - 1] == '\n'
  }

  lemma {:induction false} LinesAppend(a: string, b: string)
    requires EndsLine(a)
    ensures Lines(a + b) == Lines(a) + Lines(b)
    decreases |a|
  {
    if a == [] {
      assert a + b == b;
    } else {
      var k := LineEnd(a);
      var rest := a[k + 1..];
      LinesFirst(a, b);
      calc {
        Lines(a + b);
        [a[..k]] + Lines(rest + b);
        { LinesAppend(rest, b); }
        [a[..k]] + (Lines(rest) + Lines(b));
        { Assoc([a[..k]], Lines(rest), Lines(b)); }
        [a[..k]] + Lines(rest) + Lines(b);
        Lines(a) + Lines(b);
      }
    }
  }

  /** The first line of a text ending in a newline is also the first line of anything appended to it. */
  lemma LinesFirst(a: string, b: string)
    requires a != [] && a[|a| - 1] == '\n'
    ensures LineEnd(a) < |a|
    ensures Lines(a) == [a[..LineEnd(a)]] + Lines(a[LineEnd(a) + 1..])
    ensures Lines(a + b) == [a[..LineEnd(a)]] + Lines(a[LineEnd(a) + 1..] + b)
    ensures EndsLine(a[LineEnd(a) + 1..])
  {
    var k := LineEnd(a);
    LineEndPrefix(a, b);
    assert (a + b)[..k] == a[..k];
    assert (a + b)[k + 1..] == a[k + 1..] + b;
  }

  lemma LineEndPrefix(a: string, b: string)
    requires a != [] && a[|a| - 1] == '\n'
    ensures LineEnd(a) < |a| && LineEnd(a + b) == LineEnd(a)
  {
    var k := LineEnd(a);
    assert k < |a|;
    assert (a + b)[k] == '\n';
  }

  lemma LinesOfOneLine(f: string)
    requires '\n' !in f
    ensures Lines(f + "\n") == [f]
  {
    var c := f + "\n";
    assert forall i :: 0 <= i < |f| ==> c[i] == f[i];
    assert c[|f|] == '\n';
    assert c[..|f|] == f;
    assert c[|f| + 1..] == [];
  }

  lemma {:induction false} NormalizeAppend(a: string, b: string)
    requires a == [] || a[|a| - 1] != '\r'
    ensures Normalize(a + b) == Normalize(a) + Normalize(b)
    decreases |a|
  {
    if a == [] {
      assert a + b == b;
    } else {
      var d := if a[0] == '\r' && a[1] == '\n' then 2 else 1;
      var head := if a[0] == '\r' then "\n" else [a[0]];
      var ab := a + b;
      assert ab[0] == a[0] && (|a| > 1 ==> ab[1] == a[1]);
      assert ab[d..] == a[d..] + b;
      NormalizeAppend(a[d..], b);
      Assoc(head, Normalize(a[d..]), Normalize(b));
    }
  }

  /** Concatenation regroups; stated once so that proofs about a sequence of pieces need not rediscover it. */
  lemma Assoc<T>(x: seq<T>, y: seq<T>, z: seq<T>)
    ensures x + (y + z) == (x + y) + z
  {
  }

  /** A lone `\r` inside a line is read as a line break: the line reads as two (one when nothing follows the `\r`). */
  lemma NormalizeCarriageReturn(a: string, b: string)
    requires '\n' !in a && '\r' !in a && '\n' !in b && '\r' !in b
    ensures Normalize(a + "\r" + b + "\n") == if b == [] then a + "\n" else a + "\n" + b + "\n"
  {
    var tail := "\r" + b + "\n";
    Assoc(a, "\r" + b, "\n");
    Assoc(a, "\r", b);
    assert a == [] || a[|a| - 1] != '\r';
    NormalizeAppend(a, tail);
    NormalizeIdentity(a);
    NormalizeCarriageReturnTail(b);
    if b != [] {
      Assoc(a, "\n" + b, "\n");
      Assoc(a, "\n", b);
    }
  }

  lemma NormalizeCarriageReturnTail(b: string)
    requires '\n' !in b && '\r' !in b
    ensures Normalize("\r" + b + "\n") == if b == [] then "\n" else "\n" + b + "\n"
  {
    var tail := "\r" + b + "\n";
    if b == [] {
      assert tail == "\r\n";
    } else {
      assert tail[0] == '\r' && tail[1] == b[0] && tail[1..] == b + "\n";
      NormalizeIdentity(b + "\n");
      Assoc("\n", b, "\n");
    }
  }

  lemma {:induction false} NormalizeIdentity(s: string)
    requires '\r' !in s
    ensures Normalize(s) == s
    decreases |s|
  {
    if s != [] {
      assert s == [s[0]] + s[1..];
      NormalizeIdentity(s[1..]);
    }
  }

  lemma {:induction false} NormalizeEndsLine(c: string)
    requires EndsLine(c)
    ensures EndsLine(Normalize(c))
    decreases |c|
  {
    if c != [] {
      if c[0] == '\r' {
        if |c| > 1 && c[1] == '\n' {
          NormalizeEndsLine(c[2..]);
        } else {
          NormalizeEndsLine(c[1..]);
        }
      } else if |c| > 1 {
        NormalizeEndsLine(c[1..]);
      }
    }
  }
}
