/**
 * checkpoint.log, the record of input files the batch correction pass has
 * finished: a text file with one file name per line that is only ever
 * appended to, and read back as a set of names.
 */
module Checkpoint {
  import opened Wrappers
  import opened PyText

  /** The text of the log; a log file that does not exist reads as no text. */
  function Text(log: Option<string>): string {
    log.GetOr("")
  }

  /** What one line contributes to the set: its stripped text, unless the line is all whitespace. */
  function Entry(line: string): (e: set<string>)
    ensures e == {} <==> AllSpace(line)
    ensures forall x :: x in e ==> x == Strip(line) && x != ""
  {
    var name := Strip(line);
    if name == "" then {} else {name}
  }

  /**
   * The set built from a sequence of lines: stripped, blank lines dropped,
   * duplicates merged. Every member is non-blank and has no whitespace at
   * either end.
   */
  function LineSet(lines: seq<string>): (names: set<string>)
    ensures forall x :: x in names ==> x != "" && Stripped(x)
  {
    if lines == [] then {} else LineSet(lines[..|lines| - 1]) + Entry(lines[|lines| - 1])
  }

  /** Every line, stripped. */
  function StripAll(lines: seq<string>): (r: seq<string>)
    ensures |r| == |lines|
    ensures forall i :: 0 <= i < |lines| ==> r[i] == Strip(lines[i])
  {
    if lines == [] then [] else StripAll(lines[..|lines| - 1]) + [Strip(lines[|lines| - 1])]
  }

  /**
   * The set is exactly the stripped non-blank lines: a name is in it iff some
   * line strips to it.
   */
  lemma {:induction false} LineSetMembers(lines: seq<string>, x: string)
    ensures x in LineSet(lines) <==> x != "" && x in StripAll(lines)
  {
    if lines != [] {
      LineSetMembers(lines[..|lines| - 1], x);
    }
  }

  lemma {:induction false} LineSetAppend(xs: seq<string>, ys: seq<string>)
    ensures LineSet(xs + ys) == LineSet(xs) + LineSet(ys)
    decreases |ys|
  {
    if ys == [] {
      assert xs + ys == xs;
    } else {
      var n := |ys| - 1;
      assert (xs + ys)[..|xs + ys| - 1] == xs + ys[..n];
      LineSetAppend(xs, ys[..n]);
    }
  }

  /** The lines a reader of the log text sees. */
  function LogLines(log: Option<string>): seq<string> {
    Lines(Normalize(Text(log)))
  }

  /**
   * load_checkpoint: a missing log gives the empty set; otherwise every line
   * is stripped and the non-blank ones form the set.
   */
  function LoadCheckpoint(log: Option<string>): (done: set<string>)
    ensures log.None? ==> done == {}
    ensures forall x :: x in done ==> x != "" && Stripped(x)
  {
    match log
    case None => {}
    case Some(c) =>
      LineSet(Lines(Normalize(c)))
  }

  /** A missing log and an empty log load the same, and loading reads every line of the log. */
  lemma LoadCheckpointLines(log: Option<string>)
    ensures LoadCheckpoint(log) == LineSet(LogLines(log))
  {
  }

  /**
   * save_checkpoint: open the log for appending (creating it when absent)
   * and write the name and a newline after what is already there.
   */
  function AppendLine(log: Option<string>, filename: string): (log': Option<string>)
    ensures log'.Some?
    ensures Text(log) <= Text(log')
    ensures Text(log')[|Text(log)|..] == filename + "\n"
  {
    Some(Text(log) + filename + "\n")
  }

  /**
   * Reading back after appending a name without line breaks to a log that
   * ends in a newline gives the old set plus the stripped name (nothing when
   * the name is blank; AppendWithLineBreak covers a name that has one), and the
   * log still ends in a newline. A name with whitespace around it therefore
   * never reads back as itself.
   */
  lemma LoadAfterAppend(log: Option<string>, filename: string)
    requires EndsLine(Text(log))
    requires '\n' !in filename && '\r' !in filename
    ensures LoadCheckpoint(AppendLine(log, filename)) == LoadCheckpoint(log) + Entry(filename)
    ensures EndsLine(Text(AppendLine(log, filename)))
    ensures filename in LoadCheckpoint(AppendLine(log, filename))
        <==> filename in LoadCheckpoint(log) || (filename != "" && Stripped(filename))
  {
    var log' := AppendLine(log, filename);
    LogLinesAfterAppend(log, filename);
    var xs := LogLines(log);
    assert (xs + [filename])[..|xs|] == xs;
    LoadCheckpointLines(log);
    LoadCheckpointLines(log');
    StripFixpoint(filename);
  }

  lemma LogLinesAfterAppend(log: Option<string>, filename: string)
    requires EndsLine(Text(log))
    requires '\n' !in filename && '\r' !in filename
    ensures LogLines(AppendLine(log, filename)) == LogLines(log) + [filename]
  {
    var c := Text(log);
    var line := filename + "\n";
    assert Text(AppendLine(log, filename)) == c + line;
    NormalizeAppend(c, line);
    NormalizeIdentity(line);
    NormalizeEndsLine(c);
    LinesAppend(Normalize(c), line);
    LinesOfOneLine(filename);
  }

  /**
   * A name holding a line break is saved as two lines: after the append
   * the log reads back its two parts, each stripped, as two separate names.
   * The second part is then taken as done whether or not a file of that name
   * was ever processed.
   */
  lemma AppendWithLineBreak(log: Option<string>, a: string, b: string)
    requires EndsLine(Text(log))
    requires '\n' !in a && '\r' !in a && '\n' !in b && '\r' !in b
    ensures AppendLine(log, a + "\n" + b) == AppendLine(AppendLine(log, a), b)
    ensures LoadCheckpoint(AppendLine(log, a + "\n" + b)) == LoadCheckpoint(log) + Entry(a) + Entry(b)
    ensures b != "" && Stripped(b) ==> b in LoadCheckpoint(AppendLine(log, a + "\n" + b))
  {
    var t := Text(log);
    calc {
      t + (a + "\n" + b) + "\n";
      { Assoc(a, "\n", b); Assoc(t, a, "\n" + b); Assoc(t + a, "\n", b); Assoc(t, a + "\n" + b, "\n"); }
      t + a + "\n" + b + "\n";
    }
    LoadAfterAppend(log, a);
    LoadAfterAppend(AppendLine(log, a), b);
  }

  /**
   * A lone `\r` in a name splits it the same way: reading the log translates
   * it to `\n`, so the two parts read back as two names.
   */
  lemma AppendWithCarriageReturn(log: Option<string>, a: string, b: string)
    requires EndsLine(Text(log))
    requires '\n' !in a && '\r' !in a && '\n' !in b && '\r' !in b
    ensures LoadCheckpoint(AppendLine(log, a + "\r" + b)) == LoadCheckpoint(log) + Entry(a) + Entry(b)
  {
    CarriageReturnReadsAsBreak(log, a, b);
    if b == [] {
      SameReading(Text(AppendLine(log, a + "\r" + b)), Text(AppendLine(log, a)));
      LoadAfterAppend(log, a);
      assert Entry(b) == {};
    } else {
      SameReading(Text(AppendLine(log, a + "\r" + b)), Text(AppendLine(log, a + "\n" + b)));
      AppendWithLineBreak(log, a, b);
    }
  }

  /** After the append, the log with the `\r` reads as the log with a `\n` in its place (or with the name `a` alone). */
  lemma CarriageReturnReadsAsBreak(log: Option<string>, a: string, b: string)
    requires EndsLine(Text(log))
    requires '\n' !in a && '\r' !in a && '\n' !in b && '\r' !in b
    ensures Normalize(Text(AppendLine(log, a + "\r" + b)))
            == Normalize(Text(if b == [] then AppendLine(log, a) else AppendLine(log, a + "\n" + b)))
  {
    var t := Text(log);
    var x := a + "\r" + b + "\n";
    var y := if b == [] then a + "\n" else a + "\n" + b + "\n";
    Assoc(t, a + "\r" + b, "\n");
    NormalizeCarriageReturn(a, b);
    assert '\r' !in y;
    NormalizeIdentity(y);
    assert t == [] || t[|t| - 1] != '\r';
    NormalizeAppend(t, x);
    NormalizeAppend(t, y);
    if b == [] {
      Assoc(t, a, "\n");
    } else {
      Assoc(t, a + "\n" + b, "\n");
    }
  }

  /** Two texts that read alike in text mode load as the same set. */
  lemma SameReading(c: string, d: string)
    requires Normalize(c) == Normalize(d)
    ensures LoadCheckpoint(Some(c)) == LoadCheckpoint(Some(d))
  {
  }

  /** Appending to a log that ends in a newline never loses an entry, whatever the name. */
  lemma LoadGrowsOnAppend(log: Option<string>, filename: string)
    requires EndsLine(Text(log))
    ensures LoadCheckpoint(log) <= LoadCheckpoint(AppendLine(log, filename))
  {
    var c := Text(log);
    var line := filename + "\n";
    assert Text(AppendLine(log, filename)) == c + line;
    NormalizeAppend(c, line);
    NormalizeEndsLine(c);
    LinesAppend(Normalize(c), Normalize(line));
    LineSetAppend(Lines(Normalize(c)), Lines(Normalize(line)));
  }

  /**
   * A log whose last line lacks its newline (save_checkpoint never leaves one
   * behind, but a log edited by hand may end so) loses that line on the next
   * append: the new name is written onto it, and neither name reads back.
   */
  lemma AppendToUnterminatedLine(c: string, filename: string)
    requires c != [] && filename != []
    requires '\n' !in c && '\r' !in c && '\n' !in filename && '\r' !in filename
    requires Stripped(c) && Stripped(filename)
    ensures LoadCheckpoint(Some(c)) == {c}
    ensures LoadCheckpoint(AppendLine(Some(c), filename)) == {c + filename}
    ensures c !in LoadCheckpoint(AppendLine(Some(c), filename))
    ensures filename !in LoadCheckpoint(AppendLine(Some(c), filename))
  {
    var f := c + filename;
    assert f[0] == c[0] && f[|f| - 1] == filename[|filename| - 1];
    assert '\n' !in f && '\r' !in f by {
      forall i | 0 <= i < |f| ensures f[i] != '\n' && f[i] != '\r' {
        if i < |c| { assert f[i] == c[i]; } else { assert f[i] == filename[i - |c|]; }
      }
    }
    OneNameLog(c);
    OneNameLog(f);
    assert AppendLine(Some(c), filename) == Some(f + "\n");
  }

  /** A log holding one plain name, with or without its newline, loads as that name. */
  lemma OneNameLog(f: string)
    requires f != [] && '\n' !in f && '\r' !in f && Stripped(f)
    ensures LoadCheckpoint(Some(f)) == {f}
    ensures LoadCheckpoint(Some(f + "\n")) == {f}
  {
    StripFixpoint(f);
    assert [f][..0] == [];
    assert LineSet([f]) == {f} by {
      assert Entry(f) == {f};
    }
    NormalizeIdentity(f);
    assert LineEnd(f) == |f|;
    assert Lines(f) == [f];
    TerminatedOneNameLog(f);
    assert LoadCheckpoint(Some(f + "\n")) == LineSet([f]);
  }

  lemma TerminatedOneNameLog(f: string)
    requires '\n' !in f && '\r' !in f
    ensures Lines(Normalize(f + "\n")) == [f]
  {
    assert '\r' !in f + "\n" by {
      forall i | 0 <= i < |f + "\n"| ensures (f + "\n")[i] != '\r' {
        if i < |f| { assert (f + "\n")[i] == f[i]; }
      }
    }
    NormalizeIdentity(f + "\n");
    LinesOfOneLine(f);
  }
}
