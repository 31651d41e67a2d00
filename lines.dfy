/** The text-file line encoding shared by `write_lines` and `read_lines`
    (src/pysimple/io.py and pysimple/io.py define them identically). */
module Lines {
  import opened Strings
  import Text

  /** What `write_lines` puts in the file: every line followed by `'\n'`, in order. */
  function EncodeLines(lines: seq<string>): (r: string)
  {
    if lines == [] then [] else lines[0] + "\n" + EncodeLines(lines[1..])
  }

  lemma {:induction false} EncodeLinesAppend(a: seq<string>, b: seq<string>)
    ensures EncodeLines(a + b) == EncodeLines(a) + EncodeLines(b)
  {
    if a != [] {
      assert (a + b)[1..] == a[1..] + b;
      EncodeLinesAppend(a[1..], b);
    } else {
      assert a + b == b;
    }
  }

  /** The encoding has one `'\n'` per line, and nothing but the lines' own characters besides. */
  lemma {:induction false} EncodeLinesLength(lines: seq<string>)
    ensures |EncodeLines(lines)| == |lines| + Total(lines)
  {
    if lines != [] {
      EncodeLinesLength(lines[1..]);
    }
  }

  /** The number of characters in all the lines together. */
  function Total(lines: seq<string>): nat
  {
    if lines == [] then 0 else |lines[0]| + Total(lines[1..])
  }

  /** A text file opened in Python's default text mode. */
  class TextFile {
    var content: string

    constructor (content: string)
      ensures this.content == content
    {
      this.content := content;
    }

    /** `write_lines(filepath, lines)`: open with mode `'w'` (which empties the file),
        then `f.write(line + '\n')` for each line in turn. */
    method WriteLines(lines: seq<string>)
      modifies this
      ensures content == EncodeLines(lines)
    {
      content := [];
      for i := 0 to |lines|
        invariant content == EncodeLines(lines[..i])
      {
        EncodeLinesAppend(lines[..i], [lines[i]]);
        assert lines[..i + 1] == lines[..i] + [lines[i]];
        content := content + (lines[i] + "\n");
      }
      assert lines[..|lines|] == lines;
    }
  }

  // ---------------------------------------------------------------------------
  // Reading

  /** Universal-newline translation on read: `"\r\n"` and a lone `"\r"` both become `"\n"`. */
  function Translate(s: string): (r: string)
    decreases |s|
  {
    if s == [] then []
    else if s[0] == '\r' then
      if |s| > 1 && s[1] == '\n' then "\n" + Translate(s[2..]) else "\n" + Translate(s[1..])
    else [s[0]] + Translate(s[1..])
  }

  /** Text without `'\r'` is read as it is. */
  lemma {:induction false} TranslatePlain(s: string)
    requires '\r' !in s
    ensures Translate(s) == s
  {
    if s != [] {
      TranslatePlain(s[1..]);
      assert [s[0]] + s[1..] == s;
    }
  }

  /** No `'\r'` survives the translation. */
  lemma {:induction false} TranslateNoReturn(s: string)
    ensures '\r' !in Translate(s)
    decreases |s|
  {
    if s != [] {
      if s[0] == '\r' && |s| > 1 && s[1] == '\n' {
        TranslateNoReturn(s[2..]);
      } else {
        TranslateNoReturn(s[1..]);
      }
    }
  }

  /** The first line of a nonempty text: up to and including the first `'\n'`, or all of it. */
  function TakeLine(s: string): (w: string)
    requires s != []
    ensures 1 <= |w| <= |s| && w == s[..|w|]
    ensures '\n' !in w[..|w| - 1]
    ensures w[|w| - 1] == '\n' || w == s
  {
    if s[0] == '\n' || |s| == 1 then [s[0]]
    else [s[0]] + TakeLine(s[1..])
  }

  /** Iterating over a text file: its lines, each keeping its `'\n'` (the last one may lack it). */
  function SplitLines(s: string): seq<string>
    decreases |s|
  {
    if s == [] then [] else
      var w := TakeLine(s);
      [w] + SplitLines(s[|w|..])
  }

  /** `read_lines(filepath)`: each line of the file with `rstrip()` applied. */
  function ReadLines(content: string): (r: seq<string>)
  {
    var lines := SplitLines(Translate(content));
    seq(|lines|, i requires 0 <= i < |lines| => Text.RStrip(lines[i]))
  }

  lemma {:induction false} TakeLineFirst(line: string, rest: string)
    requires '\n' !in line
    ensures TakeLine(line + "\n" + rest) == line + "\n"
  {
    if line != [] {
      assert (line + "\n" + rest)[1..] == line[1..] + "\n" + rest;
      TakeLineFirst(line[1..], rest);
      assert [line[0]] + (line[1..] + "\n") == line + "\n";
    }
  }

  /** Every line with its `'\n'`. */
  function Terminated(lines: seq<string>): (r: seq<string>)
    ensures |r| == |lines|
    ensures forall i :: 0 <= i < |lines| ==> r[i] == lines[i] + "\n"
  {
    if lines == [] then [] else [lines[0] + "\n"] + Terminated(lines[1..])
  }

  /** Splitting the encoding gives back the lines with their `'\n'`. */
  lemma {:induction false} SplitEncoded(lines: seq<string>)
    requires forall i :: 0 <= i < |lines| ==> '\n' !in lines[i]
    ensures SplitLines(EncodeLines(lines)) == Terminated(lines)
  {
    if lines != [] {
      SplitLinesStep(lines[0], EncodeLines(lines[1..]));
      SplitEncoded(lines[1..]);
    }
  }

  /** A line ended by `'\n'` is split off the front as it is. */
  lemma SplitLinesStep(line: string, rest: string)
    requires '\n' !in line
    ensures SplitLines(line + "\n" + rest) == [line + "\n"] + SplitLines(rest)
  {
    var w := line + "\n";
    TakeLineFirst(line, rest);
    assert (w + rest)[|w|..] == rest;
  }

  /** Characters `write_lines` must not see in a line if it is to come back as one line. */
  predicate OneLine(line: string)
  {
    '\n' !in line && '\r' !in line
  }

  /** Written and read back, every line comes out `rstrip`ped and the count is kept. */
  lemma ReadWritten(lines: seq<string>)
    requires forall i :: 0 <= i < |lines| ==> OneLine(lines[i])
    ensures |ReadLines(EncodeLines(lines))| == |lines|
    ensures forall i :: 0 <= i < |lines| ==> ReadLines(EncodeLines(lines))[i] == Text.RStrip(lines[i])
  {
    EncodedHasNoReturn(lines);
    TranslatePlain(EncodeLines(lines));
    SplitEncoded(lines);
    forall i | 0 <= i < |lines|
      ensures Text.RStrip(lines[i] + "\n") == Text.RStrip(lines[i])
    {
      assert (lines[i] + "\n")[..|lines[i]|] == lines[i];
    }
  }

  lemma {:induction false} EncodedHasNoReturn(lines: seq<string>)
    requires forall i :: 0 <= i < |lines| ==> '\r' !in lines[i]
    ensures '\r' !in EncodeLines(lines)
  {
    if lines != [] {
      EncodedHasNoReturn(lines[1..]);
    }
  }

  /** A line that `rstrip` leaves alone. */
  predicate NoTrailingSpace(line: string)
  {
    line == [] || !IsSpace(line[|line| - 1])
  }

  /** The round trip: lines without line breaks or trailing whitespace come back exactly. */
  lemma ReadWriteRoundTrip(lines: seq<string>)
    requires forall i :: 0 <= i < |lines| ==> OneLine(lines[i]) && NoTrailingSpace(lines[i])
    ensures ReadLines(EncodeLines(lines)) == lines
  {
    ReadWritten(lines);
  }

  /** Trailing whitespace does not survive: a line written with a trailing space comes back without it. */
  lemma TrailingSpaceLost(w: string)
    requires OneLine(w) && w != [] && !IsSpace(w[|w| - 1])
    ensures ReadLines(EncodeLines([w + " "])) == [w]
  {
    assert OneLine(w + " ");
    ReadWritten([w + " "]);
    Text.RStripSpaceSuffix(w, " ");
    assert Text.RStrip(w) == w;
  }
}
