/** `flatten_text` (pysimple/text.py) applied to one string:
    `s.strip().rstrip()` followed by `re.sub(r'\s+', ' ', ...)`. */
module Text {
  import opened Strings

  /** `s.lstrip()` */
  function LStrip(s: string): string
  {
    if s != [] && IsSpace(s[0]) then LStrip(s[1..]) else s
  }

  /** `s.rstrip()` */
  function RStrip(s: string): string
  {
    if s != [] && IsSpace(s[|s| - 1]) then RStrip(s[..|s| - 1]) else s
  }

  /** `s.strip()` */
  function Strip(s: string): string
  {
    RStrip(LStrip(s))
  }

  /** `re.sub(r'\s+', ' ', s)`: every maximal run of whitespace becomes one space. */
  function Collapse(s: string): string
    decreases |s|
  {
    if s == [] then []
    else if IsSpace(s[0]) then
      LStripSuffix(s[1..]);
      " " + Collapse(LStrip(s))
    else [s[0]] + Collapse(s[1..])
  }

  /** Line 6, for one string. */
  function FlattenText(s: string): string
  {
    Collapse(RStrip(Strip(s)))
  }

  // ---------------------------------------------------------------------------
  // The reference: `' '.join(s.split())`

  predicate NoSpace(w: string)
  {
    forall i :: 0 <= i < |w| ==> !IsSpace(w[i])
  }

  predicate AllSpace(w: string)
  {
    forall i :: 0 <= i < |w| ==> IsSpace(w[i])
  }

  /** The longest prefix without whitespace. */
  function TakeWord(s: string): (w: string)
    ensures |w| <= |s| && w == s[..|w|] && NoSpace(w)
    ensures |w| < |s| ==> IsSpace(s[|w|])
    ensures s != [] && !IsSpace(s[0]) ==> |w| >= 1
  {
    if s == [] || IsSpace(s[0]) then [] else [s[0]] + TakeWord(s[1..])
  }

  /** `s.split()`: the maximal whitespace-free runs, in order. */
  function Words(s: string): seq<string>
    decreases |s|
  {
    var t := LStrip(s);
    LStripSuffix(s);
    if t == [] then []
    else
      var w := TakeWord(t);
      [w] + Words(t[|w|..])
  }

  /** `' '.join(ws)` */
  function JoinWords(ws: seq<string>): string
  {
    if ws == [] then [] else if |ws| == 1 then ws[0] else ws[0] + " " + JoinWords(ws[1..])
  }

  // ---------------------------------------------------------------------------
  // Facts about stripping

  /** `lstrip` removes a whitespace prefix and keeps the rest, which starts with a non-space. */
  lemma {:induction false} LStripSuffix(s: string)
    ensures |LStrip(s)| <= |s|
    ensures LStrip(s) == s[|s| - |LStrip(s)|..]
    ensures AllSpace(s[..|s| - |LStrip(s)|])
    ensures LStrip(s) != [] ==> !IsSpace(LStrip(s)[0])
  {
    if s != [] && IsSpace(s[0]) {
      LStripSuffix(s[1..]);
      assert s[1..][|s| - 1 - |LStrip(s)|..] == s[|s| - |LStrip(s)|..];
      assert s[..|s| - |LStrip(s)|] == [s[0]] + s[1..][..|s| - 1 - |LStrip(s)|];
    }
  }

  /** A whitespace prefix makes no difference to `lstrip`. */
  lemma {:induction false} LStripSpacePrefix(p: string, y: string)
    requires AllSpace(p)
    ensures LStrip(p + y) == LStrip(y)
  {
    if p != [] {
      assert (p + y)[1..] == p[1..] + y;
      LStripSpacePrefix(p[1..], y);
    } else {
      assert p + y == y;
    }
  }

  lemma {:induction false} LStripAllSpace(s: string)
    ensures LStrip(s) == [] <==> AllSpace(s)
  {
    if s != [] && IsSpace(s[0]) {
      LStripAllSpace(s[1..]);
      assert AllSpace(s) <==> AllSpace(s[1..]);
    }
  }

  /** Trailing text that holds a non-space protects everything before it from `rstrip`. */
  lemma {:induction false} RStripAppend(a: string, b: string)
    requires !AllSpace(b)
    ensures RStrip(a + b) == a + RStrip(b)
    decreases |b|
  {
    var n := |b|;
    assert (a + b)[|a + b| - 1] == b[n - 1];
    if IsSpace(b[n - 1]) {
      assert (a + b)[..|a + b| - 1] == a + b[..n - 1];
      assert !AllSpace(b[..n - 1]) by {
        var i :| 0 <= i < n && !IsSpace(b[i]);
        assert b[..n - 1][i] == b[i];
      }
      RStripAppend(a, b[..n - 1]);
    }
  }

  /** Trailing whitespace is all removed by `rstrip`. */
  lemma {:induction false} RStripSpaceSuffix(a: string, b: string)
    requires AllSpace(b)
    ensures RStrip(a + b) == RStrip(a)
    decreases |b|
  {
    if b == [] {
      assert a + b == a;
    } else {
      assert (a + b)[..|a + b| - 1] == a + b[..|b| - 1];
      RStripSpaceSuffix(a, b[..|b| - 1]);
    }
  }

  lemma RStripWord(w: string)
    requires w != [] && NoSpace(w)
    ensures RStrip(w) == w
  {
  }

  /** `rstrip` after `strip` changes nothing. */
  lemma {:induction false} RStripIdempotent(s: string)
    ensures RStrip(RStrip(s)) == RStrip(s)
  {
    if s != [] && IsSpace(s[|s| - 1]) {
      RStripIdempotent(s[..|s| - 1]);
    }
  }

  // ---------------------------------------------------------------------------
  // Facts about collapsing

  lemma {:induction false} CollapseWord(w: string, x: string)
    requires NoSpace(w)
    ensures Collapse(w + x) == w + Collapse(x)
  {
    if w == [] {
      assert w + x == x;
    } else {
      assert (w + x)[0] == w[0] && (w + x)[1..] == w[1..] + x;
      CollapseWord(w[1..], x);
    }
  }

  lemma CollapseSpaces(p: string, y: string)
    requires p != [] && AllSpace(p)
    requires y == [] || !IsSpace(y[0])
    ensures Collapse(p + y) == " " + Collapse(y)
  {
    assert (p + y)[0] == p[0];
    LStripSpacePrefix(p, y);
  }

  // ---------------------------------------------------------------------------
  // Words

  lemma {:induction false} WordsShape(s: string)
    ensures forall i :: 0 <= i < |Words(s)| ==> Words(s)[i] != [] && NoSpace(Words(s)[i])
    ensures Words(s) == [] <==> AllSpace(s)
    decreases |s|
  {
    var t := LStrip(s);
    LStripSuffix(s);
    LStripAllSpace(s);
    if t != [] {
      var w := TakeWord(t);
      WordsShape(t[|w|..]);
    }
  }

  /** After a word, a whitespace run followed by more words collapses to one space. */
  lemma WordThenRest(w: string, rest: string)
    requires w != [] && NoSpace(w)
    requires rest != [] && IsSpace(rest[0]) && !AllSpace(rest)
    ensures Collapse(RStrip(w + rest)) == w + " " + Collapse(Strip(rest))
  {
    var u := LStrip(rest);
    LStripSuffix(rest);
    var p := rest[..|rest| - |u|];
    assert rest == p + u && AllSpace(p);
    assert u != [] && !IsSpace(u[0]) by {
      LStripAllSpace(rest);
    }
    assert p != [];
    assert !AllSpace(u) by {
      LStripAllSpace(u);
    }
    assert RStrip(w + rest) == w + (p + RStrip(u)) by {
      RStripAppend(w, rest);
      RStripAppend(p, u);
    }
    assert Collapse(p + RStrip(u)) == " " + Collapse(Strip(rest)) by {
      RStripPrefixKept(u);
      CollapseSpaces(p, RStrip(u));
    }
    CollapseWord(w, p + RStrip(u));
  }

  /** The main characterisation: `flatten_text(s) == ' '.join(s.split())`. */
  lemma {:induction false} FlattenIsJoinedWords(s: string)
    ensures Collapse(Strip(s)) == JoinWords(Words(s))
    decreases |s|
  {
    var t := LStrip(s);
    LStripSuffix(s);
    if t == [] {
      assert Strip(s) == [];
    } else {
      var w := TakeWord(t);
      var rest := t[|w|..];
      assert t == w + rest;
      assert Words(s) == [w] + Words(rest);
      WordsShape(rest);
      if AllSpace(rest) {
        RStripSpaceSuffix(w, rest);
        RStripWord(w);
        CollapseWord(w, []);
        assert w + [] == w;
      } else {
        WordThenRest(w, rest);
        FlattenIsJoinedWords(rest);
      }
    }
  }

  /** `rstrip` keeps a non-space first character. */
  lemma {:induction false} RStripPrefixKept(u: string)
    requires u != [] && !IsSpace(u[0])
    ensures RStrip(u) != [] && RStrip(u)[0] == u[0]
    decreases |u|
  {
    if IsSpace(u[|u| - 1]) {
      RStripPrefixKept(u[..|u| - 1]);
    }
  }

  // ---------------------------------------------------------------------------
  // The promised properties of flatten_text

  /** `flatten_text` is `' '.join(s.split())`: no leading or trailing whitespace, every interior
      run of whitespace replaced by one space, words kept as they are; whitespace-only text
      becomes the empty string. */
  lemma FlattenTextSpec(s: string)
    ensures FlattenText(s) == JoinWords(Words(s))
    ensures AllSpace(s) <==> FlattenText(s) == []
    ensures FlattenText(s) != [] ==> !IsSpace(FlattenText(s)[0]) && !IsSpace(FlattenText(s)[|FlattenText(s)| - 1])
    ensures forall i :: 0 <= i < |FlattenText(s)| && IsSpace(FlattenText(s)[i]) ==>
      FlattenText(s)[i] == ' ' && 0 < i < |FlattenText(s)| - 1 && !IsSpace(FlattenText(s)[i + 1])
  {
    RStripIdempotent(LStrip(s));
    FlattenIsJoinedWords(s);
    WordsShape(s);
    JoinWordsShape(Words(s));
  }

  lemma {:induction false} JoinWordsShape(ws: seq<string>)
    requires forall i :: 0 <= i < |ws| ==> ws[i] != [] && NoSpace(ws[i])
    ensures var j := JoinWords(ws);
      && (ws == [] <==> j == [])
      && (j != [] ==> !IsSpace(j[0]) && !IsSpace(j[|j| - 1]))
      && (forall i :: 0 <= i < |j| && IsSpace(j[i]) ==> j[i] == ' ' && 0 < i < |j| - 1 && !IsSpace(j[i + 1]))
  {
    if |ws| > 1 {
      JoinWordsShape(ws[1..]);
      var j, w, rest := JoinWords(ws), ws[0], JoinWords(ws[1..]);
      assert j == w + " " + rest;
      forall i | 0 <= i < |j| && IsSpace(j[i])
        ensures j[i] == ' ' && 0 < i < |j| - 1 && !IsSpace(j[i + 1])
      {
        if i > |w| {
          assert j[i] == rest[i - |w| - 1];
          assert j[i + 1] == rest[i - |w|];
        } else if i == |w| {
          assert j[i + 1] == rest[0];
        }
      }
      assert j[0] == w[0];
      assert j[|j| - 1] == rest[|rest| - 1];
    }
  }

  /** The non-whitespace characters of a text, in order. */
  function NonSpace(s: string): string
  {
    if s == [] then [] else (if IsSpace(s[0]) then [] else [s[0]]) + NonSpace(s[1..])
  }

  lemma {:induction false} NonSpaceAppend(a: string, b: string)
    ensures NonSpace(a + b) == NonSpace(a) + NonSpace(b)
  {
    if a == [] {
      assert a + b == b;
    } else {
      assert (a + b)[0] == a[0] && (a + b)[1..] == a[1..] + b;
      NonSpaceAppend(a[1..], b);
    }
  }

  lemma {:induction false} NonSpaceWord(w: string)
    requires NoSpace(w)
    ensures NonSpace(w) == w
  {
    if w != [] {
      NonSpaceWord(w[1..]);
    }
  }

  lemma {:induction false} NonSpaceBlank(w: string)
    requires AllSpace(w)
    ensures NonSpace(w) == []
  {
    if w != [] {
      NonSpaceBlank(w[1..]);
    }
  }

  /** The words hold exactly the non-whitespace characters, in order. */
  lemma {:induction false} WordsKeepText(s: string)
    ensures NonSpace(s) == Concat(Words(s))
    decreases |s|
  {
    var t := LStrip(s);
    LStripSuffix(s);
    var p := s[..|s| - |t|];
    assert s == p + t;
    NonSpaceAppend(p, t);
    NonSpaceBlank(p);
    if t != [] {
      var w := TakeWord(t);
      var rest := t[|w|..];
      assert t == w + rest;
      NonSpaceAppend(w, rest);
      NonSpaceWord(w);
      WordsKeepText(rest);
    }
  }

  function Concat(ws: seq<string>): string
  {
    if ws == [] then [] else ws[0] + Concat(ws[1..])
  }

  lemma {:induction false} JoinWordsText(ws: seq<string>)
    requires forall i :: 0 <= i < |ws| ==> NoSpace(ws[i])
    ensures NonSpace(JoinWords(ws)) == Concat(ws)
  {
    if |ws| == 1 {
      NonSpaceWord(ws[0]);
      assert Concat(ws) == ws[0] + [];
    } else if |ws| > 1 {
      JoinWordsText(ws[1..]);
      NonSpaceAppend(ws[0] + " ", JoinWords(ws[1..]));
      NonSpaceAppend(ws[0], " ");
      NonSpaceWord(ws[0]);
    }
  }

  /** `flatten_text` keeps every non-whitespace character, unchanged and in order. */
  lemma FlattenKeepsText(s: string)
    ensures NonSpace(FlattenText(s)) == NonSpace(s)
  {
    FlattenTextSpec(s);
    WordsShape(s);
    JoinWordsText(Words(s));
    WordsKeepText(s);
  }

  /** `'\n\tAbC\n'` flattens to `'AbC'`. */
  lemma FlattenExample()
    ensures FlattenText("\n\tAbC\n") == "AbC"
  {
    var s := "\n\tAbC\n";
    assert LStrip(s) == LStrip("\tAbC\n") == LStrip("AbC\n") == "AbC\n";
    assert RStrip("AbC\n") == RStrip("AbC") == "AbC";
    assert Collapse("AbC") == "A" + Collapse("bC") == "Ab" + Collapse("C");
  }
}
