/** src/pysimple/io.py: option defaulting, `.gz` detection, `suffix_filename` on pathlib
    paths, the `Serializable` shared-attribute protocol and `dump_pickle`'s skip fields. */
module SrcIo {
  import opened Py
  import opened Strings
  import opened Options
  import opened Sugar

  /** `NAN_IDENTIFIER` */
  const NanIdentifier: string := "NA"

  // ---------------------------------------------------------------------------
  // Compression and option defaults

  /** `str(filepath).endswith('.gz')`: `load_pickle`, `dump_pickle`, `from_tsv` and `to_tsv`
      decide on gzip with this test alone. */
  predicate Compressed(path: string)
  {
    EndsWith(path, ".gz")
  }

  /** Gzip is chosen exactly for the names `<anything>.gz`. */
  lemma CompressedIff(path: string, stem: string)
    ensures Compressed(path) <==> |path| >= 3 && path == path[..|path| - 3] + ".gz"
    ensures Compressed(stem + ".gz")
    ensures path != [] && path[|path| - 1] != 'z' ==> !Compressed(path)
  {
    EndsWithConcat(stem, ".gz");
    if |path| >= 3 && path == path[..|path| - 3] + ".gz" {
      assert path[|path| - 3..] == ".gz";
    }
  }

  /** The `setdefault` call that `to_tsv` and `from_tsv` add for a `.gz` path. */
  function GzipDefault(path: string): seq<Default>
  {
    if Compressed(path) then [("compression", PyStr("gzip"))] else []
  }

  /** The unconditional `setdefault` calls of `to_tsv`, in order. */
  function ToTsvBase(): seq<Default>
  {
    [("sep", PyStr("\t")), ("na_rep", PyStr(NanIdentifier)), ("encoding", PyStr("utf-8")),
     ("index", PyBool(false))]
  }

  /** The unconditional `setdefault` calls of `from_tsv`, in order. */
  function FromTsvBase(): seq<Default>
  {
    [("sep", PyStr("\t")), ("na_values", PyStr(NanIdentifier)), ("keep_default_na", PyBool(false)),
     ("dtype", PyBuiltin("object"))]
  }

  /** The `setdefault` calls of `to_tsv`, in order. */
  function ToTsvDefaults(path: string): seq<Default>
  {
    ToTsvBase() + GzipDefault(path)
  }

  /** The `setdefault` calls of `from_tsv`, in order. */
  function FromTsvDefaults(path: string): seq<Default>
  {
    FromTsvBase() + GzipDefault(path)
  }

  /** `to_tsv`'s defaulting of `**kwargs`; the `.gz` test reads the plain path of `filepath`,
      which the working directory `cwd` completes. */
  method ToTsvOptions(cwd: string, filepath: string, kwargs: KwArgsDict)
    modifies kwargs
    ensures kwargs.items == Defaulted(old(kwargs.items), ToTsvDefaults(Str(PlainPath(cwd, filepath))))
  {
    var path := Str(PlainPath(cwd, filepath));
    kwargs.SetDefaults(ToTsvBase());
    if Compressed(path) {
      kwargs.SetDefaults([("compression", PyStr("gzip"))]);
    }
    DefaultedAppend(old(kwargs.items), ToTsvBase(), GzipDefault(path));
  }

  /** `from_tsv`'s defaulting of `**kwargs`; the `.gz` test reads the plain path of `filepath`,
      which the working directory `cwd` completes. */
  method FromTsvOptions(cwd: string, filepath: string, kwargs: KwArgsDict)
    modifies kwargs
    ensures kwargs.items == Defaulted(old(kwargs.items), FromTsvDefaults(Str(PlainPath(cwd, filepath))))
  {
    var path := Str(PlainPath(cwd, filepath));
    kwargs.SetDefaults(FromTsvBase());
    if Compressed(path) {
      kwargs.SetDefaults([("compression", PyStr("gzip"))]);
    }
    DefaultedAppend(old(kwargs.items), FromTsvBase(), GzipDefault(path));
  }

  /** `to_tsv` keeps every caller option, writes tab-separated with `NA` for missing values,
      without the index, in UTF-8, and gzips exactly when the name ends in `.gz`. */
  lemma ToTsvOptionsSpec(kwargs: KwArgs, path: string)
    ensures var r := Defaulted(kwargs, ToTsvDefaults(path));
      && (forall k :: k in kwargs ==> k in r && r[k] == kwargs[k])
      && r.Keys == kwargs.Keys + {"sep", "na_rep", "encoding", "index"} + (if Compressed(path) then {"compression"} else {})
      && r["sep"] == (if "sep" in kwargs then kwargs["sep"] else PyStr("\t"))
      && r["na_rep"] == (if "na_rep" in kwargs then kwargs["na_rep"] else PyStr("NA"))
      && r["encoding"] == (if "encoding" in kwargs then kwargs["encoding"] else PyStr("utf-8"))
      && r["index"] == (if "index" in kwargs then kwargs["index"] else PyBool(false))
      && ("compression" !in kwargs && Compressed(path) ==> r["compression"] == PyStr("gzip"))
  {
    DefaultedSpec(kwargs, ToTsvDefaults(path));
    DefaultedKeys(kwargs, ToTsvDefaults(path));
    ToTsvDefaultsTable(path);
  }

  lemma ToTsvDefaultsTable(path: string)
    ensures var ds := ToTsvDefaults(path);
      && Names(ds) == {"sep", "na_rep", "encoding", "index"} + (if Compressed(path) then {"compression"} else {})
      && FirstDefault(ds, "sep") == Some(PyStr("\t"))
      && FirstDefault(ds, "na_rep") == Some(PyStr("NA"))
      && FirstDefault(ds, "encoding") == Some(PyStr("utf-8"))
      && FirstDefault(ds, "index") == Some(PyBool(false))
      && (Compressed(path) ==> FirstDefault(ds, "compression") == Some(PyStr("gzip")))
  {
    var ds := ToTsvDefaults(path);
    NamesAppend(ToTsvBase(), GzipDefault(path));
    assert ToTsvBase()[1..][1..][1..][1..] == [];
    assert Names(ToTsvBase()) == {"sep", "na_rep", "encoding", "index"};
    FirstDefaultAt(ds, "sep", 0);
    FirstDefaultAt(ds, "na_rep", 1);
    FirstDefaultAt(ds, "encoding", 2);
    FirstDefaultAt(ds, "index", 3);
    if Compressed(path) {
      assert [("compression", PyStr("gzip"))][1..] == [];
      FirstDefaultAt(ds, "compression", 4);
    }
  }

  /** `from_tsv` keeps every caller option, reads tab-separated text, takes only `NA` as
      missing, keeps every column as `object`, and gunzips exactly when the name ends in `.gz`. */
  lemma FromTsvOptionsSpec(kwargs: KwArgs, path: string)
    ensures var r := Defaulted(kwargs, FromTsvDefaults(path));
      && (forall k :: k in kwargs ==> k in r && r[k] == kwargs[k])
      && r.Keys == kwargs.Keys + {"sep", "na_values", "keep_default_na", "dtype"} + (if Compressed(path) then {"compression"} else {})
      && r["sep"] == (if "sep" in kwargs then kwargs["sep"] else PyStr("\t"))
      && r["na_values"] == (if "na_values" in kwargs then kwargs["na_values"] else PyStr("NA"))
      && r["keep_default_na"] == (if "keep_default_na" in kwargs then kwargs["keep_default_na"] else PyBool(false))
      && r["dtype"] == (if "dtype" in kwargs then kwargs["dtype"] else PyBuiltin("object"))
      && ("compression" !in kwargs && Compressed(path) ==> r["compression"] == PyStr("gzip"))
  {
    DefaultedSpec(kwargs, FromTsvDefaults(path));
    DefaultedKeys(kwargs, FromTsvDefaults(path));
    FromTsvDefaultsTable(path);
  }

  lemma FromTsvDefaultsTable(path: string)
    ensures var ds := FromTsvDefaults(path);
      && Names(ds) == {"sep", "na_values", "keep_default_na", "dtype"} + (if Compressed(path) then {"compression"} else {})
      && FirstDefault(ds, "sep") == Some(PyStr("\t"))
      && FirstDefault(ds, "na_values") == Some(PyStr("NA"))
      && FirstDefault(ds, "keep_default_na") == Some(PyBool(false))
      && FirstDefault(ds, "dtype") == Some(PyBuiltin("object"))
      && (Compressed(path) ==> FirstDefault(ds, "compression") == Some(PyStr("gzip")))
  {
    var ds := FromTsvDefaults(path);
    NamesAppend(FromTsvBase(), GzipDefault(path));
    assert FromTsvBase()[1..][1..][1..][1..] == [];
    assert Names(FromTsvBase()) == {"sep", "na_values", "keep_default_na", "dtype"};
    FirstDefaultAt(ds, "sep", 0);
    FirstDefaultAt(ds, "na_values", 1);
    FirstDefaultAt(ds, "keep_default_na", 2);
    FirstDefaultAt(ds, "dtype", 3);
    if Compressed(path) {
      assert [("compression", PyStr("gzip"))][1..] == [];
      FirstDefaultAt(ds, "compression", 4);
    }
  }

  /** The `setdefault` calls of `read_lines` and `write_lines`: text mode, UTF-8. */
  function LinesDefaults(mode: string): seq<Default>
  {
    [("mode", PyStr(mode)), ("encoding", PyStr("utf-8"))]
  }

  /** The `setdefault` calls of `to_json`. */
  function ToJsonDefaults(): seq<Default>
  {
    [("indent", PyInt(4)), ("ensure_ascii", PyBool(false))]
  }

  /** A caller's `mode` or `encoding` reaches `open` unchanged; otherwise the helper's own. */
  lemma LinesDefaultsSpec(kwargs: KwArgs, mode: string)
    ensures var r := Defaulted(kwargs, LinesDefaults(mode));
      && (forall k :: k in kwargs ==> k in r && r[k] == kwargs[k])
      && "mode" in r && "encoding" in r
      && r["mode"] == (if "mode" in kwargs then kwargs["mode"] else PyStr(mode))
      && r["encoding"] == (if "encoding" in kwargs then kwargs["encoding"] else PyStr("utf-8"))
      && r.Keys == kwargs.Keys + {"mode", "encoding"}
  {
    DefaultedSpec(kwargs, LinesDefaults(mode));
    FirstDefaultAt(LinesDefaults(mode), "mode", 0);
    FirstDefaultAt(LinesDefaults(mode), "encoding", 1);
  }

  /** `to_json` pretty-prints with indent 4 and keeps non-ASCII text, unless told otherwise. */
  lemma ToJsonDefaultsSpec(kwargs: KwArgs)
    ensures var r := Defaulted(kwargs, ToJsonDefaults());
      && (forall k :: k in kwargs ==> k in r && r[k] == kwargs[k])
      && "indent" in r && "ensure_ascii" in r
      && r["indent"] == (if "indent" in kwargs then kwargs["indent"] else PyInt(4))
      && r["ensure_ascii"] == (if "ensure_ascii" in kwargs then kwargs["ensure_ascii"] else PyBool(false))
  {
    DefaultedSpec(kwargs, ToJsonDefaults());
    FirstDefaultAt(ToJsonDefaults(), "indent", 0);
    FirstDefaultAt(ToJsonDefaults(), "ensure_ascii", 1);
  }

  // ---------------------------------------------------------------------------
  // pathlib paths (POSIX, Python 3.12 and 3.13) and suffix_filename

  /** A component as pathlib keeps it: not empty, not `.`, without `/`. */
  predicate Component(c: string)
  {
    c != "" && c != "." && '/' !in c
  }

  /** A POSIX path as pathlib holds it: the root (`""`, `"/"`, or `"//"` for exactly two
      leading slashes) and the components. */
  datatype PurePath = PurePath(root: string, parts: seq<string>)

  predicate WellFormed(p: PurePath)
  {
    && (p.root == "" || p.root == "/" || p.root == "//")
    && forall i :: 0 <= i < |p.parts| ==> Component(p.parts[i])
  }

  /** The root `Path(s)` keeps: two leading slashes stay two, one or three and more become one. */
  function RootOf(s: string): string
  {
    if |s| >= 2 && s[0] == '/' && s[1] == '/' && (|s| == 2 || s[2] != '/') then "//"
    else if |s| >= 1 && s[0] == '/' then "/"
    else ""
  }

  /** The pieces between slashes that `Path(s)` keeps: empty pieces (from leading, repeated or
      trailing slashes) and `.` are dropped, the others kept in order. */
  function Kept(pieces: seq<string>): (r: seq<string>)
    ensures forall i :: 0 <= i < |r| ==> r[i] in pieces && r[i] != "" && r[i] != "."
    ensures forall c :: c in pieces && c != "" && c != "." ==> c in r
  {
    if pieces == [] then []
    else if pieces[0] == "" || pieces[0] == "." then Kept(pieces[1..])
    else [pieces[0]] + Kept(pieces[1..])
  }

  /** `Path(s)` */
  function Parse(s: string): (p: PurePath)
    ensures WellFormed(p)
  {
    var pieces := Split(s, '/');
    var parts := Kept(pieces);
    assert forall i :: 0 <= i < |parts| ==> '/' !in parts[i] by {
      forall i | 0 <= i < |parts| ensures '/' !in parts[i] {
        var j :| 0 <= j < |pieces| && pieces[j] == parts[i];
      }
    }
    PurePath(RootOf(s), parts)
  }

  /** The pieces between slashes of the string of a path: one empty piece per slash of the
      root, then the components, or `.` for the empty relative path. */
  function Pieces(p: PurePath): (r: seq<string>)
    ensures |r| >= 1
  {
    var tail := if p.parts == [] then [""] else p.parts;
    if p.root == "" then (if p.parts == [] then ["."] else p.parts)
    else if p.root == "/" then [""] + tail
    else ["", ""] + tail
  }

  /** `str(p)` */
  function Str(p: PurePath): string
  {
    Join(Pieces(p), '/')
  }

  /** `plain_path(path)`, that is `Path(path).expanduser().absolute()`, where `cwd` is what
      `os.getcwd()` returns: a path without a root continues the working directory. */
  function PlainPath(cwd: string, path: string): (p: PurePath)
    ensures WellFormed(p)
    ensures RootOf(path) != "" ==> p == Parse(path)
  {
    var q := Parse(path);
    if q.root != "" then q
    else
      var c := Parse(cwd);
      PurePath(c.root, c.parts + q.parts)
  }

  /** Components need no filtering. */
  lemma {:induction false} KeptComponents(parts: seq<string>)
    requires forall i :: 0 <= i < |parts| ==> Component(parts[i])
    ensures Kept(parts) == parts
  {
    if parts != [] {
      KeptComponents(parts[1..]);
    }
  }

  /** An empty piece in front is dropped. */
  lemma KeptSkip(pieces: seq<string>)
    ensures Kept([""] + pieces) == Kept(pieces)
  {
    assert ([""] + pieces)[1..] == pieces;
  }

  /** The string of a path starts with its root and no further slash. */
  lemma RootOfStr(p: PurePath)
    requires WellFormed(p)
    ensures RootOf(Str(p)) == p.root
  {
    var r := Pieces(p);
    var s := Str(p);
    if p.root == "" {
      assert r[0] != "" && '/' !in r[0];
      assert s[0] == r[0][0];
    } else {
      var rest := r[1..];
      assert s == "" + ['/'] + Join(rest, '/');
      if p.root == "//" {
        var t := Join(rest[1..], '/');
        assert Join(rest, '/') == "" + ['/'] + t;
        assert t == "" || t[0] != '/' by {
          if p.parts != [] {
            assert rest[1..][0] == p.parts[0] && p.parts[0] != "";
            assert t[0] == p.parts[0][0];
          }
        }
      } else if p.parts != [] {
        assert rest[0] == p.parts[0] && p.parts[0] != "";
        assert Join(rest, '/')[0] == p.parts[0][0];
      }
    }
  }

  /** Reading back the string of a path gives the same path: `Path(str(p)) == p`. */
  lemma ParseStr(p: PurePath)
    requires WellFormed(p)
    ensures Parse(Str(p)) == p
  {
    var r := Pieces(p);
    assert forall i :: 0 <= i < |r| ==> '/' !in r[i];
    SplitJoin(r, '/');
    RootOfStr(p);
    KeptComponents(p.parts);
    if p.root == "/" {
      assert r == [""] + r[1..];
      KeptSkip(r[1..]);
    } else if p.root == "//" {
      assert r == [""] + ([""] + r[2..]);
      KeptSkip([""] + r[2..]);
      KeptSkip(r[2..]);
    }
  }

  /** Normalising a normalised path changes nothing. */
  lemma ParseIdempotent(s: string)
    ensures Parse(Str(Parse(s))) == Parse(s)
  {
    ParseStr(Parse(s));
  }

  /** `Path(s)` for a string given as its pieces between slashes. */
  lemma ParsePieces(s: string, pieces: seq<string>)
    requires |pieces| >= 1 && forall i :: 0 <= i < |pieces| ==> '/' !in pieces[i]
    requires Join(pieces, '/') == s
    ensures Parse(s) == PurePath(RootOf(s), Kept(pieces))
  {
    SplitJoin(pieces, '/');
  }

  /** `p.name`: the last component, or `""` when there is none. */
  function Name(p: PurePath): string
  {
    if p.parts == [] then "" else p.parts[|p.parts| - 1]
  }

  /** `path.suffix`: from the last dot of the name, when that dot is neither its first
      nor its last character. */
  function Suffix(name: string): (r: string)
    ensures r == [] || (r[0] == '.' && '.' !in r[1..])
    ensures |r| <= |name| && name[|name| - |r|..] == r
    ensures r != [] ==> |r| < |name| && |r| >= 2
  {
    var i := LastIndex(name, '.');
    if 0 < i < |name| - 1 then name[i..] else []
  }

  /** A name has no extension exactly when each of its dots other than the first and the last
      character has another dot after it. */
  lemma SuffixNone(name: string)
    ensures Suffix(name) == [] <==>
      forall i :: 0 < i < |name| - 1 && name[i] == '.' ==> '.' in name[i + 1..]
  {
    var l := LastIndex(name, '.');
    if Suffix(name) == [] {
      forall i | 0 < i < |name| - 1 && name[i] == '.'
        ensures '.' in name[i + 1..]
      {
        assert name[i + 1..][l - i - 1] == name[l];
      }
    } else {
      assert 0 < l < |name| - 1 && name[l] == '.';
      var t := name[l + 1..];
      forall k | 0 <= k < |t| ensures t[k] != '.' {
        assert t[k] == name[l + 1 + k];
      }
    }
  }

  /** `path.stem` */
  function Stem(name: string): string
    requires |Suffix(name)| <= |name|
  {
    name[..|name| - |Suffix(name)|]
  }

  /** `path.with_name(name)`: replace the last component, refusing a path without a name and a
      new name that is empty, `.` or holds a `/`. */
  function WithName(p: PurePath, name: string): Result<PurePath>
  {
    if Name(p) == [] || name == [] || name == "." || '/' in name then Err(ValueError)
    else Ok(PurePath(p.root, p.parts[..|p.parts| - 1] + [name]))
  }

  /** The new name `suffix_filename` asks for: stem, suffix, extension. */
  function NewName(name: string, suffix: string): string
  {
    Stem(name) + suffix + Suffix(name)
  }

  /** `suffix_filename(path, suffix)`, as the string of the path it returns. */
  function SuffixFilename(cwd: string, path: string, suffix: string): Result<string>
  {
    var p := PlainPath(cwd, path);
    var q :- WithName(p, NewName(Name(p), suffix));
    Ok(Str(q))
  }

  /** A nonempty name without `/` splits into a nonempty stem and an extension, neither
      holding a `/`. */
  lemma NameParts(name: string)
    requires name != [] && '/' !in name
    ensures Stem(name) != [] && Stem(name) + Suffix(name) == name
    ensures '/' !in Stem(name) && '/' !in Suffix(name)
  {
    var stem, ext := Stem(name), Suffix(name);
    assert stem == name[..|stem|] && ext == name[|stem|..];
    forall i | 0 <= i < |stem| ensures stem[i] != '/' {
      assert stem[i] == name[i];
    }
    forall i | 0 <= i < |ext| ensures ext[i] != '/' {
      assert ext[i] == name[|stem| + i];
    }
  }

  /** A nonempty name has a nonempty stem, the new name holds a `/` exactly when the
      suffix does, and it is `.` only when the name already was. */
  lemma NewNameParts(name: string, suffix: string)
    requires name != [] && '/' !in name
    ensures Stem(name) != []
    ensures '/' in NewName(name, suffix) <==> '/' in suffix
    ensures NewName(name, suffix) == "." ==> name == "."
  {
    NameParts(name);
    var stem, ext := Stem(name), Suffix(name);
    var n := stem + suffix + ext;
    if |n| == 1 {
      assert |stem| == 1 && suffix == [] && ext == [];
      assert n == stem + ext;
    }
    if '/' in n {
      var k :| 0 <= k < |n| && n[k] == '/';
      if |stem| <= k < |stem| + |suffix| {
        assert suffix[k - |stem|] == '/';
      }
    }
    if '/' in suffix {
      var k :| 0 <= k < |suffix| && suffix[k] == '/';
      assert n[|stem| + k] == '/';
    }
  }

  /** On the plain path: ValueError exactly when it has no name or the suffix holds a `/`
      (the new name is never `.`); otherwise the returned path, read back, keeps the root and every
      component but the last, whose place the new name takes. */
  lemma SuffixFilenameSpec(cwd: string, path: string, suffix: string)
    ensures var p := PlainPath(cwd, path);
      SuffixFilename(cwd, path, suffix).Err? <==>
        p.parts == [] || '/' in suffix
    ensures SuffixFilename(cwd, path, suffix).Err? ==> SuffixFilename(cwd, path, suffix).error == ValueError
    ensures SuffixFilename(cwd, path, suffix).Ok? ==>
      var p := PlainPath(cwd, path);
      var q := Parse(SuffixFilename(cwd, path, suffix).value);
      && q.root == p.root
      && |q.parts| == |p.parts|
      && q.parts[..|q.parts| - 1] == p.parts[..|p.parts| - 1]
      && Name(q) == NewName(Name(p), suffix)
  {
    var p := PlainPath(cwd, path);
    var r := SuffixFilename(cwd, path, suffix);
    if p.parts == [] {
      assert WithName(p, NewName(Name(p), suffix)) == Err(ValueError);
    } else {
      var name := Name(p);
      var init := p.parts[..|p.parts| - 1];
      InitLast(p.parts);
      assert Component(name);
      NewNameParts(name, suffix);
      var n := NewName(name, suffix);
      assert n != [];
      if '/' in suffix {
        assert WithName(p, n) == Err(ValueError);
      } else {
        SuffixFilenameOk(cwd, path, suffix, p.root, init, name);
        var q := PurePath(p.root, init + [n]);
        RenamedWellFormed(p, n);
        ParseStr(q);
      }
    }
  }

  /** A nonempty run of components is the ones before the last, then the last. */
  lemma InitLast(parts: seq<string>)
    requires parts != []
    ensures parts == parts[..|parts| - 1] + [parts[|parts| - 1]]
  {
  }

  /** Putting a component in place of the last one keeps a path well formed. */
  lemma RenamedWellFormed(p: PurePath, n: string)
    requires WellFormed(p) && p.parts != [] && Component(n)
    ensures WellFormed(PurePath(p.root, p.parts[..|p.parts| - 1] + [n]))
  {
    var parts := p.parts[..|p.parts| - 1] + [n];
    forall i | 0 <= i < |parts| ensures Component(parts[i]) {
      if i < |p.parts| - 1 {
        assert parts[i] == p.parts[i];
      }
    }
  }

  /** With an empty suffix the plain path comes back. */
  lemma SuffixFilenameEmpty(cwd: string, path: string)
    requires PlainPath(cwd, path).parts != []
    ensures SuffixFilename(cwd, path, "") == Ok(Str(PlainPath(cwd, path)))
  {
    var p := PlainPath(cwd, path);
    var name := Name(p);
    var init := p.parts[..|p.parts| - 1];
    InitLast(p.parts);
    assert Component(name);
    NameParts(name);
    assert NewName(name, "") == name;
    SuffixFilenameOk(cwd, path, "", p.root, init, name);
  }

  /** Filtering a concatenation filters each half. */
  lemma {:induction false} KeptAppend(a: seq<string>, b: seq<string>)
    ensures Kept(a + b) == Kept(a) + Kept(b)
  {
    if a != [] {
      KeptAppend(a[1..], b);
      assert (a + b)[0] == a[0] && (a + b)[1..] == a[1..] + b;
      if a[0] == "" || a[0] == "." {
        assert Kept(a + b) == Kept(a[1..] + b);
        assert Kept(a) == Kept(a[1..]);
      } else {
        assert Kept(a + b) == [a[0]] + Kept(a[1..] + b);
        assert Kept(a) == [a[0]] + Kept(a[1..]);
      }
    } else {
      assert a + b == b;
    }
  }

  /** A path with a character other than `/` keeps its root when more follows after a `/`. */
  lemma RootOfExtend(s: string, t: string)
    requires exists i :: 0 <= i < |s| && s[i] != '/'
    ensures RootOf(s + "/" + t) == RootOf(s)
  {
    var u := s + "/" + t;
    assert forall k :: 0 <= k < |s| ==> u[k] == s[k];
    assert u[|s|] == '/';
  }

  /** Joining with `/` appends the components of the second path to those of the first. */
  lemma ParseExtend(s: string, t: string)
    requires exists i :: 0 <= i < |s| && s[i] != '/'
    ensures Parse(s + "/" + t) == PurePath(Parse(s).root, Parse(s).parts + Parse(t).parts)
  {
    RootOfExtend(s, t);
    SplitAppend(s, '/', t);
    KeptAppend(Split(s, '/'), Split(t, '/'));
  }

  /** A `/` followed by nothing but empty and `.` pieces adds no component. */
  lemma ParseDropsTail(s: string, t: string)
    requires exists i :: 0 <= i < |s| && s[i] != '/'
    requires Parse(t).parts == []
    ensures Parse(s + "/" + t) == Parse(s)
  {
    ParseExtend(s, t);
  }

  /** `Path` drops a trailing `/`. */
  lemma ParseTrailingSlash(s: string)
    requires exists i :: 0 <= i < |s| && s[i] != '/'
    ensures Parse(s + "/") == Parse(s)
  {
    ParseDropsTail(s, "");
    assert s + "/" + "" == s + "/";
  }

  /** `Path` drops a trailing `/.`. */
  lemma ParseTrailingDot(s: string)
    requires exists i :: 0 <= i < |s| && s[i] != '/'
    ensures Parse(s + "/.") == Parse(s)
  {
    SplitNoSep(".", '/');
    ParseDropsTail(s, ".");
    assert s + "/" + "." == s + "/.";
  }

  /** `Path` reads a repeated `/` as one. */
  lemma ParseRepeatedSlash(s: string, t: string)
    requires exists i :: 0 <= i < |s| && s[i] != '/'
    ensures Parse(s + "//" + t) == Parse(s + "/" + t)
  {
    SplitConcat("", '/', t);
    assert "" + ['/'] + t == "/" + t;
    KeptSkip(Split(t, '/'));
    ParseExtend(s, "/" + t);
    assert s + "/" + ("/" + t) == s + "//" + t;
    ParseExtend(s, t);
  }

  /** `suffix_filename` works on the plain path, so a trailing `/` or `/.` and repeated
      slashes in the path it is given make no difference. */
  lemma SuffixFilenameNormalizes(cwd: string, path: string, t: string, suffix: string)
    requires exists i :: 0 <= i < |path| && path[i] != '/'
    ensures SuffixFilename(cwd, path + "/", suffix) == SuffixFilename(cwd, path, suffix)
    ensures SuffixFilename(cwd, path + "/.", suffix) == SuffixFilename(cwd, path, suffix)
    ensures SuffixFilename(cwd, path + "//" + t, suffix) == SuffixFilename(cwd, path + "/" + t, suffix)
  {
    ParseTrailingSlash(path);
    ParseTrailingDot(path);
    ParseRepeatedSlash(path, t);
    assert PlainPath(cwd, path + "/") == PlainPath(cwd, path);
    assert PlainPath(cwd, path + "/.") == PlainPath(cwd, path);
    assert PlainPath(cwd, path + "//" + t) == PlainPath(cwd, path + "/" + t);
  }

  /** The `.gz` test sees the plain path: a path given with a trailing `/` never ends in `.gz`
      as given, yet it is compressed exactly when the path without the `/` is. */
  lemma CompressedPlainPath(cwd: string, path: string)
    requires exists i :: 0 <= i < |path| && path[i] != '/'
    ensures !Compressed(path + "/")
    ensures Compressed(Str(PlainPath(cwd, path + "/"))) == Compressed(Str(PlainPath(cwd, path)))
  {
    ParseTrailingSlash(path);
    var u := path + "/";
    assert u[|u| - 1] == '/';
    if |u| >= 3 {
      assert u[|u| - 3..][2] == '/';
    }
  }

  /** The string `suffix_filename` returns, when it returns one. */
  lemma SuffixFilenameOk(cwd: string, path: string, suffix: string, root: string, init: seq<string>, name: string)
    requires PlainPath(cwd, path) == PurePath(root, init + [name])
    requires '/' !in suffix
    ensures SuffixFilename(cwd, path, suffix) == Ok(Str(PurePath(root, init + [NewName(name, suffix)])))
  {
    var p := PlainPath(cwd, path);
    assert Name(p) == name && p.parts[..|p.parts| - 1] == init;
    assert Component(name);
    NewNameParts(name, suffix);
  }

  /** A relative path continues the working directory: its plain path reads as the working
      directory, a `/`, and the path, each normalised. */
  lemma PlainPathRelative(cwd: string, path: string)
    requires RootOf(cwd) != "" && Parse(cwd).parts != []
    requires RootOf(path) == "" && Parse(path).parts != []
    ensures Str(PlainPath(cwd, path)) == Str(Parse(cwd)) + "/" + Str(Parse(path))
  {
    var c, q := Parse(cwd), Parse(path);
    assert Pieces(PlainPath(cwd, path)) == Pieces(c) + q.parts;
    JoinAppend(Pieces(c), q.parts, '/');
  }

  // ---------------------------------------------------------------------------
  // Serializable

  /** The registry entry for `id`: `__SHARED__[id]` of a `defaultdict(dict)`. */
  function Shared(table: map<PyValue, Attrs>, id: PyValue): (r: Attrs)
    ensures id !in table ==> r == map[]
  {
    if id in table then table[id] else map[]
  }

  /** The registry after a read of `__SHARED__[id]`: a missing entry is created empty. */
  function Touched(table: map<PyValue, Attrs>, id: PyValue): (r: map<PyValue, Attrs>)
    ensures id in r && r[id] == Shared(table, id)
    ensures forall k :: k != id ==> (k in r <==> k in table) && (k in table ==> r[k] == table[k])
  {
    if id in table then table else table[id := map[]]
  }

  /** `__SHARED__[id].update(shared)` */
  function Register(table: map<PyValue, Attrs>, id: PyValue, shared: Attrs): map<PyValue, Attrs>
  {
    table[id := Shared(table, id) + shared]
  }

  /** Registration adds or overwrites entries for its own id and never removes any;
      other ids are untouched. */
  lemma RegisterGrows(table: map<PyValue, Attrs>, id: PyValue, shared: Attrs)
    ensures var r := Register(table, id, shared);
      && Shared(r, id).Keys == Shared(table, id).Keys + shared.Keys
      && (forall k :: k in shared ==> Shared(r, id)[k] == shared[k])
      && (forall k :: k in Shared(table, id) && k !in shared ==> Shared(r, id)[k] == Shared(table, id)[k])
      && (forall o :: o != id ==> Shared(r, o) == Shared(table, o))
  {
  }

  /** `__getstate__` on an attribute dict: a copy without the registered keys. */
  function GetState(dict: Attrs, table: map<PyValue, Attrs>): Result<Attrs>
  {
    if "id_" !in dict then Err(AttributeError)
    else
      var keys := Shared(table, dict["id_"]).Keys;
      if keys <= dict.Keys then Ok(dict - keys) else Err(KeyError)
  }

  /** `__setstate__` on an attribute dict: the state's entries, then the registered ones. */
  function SetState(dict: Attrs, state: Attrs, table: map<PyValue, Attrs>): Result<Attrs>
  {
    var d := dict + state;
    if "id_" !in d then Err(AttributeError)
    else Ok(d + Shared(table, d["id_"]))
  }

  /** `__getstate__` leaves out exactly the shared keys and fails only for a missing `id_`
      (AttributeError) or a shared key the object does not hold (KeyError). */
  lemma GetStateSpec(dict: Attrs, table: map<PyValue, Attrs>)
    ensures "id_" !in dict ==> GetState(dict, table) == Err(AttributeError)
    ensures "id_" in dict ==> var keys := Shared(table, dict["id_"]).Keys;
      && (GetState(dict, table).Ok? <==> keys <= dict.Keys)
      && (GetState(dict, table).Err? ==> GetState(dict, table).error == KeyError)
      && (GetState(dict, table).Ok? ==>
            (forall k :: k in GetState(dict, table).value <==> k in dict && k !in keys)
            && (forall k :: k in GetState(dict, table).value ==> GetState(dict, table).value[k] == dict[k]))
  {
  }

  /** Pickling and unpickling in the same process gives back the attribute dict, provided
      `id_` is not itself shared and the shared values are still the object's own. */
  lemma {:induction false} StateRoundTrip(dict: Attrs, table: map<PyValue, Attrs>)
    requires GetState(dict, table).Ok?
    requires "id_" !in Shared(table, dict["id_"])
    requires forall k :: k in Shared(table, dict["id_"]) ==> Shared(table, dict["id_"])[k] == dict[k]
    ensures SetState(map[], GetState(dict, table).value, table) == Ok(dict)
  {
    var shared := Shared(table, dict["id_"]);
    var state := GetState(dict, table).value;
    assert map[] + state == state;
    assert state["id_"] == dict["id_"];
    assert state + shared == dict;
  }

  /** Unpickled where the registry has no entry (another process), the shared attributes
      are simply missing. */
  lemma StateElsewhere(dict: Attrs, table: map<PyValue, Attrs>)
    requires GetState(dict, table).Ok?
    requires "id_" !in Shared(table, dict["id_"])
    ensures SetState(map[], GetState(dict, table).value, map[]) == GetState(dict, table)
  {
    var state := GetState(dict, table).value;
    assert map[] + state == state;
    assert state + map[] == state;
  }

  /** `__SHARED__`: the process-wide registry of unpicklable attributes, by `id_`. */
  class SharedRegistry {
    var table: map<PyValue, Attrs>

    constructor ()
      ensures table == map[]
    {
      table := map[];
    }
  }

  /** An instance of a `Serializable` subclass: its `__dict__`. */
  class Serializable {
    var dict: Attrs

    /** `Serializable.__init__(shared)`: store `id(self)` as `id_` and register `shared` under it. */
    constructor (registry: SharedRegistry, attrs: Attrs, id: ObjId, shared: Attrs)
      modifies registry
      ensures dict == attrs["id_" := PyInt(id)]
      ensures registry.table == Register(old(registry.table), PyInt(id), shared)
    {
      dict := attrs["id_" := PyInt(id)];
      registry.table := registry.table[PyInt(id) := Shared(registry.table, PyInt(id)) + shared];
    }

    /** `__getstate__`: copy the dict, then delete each registered key from the copy. */
    method GetStateOf(registry: SharedRegistry) returns (r: Result<Attrs>)
      modifies registry
      ensures r == GetState(dict, old(registry.table))
      ensures registry.table == if "id_" in dict then Touched(old(registry.table), dict["id_"]) else old(registry.table)
    {
      if "id_" !in dict {
        return Err(AttributeError);
      }
      var id := dict["id_"];
      registry.table := Touched(registry.table, id);
      var all := registry.table[id].Keys;
      var keys := all;
      var state := dict;
      while keys != {}
        invariant keys <= all
        invariant state == dict - (all - keys)
        invariant all - keys <= dict.Keys
        decreases |keys|
      {
        var k :| k in keys;
        if k !in state {
          return Err(KeyError);
        }
        state := state - {k};
        keys := keys - {k};
      }
      assert all - keys == all;
      r := Ok(state);
    }

    /** `__setstate__`: `update` with the state, then with the registered entries. */
    method SetStateOf(registry: SharedRegistry, state: Attrs) returns (r: Result<()>)
      modifies this, registry
      ensures r.Err? <==> SetState(old(dict), state, old(registry.table)).Err?
      ensures r.Err? ==> r.error == AttributeError && dict == old(dict) + state
      ensures r.Ok? ==> Ok(dict) == SetState(old(dict), state, old(registry.table))
      ensures var d := old(dict) + state;
        registry.table == if "id_" in d then Touched(old(registry.table), d["id_"]) else old(registry.table)
    {
      dict := dict + state;
      if "id_" !in dict {
        return Err(AttributeError);
      }
      var id := dict["id_"];
      registry.table := Touched(registry.table, id);
      dict := dict + registry.table[id];
      r := Ok(());
    }
  }

  // ---------------------------------------------------------------------------
  // dump_pickle's skip fields

  /** The object graph that `dump_pickle` serialises: each skip field, in order, resolved with
      `parse_from` in the graph as it stands and set to `None` by `__enter__`. */
  function SkipAll(objs: Objects, obj: PyValue, fields: seq<string>): Result<Objects>
    decreases |fields|
  {
    if fields == [] then Ok(objs)
    else
      var next :- SkipOne(objs, obj, fields[0]);
      SkipAll(next, obj, fields[1..])
  }

  /** One skip field: resolve it with `parse_from`, then enter its context. */
  function SkipOne(objs: Objects, obj: PyValue, field: string): Result<Objects>
  {
    var target :- ParseTarget(objs, obj, field);
    var entered :- EnterCached(objs, target.0, target.1);
    Ok(entered.1)
  }

  /** For plain attribute names of `obj` (listed twice or not), the dumped graph has each
      listed attribute at `None` and every other attribute as it was. */
  lemma {:induction false} SkipPlain(objs: Objects, obj: PyValue, fields: seq<string>)
    requires obj.PyRef? && obj.id in objs
    requires forall i :: 0 <= i < |fields| ==> '.' !in fields[i] && fields[i] in objs[obj.id]
    ensures SkipAll(objs, obj, fields).Ok?
    ensures var d := SkipAll(objs, obj, fields).value;
      && d.Keys == objs.Keys
      && d[obj.id].Keys == objs[obj.id].Keys
      && (forall i :: 0 <= i < |fields| ==> d[obj.id][fields[i]] == PyNone)
      && (forall n :: n in objs[obj.id] && n !in fields ==> d[obj.id][n] == objs[obj.id][n])
      && (forall o :: o in objs && o != obj.id ==> d[o] == objs[o])
    decreases |fields|
  {
    if fields != [] {
      ParseUndotted(objs, obj, fields[0]);
      var next := SetAttr(objs, obj, fields[0], PyNone);
      assert SkipOne(objs, obj, fields[0]) == Ok(next);
      SkipPlain(next, obj, fields[1..]);
      var d := SkipAll(next, obj, fields[1..]).value;
      forall i | 0 <= i < |fields|
        ensures d[obj.id][fields[i]] == PyNone
      {
        if i > 0 {
          assert fields[1..][i - 1] == fields[i];
        } else if fields[0] !in fields[1..] {
          assert next[obj.id][fields[0]] == PyNone;
        } else {
          var j :| 0 <= j < |fields[1..]| && fields[1..][j] == fields[0];
        }
      }
      forall n | n in objs[obj.id] && n !in fields
        ensures d[obj.id][n] == objs[obj.id][n]
      {
        assert n != fields[0];
        assert n !in fields[1..];
      }
    }
  }

  /** `dump_pickle(filepath, obj, skip_fields=...)` seen from the object graph: enter one
      `CachedObject.parse_from` context per field, take the snapshot that is pickled, then
      leave the contexts in reverse order. A failing field raises after the contexts
      entered so far are left again. */
  method DumpSkipping(h: Heap, obj: PyValue, skipFields: seq<string>) returns (r: Result<Objects>)
    modifies h
    ensures r == SkipAll(old(h.objects), obj, skipFields)
    ensures h.objects == old(h.objects)
  {
    var stack, failed, targets, caches, states := EnterAll(h, obj, skipFields);
    r := if failed.Some? then Err(failed.value) else Ok(h.objects);
    Unwind(h, stack, targets, caches, states);
  }

  /** The `for field in skip_fields` loop: enter one context per field until one fails.
      Alongside the stack of entered contexts, the ghost results record each context's
      target, its cached value and the graph before and after each entry. */
  method EnterAll(h: Heap, obj: PyValue, skipFields: seq<string>)
    returns (stack: seq<CachedObject>, failed: Option<PyError>,
             ghost targets: seq<(PyValue, string)>, ghost caches: seq<PyValue>, ghost states: seq<Objects>)
    modifies h
    ensures Holds(stack, targets, caches) && Chain(states, targets, caches)
    ensures states[0] == old(h.objects) && h.objects == states[|stack|]
    ensures failed.None? ==> SkipAll(old(h.objects), obj, skipFields) == Ok(h.objects)
    ensures failed.Some? ==> SkipAll(old(h.objects), obj, skipFields) == Err(failed.value)
  {
    stack, targets, caches, states := [], [], [], [h.objects];
    failed := None;
    for i := 0 to |skipFields|
      invariant |stack| == i && Holds(stack, targets, caches) && Chain(states, targets, caches)
      invariant states[0] == old(h.objects) && h.objects == states[i]
      invariant SkipAll(old(h.objects), obj, skipFields) == SkipAll(h.objects, obj, skipFields[i..])
    {
      assert skipFields[i..][0] == skipFields[i] && skipFields[i..][1..] == skipFields[i + 1..];
      var c := EnterField(h, obj, skipFields[i]);
      if c.Err? {
        failed := Some(c.error);
        return;
      }
      ChainAppend(states, targets, caches, (c.value.obj, c.value.field), c.value.cache, h.objects);
      stack := stack + [c.value];
      targets := targets + [(c.value.obj, c.value.field)];
      caches := caches + [c.value.cache];
      states := states + [h.objects];
    }
    assert skipFields[|skipFields|..] == [];
  }

  /** Leaving the `ExitStack`: the contexts exit in reverse order, each writing its cached
      value back, which undoes the entries one by one. */
  method Unwind(h: Heap, stack: seq<CachedObject>, ghost targets: seq<(PyValue, string)>,
                ghost caches: seq<PyValue>, ghost states: seq<Objects>)
    requires Holds(stack, targets, caches) && Chain(states, targets, caches)
    requires h.objects == states[|stack|]
    modifies h
    ensures h.objects == states[0]
  {
    var j := |stack|;
    while j > 0
      invariant 0 <= j <= |stack|
      invariant h.objects == states[j]
    {
      j := j - 1;
      stack[j].Exit(h);
    }
  }

  /** Each entered context holds the target and the cached value recorded for it. */
  ghost predicate Holds(stack: seq<CachedObject>, targets: seq<(PyValue, string)>, caches: seq<PyValue>)
    reads stack
  {
    && |targets| == |stack| && |caches| == |stack|
    && forall j :: 0 <= j < |stack| ==> (stack[j].obj, stack[j].field, stack[j].cache) == (targets[j].0, targets[j].1, caches[j])
  }

  /** Each recorded entry can be undone: writing the cached value back into the target of
      entry `j` takes graph `j + 1` back to graph `j`. */
  ghost predicate Chain(states: seq<Objects>, targets: seq<(PyValue, string)>, caches: seq<PyValue>)
  {
    && |caches| == |targets| && |states| == |targets| + 1
    && forall j :: 0 <= j < |targets| ==> Restores(states[j], targets[j].0, targets[j].1, caches[j], states[j + 1])
  }

  /** One more entry that can be undone extends the chain. */
  lemma ChainAppend(states: seq<Objects>, targets: seq<(PyValue, string)>, caches: seq<PyValue>,
                    t: (PyValue, string), c: PyValue, s: Objects)
    requires Chain(states, targets, caches)
    requires Restores(states[|targets|], t.0, t.1, c, s)
    ensures Chain(states + [s], targets + [t], caches + [c])
  {
    var states', targets', caches' := states + [s], targets + [t], caches + [c];
    forall j | 0 <= j < |targets'|
      ensures Restores(states'[j], targets'[j].0, targets'[j].1, caches'[j], states'[j + 1])
    {
      if j < |targets| {
        assert states'[j] == states[j] && states'[j + 1] == states[j + 1];
        assert targets'[j] == targets[j] && caches'[j] == caches[j];
      }
    }
  }

  /** `CachedObject.parse_from(obj, field)` followed by `__enter__`, as one loop step. */
  method EnterField(h: Heap, obj: PyValue, field: string) returns (r: Result<CachedObject>)
    modifies h
    ensures r.Err? <==> SkipOne(old(h.objects), obj, field).Err?
    ensures r.Err? ==> r.error == SkipOne(old(h.objects), obj, field).error && h.objects == old(h.objects)
    ensures r.Ok? ==> h.objects == SkipOne(old(h.objects), obj, field).value
    ensures r.Ok? ==> Restores(old(h.objects), r.value.obj, r.value.field, r.value.cache, h.objects)
    ensures r.Ok? ==> fresh(r.value)
  {
    var c := CachedObject.ParseFrom(h, obj, field);
    if c.Err? {
      return Err(c.error);
    }
    var target := ParseTarget(h.objects, obj, field).value;
    EnterExitCached(h.objects, target.0, target.1);
    var e := c.value.Enter(h);
    if e.Err? {
      return Err(e.error);
    }
    r := Ok(c.value);
  }

  /** Writing `cache` back into `field` of `obj` takes the graph from `after` back to `before`. */
  predicate Restores(before: Objects, obj: PyValue, field: string, cache: PyValue, after: Objects)
  {
    obj.PyRef? && obj.id in after && SetAttr(after, obj, field, cache) == before
  }
}
