/** pysimple/io.py: `suffix_filename` on `os.path.splitext`, the `list_hashes` filter and the
    option defaulting of the `to_tsv` and `from_tsv` in effect. */
module Io {
  import opened Py
  import opened Strings
  import opened Options

  /** `__NAN_IDENTIFIER__` */
  const NanIdentifier: string := "NA"

  // ---------------------------------------------------------------------------
  // os.path.splitext

  predicate AllDots(s: string)
  {
    forall i :: 0 <= i < |s| ==> s[i] == '.'
  }

  /** Where `os.path.splitext(p)` cuts on POSIX: at the last `.` of the last component,
      unless every character before that dot in the component is a dot too; otherwise
      at the end. */
  function ExtStart(p: string): (k: int)
    ensures 0 <= k <= |p|
  {
    var sepIndex := LastIndex(p, '/');
    var dotIndex := LastIndex(p, '.');
    if dotIndex > sepIndex && !AllDots(p[sepIndex + 1..dotIndex]) then dotIndex else |p|
  }

  /** `os.path.splitext(p)`: the root and the extension. */
  function SplitExt(p: string): (string, string)
  {
    var k := ExtStart(p);
    (p[..k], p[k..])
  }

  /** The last component of `p` holds a `.` with something other than dots before it in
      the component: the paths that have an extension. */
  predicate HasExt(p: string)
  {
    var sep := LastIndex(p, '/');
    exists i :: sep < i < |p| && p[i] == '.' && !AllDots(p[sep + 1..i])
  }

  /** The two parts make up the path; there is an extension exactly when the last component
      has a dot after something other than dots, and then it runs from the last `.` of the
      path: one `.` followed by no `.` or `/`, after a component that is not all dots. */
  lemma SplitExtSpec(p: string)
    ensures SplitExt(p).0 + SplitExt(p).1 == p
    ensures SplitExt(p).1 != [] <==> HasExt(p)
    ensures SplitExt(p).1 != [] ==> SplitExt(p).1 == p[LastIndex(p, '.')..]
    ensures var ext := SplitExt(p).1;
      ext == [] || (ext[0] == '.' && '.' !in ext[1..] && '/' !in ext)
    ensures var (root, ext) := SplitExt(p);
      ext != [] ==> !AllDots(root[LastIndex(root, '/') + 1..])
  {
    var k := ExtStart(p);
    assert p[..k] + p[k..] == p;
    ExtStartIff(p);
    if k < |p| {
      ExtStartSpec(p);
      assert p[k..][1..] == p[k + 1..];
    }
  }

  /** The cut is before the end exactly for the paths with an extension, and then it is at
      the last `.`. */
  lemma ExtStartIff(p: string)
    ensures ExtStart(p) < |p| <==> HasExt(p)
    ensures ExtStart(p) < |p| ==> ExtStart(p) == LastIndex(p, '.')
  {
    var sep, dot := LastIndex(p, '/'), LastIndex(p, '.');
    if ExtStart(p) < |p| {
      assert sep < dot < |p| && p[dot] == '.' && !AllDots(p[sep + 1..dot]);
    }
    if HasExt(p) {
      HasExtCut(p);
    }
  }

  /** A dot after something other than dots in the last component makes the last dot a cut. */
  lemma HasExtCut(p: string)
    requires HasExt(p)
    ensures ExtStart(p) < |p|
  {
    var sep, dot := LastIndex(p, '/'), LastIndex(p, '.');
    var i :| sep < i < |p| && p[i] == '.' && !AllDots(p[sep + 1..i]);
    assert sep < i <= dot;
    var j :| 0 <= j < i - sep - 1 && p[sep + 1..i][j] != '.';
    assert p[sep + 1..dot][j] == p[sep + 1 + j] == p[sep + 1..i][j];
  }

  /** A cut before the end is at a `.` with no `.` or `/` after it, and the root keeps the
      last component's text before the dot. */
  lemma ExtStartSpec(p: string)
    requires ExtStart(p) < |p|
    ensures var k := ExtStart(p);
      && p[k] == '.'
      && '.' !in p[k + 1..] && '/' !in p[k..]
      && !AllDots(p[..k][LastIndex(p[..k], '/') + 1..])
  {
    var sepIndex := LastIndex(p, '/');
    var dotIndex := LastIndex(p, '.');
    assert dotIndex == ExtStart(p);
    NoneFrom(p, dotIndex, '/');
    NoneFrom(p, dotIndex + 1, '.');
    RootComponent(p, sepIndex, dotIndex);
  }

  /** No `c` from position k on means no `c` in the tail `p[k..]`. */
  lemma NoneFrom(p: string, k: int, c: char)
    requires 0 <= k <= |p|
    requires forall j :: k <= j < |p| ==> p[j] != c
    ensures c !in p[k..]
  {
    forall j | 0 <= j < |p| - k
      ensures p[k..][j] != c
    {
      assert p[k..][j] == p[k + j];
    }
  }

  /** Cutting the path before its last dot keeps its last `/`, hence its last component. */
  lemma RootComponent(p: string, sepIndex: int, dotIndex: int)
    requires sepIndex == LastIndex(p, '/') && sepIndex < dotIndex < |p|
    ensures p[..dotIndex][LastIndex(p[..dotIndex], '/') + 1..] == p[sepIndex + 1..dotIndex]
  {
    LastIndexPrefix(p, '/', dotIndex);
    assert p[..dotIndex][sepIndex + 1..] == p[sepIndex + 1..dotIndex];
  }

  /** `suffix_filename(filepath, suffix)` */
  function SuffixFilename(p: string, suffix: string): (r: string)
  {
    var (root, ext) := SplitExt(p);
    root + suffix + ext
  }

  /** The suffix goes in just before the last `.` when the path has an extension, and at
      the end otherwise; the rest of the path is kept. */
  lemma SuffixFilenameSpec(p: string, suffix: string)
    ensures !HasExt(p) ==> SuffixFilename(p, suffix) == p + suffix
    ensures HasExt(p) ==>
      var d := LastIndex(p, '.');
      0 <= d && SuffixFilename(p, suffix) == p[..d] + suffix + p[d..]
    ensures |SuffixFilename(p, suffix)| == |p| + |suffix|
  {
    SplitExtSpec(p);
    ExtStartIff(p);
    var k := ExtStart(p);
    if k == |p| {
      assert p[..k] == p && p[k..] == [];
    }
  }

  /** An empty suffix returns the path unchanged. */
  lemma SuffixFilenameEmpty(p: string)
    ensures SuffixFilename(p, "") == p
  {
    var k := ExtStart(p);
    assert SplitExt(p) == (p[..k], p[k..]);
    assert p[..k] + "" + p[k..] == p;
  }

  /** `data/model.pkl` becomes `data/model_v2.pkl`; a dot file such as `.bashrc` has no
      extension and becomes `.bashrc_v2`; a dot in a directory name is not an extension. */
  lemma SuffixFilenameExample()
    ensures SuffixFilename("data/model.pkl", "_v2") == "data/model_v2.pkl"
  {
    var p := "data/model.pkl";
    LastIndexAt(p, '/', 4);
    LastIndexAt(p, '.', 10);
    assert !AllDots(p[5..10]) by {
      assert p[5..10][0] == 'm';
    }
    assert p[..10] == "data/model" && p[10..] == ".pkl";
    assert SplitExt(p) == ("data/model", ".pkl");
  }

  lemma SuffixFilenameDotFile()
    ensures SuffixFilename(".bashrc", "_v2") == ".bashrc_v2"
  {
    var p := ".bashrc";
    assert '/' !in p by {
      forall j | 0 <= j < |p| ensures p[j] != '/' {}
    }
    assert LastIndex(p, '/') == -1;
    forall j | 0 < j < |p| ensures p[j] != '.' {}
    LastIndexAt(p, '.', 0);
    assert AllDots(p[0..0]);
    assert ExtStart(p) == |p|;
    assert p[..|p|] == p && p[|p|..] == [];
    assert SplitExt(p) == (p, []);
  }

  lemma SuffixFilenameDottedDir()
    ensures SuffixFilename("a.b/c", "_v2") == "a.b/c_v2"
  {
    var p := "a.b/c";
    LastIndexAt(p, '/', 3);
    LastIndexAt(p, '.', 1);
    assert ExtStart(p) == |p|;
    assert p[..|p|] == p && p[|p|..] == [];
    assert SplitExt(p) == (p, []);
  }

  // ---------------------------------------------------------------------------
  // list_hashes

  /** `[d for d in entries if is_hash(d)]`, with `is_hash` given (pysimple.utils, where it
      is imported from, does not define it). */
  function ListHashes(entries: seq<string>, isHash: string -> bool): (r: seq<string>)
  {
    if entries == [] then []
    else (if isHash(entries[0]) then [entries[0]] else []) + ListHashes(entries[1..], isHash)
  }

  /** Exactly the entries that are hashes are kept. */
  lemma {:induction false} ListHashesMembers(entries: seq<string>, isHash: string -> bool)
    ensures forall d :: d in ListHashes(entries, isHash) <==> d in entries && isHash(d)
    ensures |ListHashes(entries, isHash)| <= |entries|
  {
    if entries != [] {
      ListHashesMembers(entries[1..], isHash);
      assert entries == [entries[0]] + entries[1..];
    }
  }

  /** Listing order is kept: filtering distributes over concatenation. */
  lemma {:induction false} ListHashesAppend(a: seq<string>, b: seq<string>, isHash: string -> bool)
    ensures ListHashes(a + b, isHash) == ListHashes(a, isHash) + ListHashes(b, isHash)
  {
    if a == [] {
      assert a + b == b;
    } else {
      assert (a + b)[1..] == a[1..] + b;
      ListHashesAppend(a[1..], b, isHash);
    }
  }

  /** When every entry is a hash, all are listed, in order. */
  lemma {:induction false} ListHashesAll(entries: seq<string>, isHash: string -> bool)
    requires forall i :: 0 <= i < |entries| ==> isHash(entries[i])
    ensures ListHashes(entries, isHash) == entries
  {
    if entries != [] {
      ListHashesAll(entries[1..], isHash);
    }
  }

  // ---------------------------------------------------------------------------
  // to_tsv / from_tsv

  /** The `setdefault` calls of `to_tsv`. The module defines `to_tsv` twice; the second
      definition replaces the first, and both default the same four options. */
  function ToTsvDefaults(): seq<Default>
  {
    [("sep", PyStr("\t")), ("na_rep", PyStr(NanIdentifier)), ("encoding", PyStr("utf-8")),
     ("index", PyBool(false))]
  }

  /** The `setdefault` calls of `from_tsv`. */
  function FromTsvDefaults(): seq<Default>
  {
    [("sep", PyStr("\t")), ("na_values", PyStr(NanIdentifier)), ("keep_default_na", PyBool(false)),
     ("dtype", PyBuiltin("object"))]
  }

  /** `to_tsv`'s defaulting of `**kwargs`. */
  method ToTsvOptions(kwargs: KwArgsDict)
    modifies kwargs
    ensures kwargs.items == Defaulted(old(kwargs.items), ToTsvDefaults())
  {
    kwargs.SetDefaults(ToTsvDefaults());
  }

  /** `from_tsv`'s defaulting of `**kwargs`. */
  method FromTsvOptions(kwargs: KwArgsDict)
    modifies kwargs
    ensures kwargs.items == Defaulted(old(kwargs.items), FromTsvDefaults())
  {
    kwargs.SetDefaults(FromTsvDefaults());
  }

  /** Caller options win; otherwise tab-separated, `NA` for missing values, UTF-8, no index;
      no compression is ever added. */
  lemma ToTsvOptionsSpec(kwargs: KwArgs)
    ensures var r := Defaulted(kwargs, ToTsvDefaults());
      && (forall k :: k in kwargs ==> k in r && r[k] == kwargs[k])
      && r.Keys == kwargs.Keys + {"sep", "na_rep", "encoding", "index"}
      && r["sep"] == (if "sep" in kwargs then kwargs["sep"] else PyStr("\t"))
      && r["na_rep"] == (if "na_rep" in kwargs then kwargs["na_rep"] else PyStr("NA"))
      && r["encoding"] == (if "encoding" in kwargs then kwargs["encoding"] else PyStr("utf-8"))
      && r["index"] == (if "index" in kwargs then kwargs["index"] else PyBool(false))
  {
    DefaultedSpec(kwargs, ToTsvDefaults());
    DefaultedKeys(kwargs, ToTsvDefaults());
    ToTsvDefaultsTable();
  }

  lemma ToTsvDefaultsTable()
    ensures var ds := ToTsvDefaults();
      && Names(ds) == {"sep", "na_rep", "encoding", "index"}
      && FirstDefault(ds, "sep") == Some(PyStr("\t"))
      && FirstDefault(ds, "na_rep") == Some(PyStr("NA"))
      && FirstDefault(ds, "encoding") == Some(PyStr("utf-8"))
      && FirstDefault(ds, "index") == Some(PyBool(false))
  {
    var ds := ToTsvDefaults();
    FirstDefaultAt(ds, "sep", 0);
    FirstDefaultAt(ds, "na_rep", 1);
    FirstDefaultAt(ds, "encoding", 2);
    FirstDefaultAt(ds, "index", 3);
    assert ds[1..][1..][1..][1..] == [];
  }

  /** Caller options win; otherwise tab-separated, only `NA` is missing, columns as `object`. */
  lemma FromTsvOptionsSpec(kwargs: KwArgs)
    ensures var r := Defaulted(kwargs, FromTsvDefaults());
      && (forall k :: k in kwargs ==> k in r && r[k] == kwargs[k])
      && r.Keys == kwargs.Keys + {"sep", "na_values", "keep_default_na", "dtype"}
      && r["sep"] == (if "sep" in kwargs then kwargs["sep"] else PyStr("\t"))
      && r["na_values"] == (if "na_values" in kwargs then kwargs["na_values"] else PyStr("NA"))
      && r["keep_default_na"] == (if "keep_default_na" in kwargs then kwargs["keep_default_na"] else PyBool(false))
      && r["dtype"] == (if "dtype" in kwargs then kwargs["dtype"] else PyBuiltin("object"))
  {
    DefaultedSpec(kwargs, FromTsvDefaults());
    DefaultedKeys(kwargs, FromTsvDefaults());
    FromTsvDefaultsTable();
  }

  lemma FromTsvDefaultsTable()
    ensures var ds := FromTsvDefaults();
      && Names(ds) == {"sep", "na_values", "keep_default_na", "dtype"}
      && FirstDefault(ds, "sep") == Some(PyStr("\t"))
      && FirstDefault(ds, "na_values") == Some(PyStr("NA"))
      && FirstDefault(ds, "keep_default_na") == Some(PyBool(false))
      && FirstDefault(ds, "dtype") == Some(PyBuiltin("object"))
  {
    var ds := FromTsvDefaults();
    FirstDefaultAt(ds, "sep", 0);
    FirstDefaultAt(ds, "na_values", 1);
    FirstDefaultAt(ds, "keep_default_na", 2);
    FirstDefaultAt(ds, "dtype", 3);
    assert ds[1..][1..][1..][1..] == [];
  }
}
