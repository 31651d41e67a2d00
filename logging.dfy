/** pysimple/logging.py: the message prefix of `LoggerAdapter` and when the logger factories
    wrap a logger in one. */
module Logging {
  import opened Py

  /** The `prefix` argument: `None`, one string, or a tuple of strings. */
  datatype PrefixArg = NoPrefix | Str(s: string) | Items(items: seq<string>)

  /** `''.join([f'[{item}]' for item in items])` */
  function Bracketed(items: seq<string>): string
  {
    if items == [] then [] else "[" + items[0] + "]" + Bracketed(items[1..])
  }

  /** `LoggerAdapter.__init__`'s prefix: a string counts as a one-item tuple; iterating
      `None` raises TypeError. */
  function AdapterPrefix(prefix: PrefixArg): (r: Result<string>)
    ensures r.Err? <==> prefix.NoPrefix?
    ensures r.Err? ==> r.error == TypeError
  {
    match prefix
    case NoPrefix => Err(TypeError)
    case Str(s) => Ok(Bracketed([s]))
    case Items(items) => Ok(Bracketed(items))
  }

  /** `LoggerAdapter.process(msg, kwargs)`: the prefix, a space, the message; kwargs as given.
      The stored prefix is always a string, so its `is not None` test always passes. */
  function Process(prefix: string, msg: string, kwargs: map<string, PyValue>): (r: (string, map<string, PyValue>))
  {
    (prefix + " " + msg, kwargs)
  }

  /** The prefix of `console_logger(name, prefix)` and `file_logger(..., prefix)`: a plain
      logger (no prefix) for `None`, an adapter otherwise. */
  function LoggerPrefix(prefix: PrefixArg): (r: Option<string>)
  {
    if prefix.NoPrefix? then None else Some(AdapterPrefix(prefix).value)
  }

  /** The text a record carries once the logger has handled `msg`. */
  function Emitted(prefix: PrefixArg, msg: string): string
  {
    match LoggerPrefix(prefix)
    case None => msg
    case Some(p) => Process(p, msg, map[]).0
  }

  /** Bracketing works item by item: it distributes over concatenation of the items. */
  lemma {:induction false} BracketedAppend(a: seq<string>, b: seq<string>)
    ensures Bracketed(a + b) == Bracketed(a) + Bracketed(b)
  {
    if a == [] {
      assert a + b == b;
    } else {
      assert (a + b)[1..] == a[1..] + b;
      BracketedAppend(a[1..], b);
    }
  }

  /** Each item adds its own text and two brackets. */
  lemma {:induction false} BracketedLength(items: seq<string>)
    ensures |Bracketed(items)| == 2 * |items| + SumLengths(items)
  {
    if items != [] {
      BracketedLength(items[1..]);
    }
  }

  function SumLengths(items: seq<string>): nat
  {
    if items == [] then 0 else |items[0]| + SumLengths(items[1..])
  }

  /** A string prefix is the one-item tuple: `'a'` and `('a',)` give `[a]`. */
  lemma StrIsOneItem(s: string)
    ensures AdapterPrefix(Str(s)) == AdapterPrefix(Items([s])) == Ok("[" + s + "]")
  {
    assert [s][1..] == [];
    assert Bracketed([s]) == "[" + s + "]" + [];
    assert "[" + s + "]" + [] == "[" + s + "]";
  }

  /** `('a', 'b')` gives the prefix `[a][b]` and the message `[a][b] msg`. */
  lemma TwoItemsExample(msg: string)
    ensures AdapterPrefix(Items(["a", "b"])) == Ok("[a][b]")
    ensures Emitted(Items(["a", "b"]), msg) == "[a][b] " + msg
  {
    BracketedAppend(["a"], ["b"]);
    assert ["a"] + ["b"] == ["a", "b"];
    StrIsOneItem("a");
    StrIsOneItem("b");
    assert Bracketed(["a"]) == "[" + "a" + "]" == "[a]";
    assert Bracketed(["b"]) == "[" + "b" + "]" == "[b]";
    assert "[a]" + "[b]" == "[a][b]";
  }

  /** An empty tuple gives the prefix `''`, which is not `None`: messages gain one leading space. */
  lemma EmptyTupleLeadingSpace(msg: string)
    ensures AdapterPrefix(Items([])) == Ok("")
    ensures Emitted(Items([]), msg) == " " + msg
  {
  }

  /** The factories build an adapter only for a prefix that is not `None`, so they never hit
      the constructor's TypeError; with no prefix the message is left alone, and with one the
      message ends the prefixed text after exactly one space. */
  lemma FactoriesNeverFail(prefix: PrefixArg, msg: string)
    ensures LoggerPrefix(prefix).None? <==> prefix.NoPrefix?
    ensures LoggerPrefix(prefix).Some? ==> AdapterPrefix(prefix) == Ok(LoggerPrefix(prefix).value)
    ensures prefix.NoPrefix? ==> Emitted(prefix, msg) == msg
    ensures prefix.Items? ==> Emitted(prefix, msg) == Bracketed(prefix.items) + " " + msg
    ensures prefix.Str? ==> Emitted(prefix, msg) == "[" + prefix.s + "] " + msg
  {
    if prefix.Str? {
      StrIsOneItem(prefix.s);
    }
  }

  /** `process` only prepends: the message is a suffix of the result, the kwargs are untouched. */
  lemma ProcessKeepsMessage(prefix: string, msg: string, kwargs: map<string, PyValue>)
    ensures var (m, kw) := Process(prefix, msg, kwargs);
      && kw == kwargs
      && |m| == |prefix| + 1 + |msg|
      && m[..|prefix|] == prefix
      && m[|prefix|] == ' '
      && m[|prefix| + 1..] == msg
  {
  }
}
