/** Keyword-argument defaulting with `kwargs.setdefault(key, value)`, as the I/O helpers
    of src/pysimple/io.py and pysimple/io.py do before they call pandas or `open`. */
module Options {
  import opened Py

  /** A `**kwargs` dictionary. */
  type KwArgs = map<string, PyValue>

  /** A default: the option name and the value used when the caller gave none. */
  type Default = (string, PyValue)

  /** The options after `kwargs.setdefault(k, v)` for each default in turn. */
  function Defaulted(kwargs: KwArgs, defaults: seq<Default>): KwArgs
    decreases |defaults|
  {
    if defaults == [] then kwargs
    else
      var (k, v) := defaults[0];
      Defaulted(if k in kwargs then kwargs else kwargs[k := v], defaults[1..])
  }

  /** The value the first default for `k` supplies. */
  function FirstDefault(defaults: seq<Default>, k: string): (r: Option<PyValue>)
    ensures r.None? <==> forall i :: 0 <= i < |defaults| ==> defaults[i].0 != k
  {
    if defaults == [] then None
    else if defaults[0].0 == k then Some(defaults[0].1)
    else FirstDefault(defaults[1..], k)
  }

  /** The first default for `k` is the one at its first position. */
  lemma {:induction false} FirstDefaultAt(defaults: seq<Default>, k: string, i: nat)
    requires i < |defaults| && defaults[i].0 == k
    requires forall j :: 0 <= j < i ==> defaults[j].0 != k
    ensures FirstDefault(defaults, k) == Some(defaults[i].1)
  {
    if i > 0 {
      FirstDefaultAt(defaults[1..], k, i - 1);
    }
  }

  /** Caller options always win; a missing option takes the first default given for it;
      no other option appears. */
  lemma {:induction false} DefaultedSpec(kwargs: KwArgs, defaults: seq<Default>)
    ensures forall k :: k in Defaulted(kwargs, defaults) <==> k in kwargs || FirstDefault(defaults, k).Some?
    ensures forall k :: k in kwargs ==> Defaulted(kwargs, defaults)[k] == kwargs[k]
    ensures forall k :: k !in kwargs && FirstDefault(defaults, k).Some? ==>
      Defaulted(kwargs, defaults)[k] == FirstDefault(defaults, k).value
    decreases |defaults|
  {
    if defaults != [] {
      var (k, v) := defaults[0];
      DefaultedSpec(if k in kwargs then kwargs else kwargs[k := v], defaults[1..]);
    }
  }

  /** The options the defaults name. */
  function Names(defaults: seq<Default>): set<string>
  {
    if defaults == [] then {} else {defaults[0].0} + Names(defaults[1..])
  }

  /** The names of two lists of defaults together. */
  lemma {:induction false} NamesAppend(a: seq<Default>, b: seq<Default>)
    ensures Names(a + b) == Names(a) + Names(b)
  {
    if a == [] {
      assert a + b == b;
    } else {
      assert (a + b)[1..] == a[1..] + b;
      NamesAppend(a[1..], b);
    }
  }

  /** Defaulting adds exactly the named options that are missing. */
  lemma {:induction false} DefaultedKeys(kwargs: KwArgs, defaults: seq<Default>)
    ensures Defaulted(kwargs, defaults).Keys == kwargs.Keys + Names(defaults)
    decreases |defaults|
  {
    if defaults != [] {
      var (k, v) := defaults[0];
      DefaultedKeys(if k in kwargs then kwargs else kwargs[k := v], defaults[1..]);
    }
  }

  /** Two rounds of defaulting are one round over both lists. */
  lemma {:induction false} DefaultedAppend(kwargs: KwArgs, a: seq<Default>, b: seq<Default>)
    ensures Defaulted(Defaulted(kwargs, a), b) == Defaulted(kwargs, a + b)
    decreases |a|
  {
    if a == [] {
      assert a + b == b;
    } else {
      var (k, v) := a[0];
      assert (a + b)[1..] == a[1..] + b;
      DefaultedAppend(if k in kwargs then kwargs else kwargs[k := v], a[1..], b);
    }
  }

  /** A mutable `**kwargs` dictionary. */
  class KwArgsDict {
    var items: KwArgs

    constructor (items: KwArgs)
      ensures this.items == items
    {
      this.items := items;
    }

    /** `kwargs.setdefault(k, v)`: insert only when absent; answer the value now held. */
    method SetDefault(k: string, v: PyValue) returns (r: PyValue)
      modifies this
      ensures items == if k in old(items) then old(items) else old(items)[k := v]
      ensures r == items[k]
    {
      if k !in items {
        items := items[k := v];
      }
      r := items[k];
    }

    /** The `setdefault` calls of one helper, in the order it makes them. */
    method SetDefaults(defaults: seq<Default>)
      modifies this
      ensures items == Defaulted(old(items), defaults)
    {
      for i := 0 to |defaults|
        invariant Defaulted(old(items), defaults) == Defaulted(items, defaults[i..])
      {
        assert defaults[i..][1..] == defaults[i + 1..];
        var _ := SetDefault(defaults[i].0, defaults[i].1);
      }
    }
  }
}
