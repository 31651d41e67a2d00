/** pysimple/sugar.py: context managers and decorators that change a piece of
    state for the duration of a block or a call and put it back afterwards. */
module Sugar {
  import opened Py
  import opened Strings

  // ---------------------------------------------------------------------------
  // The object graph: `getattr` / `setattr`

  /** The attributes of one object, by name. */
  type Attrs = map<string, PyValue>

  /** Every live object's attributes, by identity. */
  type Objects = map<ObjId, Attrs>

  /** `getattr(obj, name)`: only an object that has the attribute answers; anything else raises. */
  function GetAttr(objs: Objects, obj: PyValue, name: string): (r: Result<PyValue>)
    ensures r.Ok? <==> obj.PyRef? && obj.id in objs && name in objs[obj.id]
    ensures r.Ok? ==> r.value == objs[obj.id][name]
    ensures r.Err? ==> r.error == AttributeError
  {
    if obj.PyRef? && obj.id in objs && name in objs[obj.id] then Ok(objs[obj.id][name])
    else Err(AttributeError)
  }

  /** `setattr(obj, name, v)` on a live object: that one attribute changes. */
  function SetAttr(objs: Objects, obj: PyValue, name: string, v: PyValue): (r: Objects)
    requires obj.PyRef? && obj.id in objs
  {
    objs[obj.id := objs[obj.id][name := v]]
  }

  /** `setattr` changes the named attribute and nothing else. */
  lemma SetAttrFrame(objs: Objects, obj: PyValue, name: string, v: PyValue)
    requires obj.PyRef? && obj.id in objs
    ensures GetAttr(SetAttr(objs, obj, name, v), obj, name) == Ok(v)
    ensures forall o, n :: (o != obj || n != name) ==>
      GetAttr(SetAttr(objs, obj, name, v), o, n) == GetAttr(objs, o, n)
  {
  }

  /** Writing back the value just read leaves the graph as it was. */
  lemma SetAttrSame(objs: Objects, obj: PyValue, name: string)
    requires GetAttr(objs, obj, name).Ok?
    ensures SetAttr(objs, obj, name, GetAttr(objs, obj, name).value) == objs
  {
    assert objs[obj.id][name := objs[obj.id][name]] == objs[obj.id];
  }

  /** The interpreter's objects, changed in place by `setattr`. */
  class Heap {
    var objects: Objects

    constructor (objects: Objects)
      ensures this.objects == objects
    {
      this.objects := objects;
    }

    method Get(obj: PyValue, name: string) returns (r: Result<PyValue>)
      ensures r == GetAttr(objects, obj, name)
    {
      if obj.PyRef? && obj.id in objects && name in objects[obj.id] {
        r := Ok(objects[obj.id][name]);
      } else {
        r := Err(AttributeError);
      }
    }

    method Set(obj: PyValue, name: string, v: PyValue)
      requires obj.PyRef? && obj.id in objects
      modifies this
      ensures objects == SetAttr(old(objects), obj, name, v)
    {
      objects := objects[obj.id := objects[obj.id][name := v]];
    }
  }

  // ---------------------------------------------------------------------------
  // CachedObject

  /** What `CachedObject.__enter__` does to the graph: the cached value and the new graph. */
  function EnterCached(objs: Objects, obj: PyValue, field: string): Result<(PyValue, Objects)>
  {
    var v :- GetAttr(objs, obj, field);
    Ok((v, SetAttr(objs, obj, field, PyNone)))
  }

  /** Entering nulls exactly the cached field; exiting right away restores the graph. */
  lemma EnterExitCached(objs: Objects, obj: PyValue, field: string)
    ensures EnterCached(objs, obj, field).Err? <==> GetAttr(objs, obj, field).Err?
    ensures EnterCached(objs, obj, field).Err? ==> EnterCached(objs, obj, field).error == AttributeError
    ensures EnterCached(objs, obj, field).Ok? ==>
      var (cache, during) := EnterCached(objs, obj, field).value;
      && cache == objs[obj.id][field]
      && GetAttr(during, obj, field) == Ok(PyNone)
      && (forall o, n :: (o != obj || n != field) ==> GetAttr(during, o, n) == GetAttr(objs, o, n))
      && SetAttr(during, obj, field, cache) == objs
  {
    if GetAttr(objs, obj, field).Ok? {
      var cache := objs[obj.id][field];
      var during := SetAttr(objs, obj, field, PyNone);
      SetAttrFrame(objs, obj, field, PyNone);
      assert during[obj.id][field := cache] == objs[obj.id];
    }
  }

  /** Whatever the block did in between, after `__exit__` the field holds its original value
      and every other attribute holds what the block left there. */
  lemma ExitRestoresField(objs: Objects, after: Objects, obj: PyValue, field: string)
    requires EnterCached(objs, obj, field).Ok?
    requires obj.id in after
    ensures GetAttr(SetAttr(after, obj, field, EnterCached(objs, obj, field).value.0), obj, field)
      == GetAttr(objs, obj, field)
    ensures forall o, n :: (o != obj || n != field) ==>
      GetAttr(SetAttr(after, obj, field, EnterCached(objs, obj, field).value.0), o, n) == GetAttr(after, o, n)
  {
    SetAttrFrame(after, obj, field, EnterCached(objs, obj, field).value.0);
  }

  /** `CachedObject(obj, field)`: a context manager that holds one attribute aside. */
  class CachedObject {
    const obj: PyValue
    const field: string
    var cache: PyValue

    constructor (obj: PyValue, field: string)
      ensures this.obj == obj && this.field == field && cache == PyNone
    {
      this.obj := obj;
      this.field := field;
      cache := PyNone;
    }

    /** `__enter__`: read the field into the cache, then set it to `None`. A missing
        attribute raises before anything changes. */
    method Enter(h: Heap) returns (r: Result<()>)
      modifies this, h
      ensures r.Err? <==> EnterCached(old(h.objects), obj, field).Err?
      ensures r.Err? ==> r.error == AttributeError && h.objects == old(h.objects) && cache == old(cache)
      ensures r.Ok? ==> (cache, h.objects) == EnterCached(old(h.objects), obj, field).value
    {
      var v := h.Get(obj, field);
      if v.Err? {
        return Err(v.error);
      }
      cache := v.value;
      h.Set(obj, field, PyNone);
      r := Ok(());
    }

    /** `__exit__`: write the cached value back. */
    method Exit(h: Heap)
      requires obj.PyRef? && obj.id in h.objects
      modifies h
      ensures h.objects == SetAttr(old(h.objects), obj, field, cache)
    {
      h.Set(obj, field, cache);
    }

    /** `parse_from(obj, field)`: follow every dotted component but the last with `getattr`;
        the last one names the field to cache. */
    static method ParseFrom(h: Heap, obj: PyValue, field: string) returns (r: Result<CachedObject>)
      ensures r.Err? <==> ParseTarget(h.objects, obj, field).Err?
      ensures r.Err? ==> r.error == AttributeError && ParseTarget(h.objects, obj, field) == Err(AttributeError)
      ensures r.Ok? ==> fresh(r.value) && r.value.cache == PyNone
      ensures r.Ok? ==> (r.value.obj, r.value.field) == ParseTarget(h.objects, obj, field).value
    {
      var fields := Split(field, '.');
      var cacheObj := obj;
      var cacheName := field;
      var i := 0;
      while i < |fields| - 1
        invariant 0 <= i <= |fields| - 1
        invariant Walk(h.objects, obj, fields[..|fields| - 1])
          == Walk(h.objects, cacheObj, fields[i..|fields| - 1])
        invariant i > 0 ==> cacheName == fields[i]
        invariant i == 0 ==> cacheName == field
      {
        var next := h.Get(cacheObj, fields[i]);
        if next.Err? {
          return Err(next.error);
        }
        assert fields[i..|fields| - 1] == [fields[i]] + fields[i + 1..|fields| - 1];
        cacheObj := next.value;
        cacheName := fields[i + 1];
        i := i + 1;
      }
      if |fields| == 1 {
        SplitSingle(field, '.');
      }
      assert fields[i..|fields| - 1] == [];
      var c := new CachedObject(cacheObj, cacheName);
      r := Ok(c);
    }
  }

  /** `getattr` along a path of attribute names. */
  function Walk(objs: Objects, obj: PyValue, names: seq<string>): Result<PyValue>
    decreases |names|
  {
    if names == [] then Ok(obj)
    else
      var next :- GetAttr(objs, obj, names[0]);
      Walk(objs, next, names[1..])
  }

  /** The object and the field name that `parse_from` settles on. */
  function ParseTarget(objs: Objects, obj: PyValue, field: string): Result<(PyValue, string)>
  {
    var fields := Split(field, '.');
    var target :- Walk(objs, obj, fields[..|fields| - 1]);
    Ok((target, fields[|fields| - 1]))
  }

  /** A name without a dot targets the object itself and the whole name. */
  lemma ParseUndotted(objs: Objects, obj: PyValue, field: string)
    requires '.' !in field
    ensures ParseTarget(objs, obj, field) == Ok((obj, field))
  {
    SplitNoSep(field, '.');
  }

  /** `parse_from(obj, 'a.b.c')` targets `obj.a.b` and the field `c`; it raises
      AttributeError when `obj.a` or `obj.a.b` is missing. */
  lemma ParseDotted(objs: Objects, obj: PyValue, a: string, b: string, c: string)
    requires '.' !in a && '.' !in b && '.' !in c
    ensures var target := GetAttr(objs, obj, a);
      ParseTarget(objs, obj, a + "." + b + "." + c) ==
        if target.Err? then Err(AttributeError)
        else if GetAttr(objs, target.value, b).Err? then Err(AttributeError)
        else Ok((GetAttr(objs, target.value, b).value, c))
  {
    var s := a + "." + b + "." + c;
    SplitConcat(b, '.', c);
    assert s == a + ['.'] + (b + ['.'] + c);
    SplitConcat(a, '.', b + ['.'] + c);
    SplitNoSep(c, '.');
    var fields := Split(s, '.');
    assert fields == [a, b, c];
    assert fields[..|fields| - 1] == [a, b];
    var target := GetAttr(objs, obj, a);
    if target.Ok? {
      assert [a, b][1..] == [b];
      assert Walk(objs, obj, [a, b]) == Walk(objs, target.value, [b]);
      assert [b][1..] == [];
      var next := GetAttr(objs, target.value, b);
      if next.Ok? {
        assert Walk(objs, target.value, [b]) == Walk(objs, next.value, []);
      }
    }
    assert fields[|fields| - 1] == c;
  }

  // ---------------------------------------------------------------------------
  // ChainedAssignment

  /** `pd.options.mode`: the one pandas option this module touches. */
  class PandasOptions {
    var chainedAssignment: PyValue

    constructor (chainedAssignment: PyValue)
      ensures this.chainedAssignment == chainedAssignment
    {
      this.chainedAssignment := chainedAssignment;
    }
  }

  /** `ChainedAssignment.acceptable` */
  const Acceptable: seq<PyValue> := [PyNone, PyStr("warn"), PyStr("raise")]

  /** The constructor's check on `action`. */
  function CheckAction(action: PyValue): (r: Result<PyValue>)
    ensures r.Ok? <==> action == PyNone || action == PyStr("warn") || action == PyStr("raise")
    ensures r.Ok? ==> r.value == action
    ensures r.Err? ==> r.error == AttributeError
  {
    if action in Acceptable then Ok(action) else Err(AttributeError)
  }

  /** A context manager that installs a value of `mode.chained_assignment` for a block. */
  class ChainedAssignment {
    const action: PyValue
    var previous: PyValue

    constructor (action: PyValue)
      requires CheckAction(action).Ok?
      ensures this.action == action && previous == PyNone
    {
      this.action := action;
      previous := PyNone;
    }

    /** `ChainedAssignment(action)`, which raises AttributeError for an unacceptable action. */
    static method New(action: PyValue) returns (r: Result<ChainedAssignment>)
      ensures r.Err? <==> CheckAction(action).Err?
      ensures r.Err? ==> r.error == AttributeError
      ensures r.Ok? ==> fresh(r.value) && r.value.action == action && r.value.previous == PyNone
    {
      var checked := CheckAction(action);
      if checked.Err? {
        return Err(checked.error);
      }
      var c := new ChainedAssignment(action);
      r := Ok(c);
    }

    /** `__enter__`: remember the current option, install `action`. */
    method Enter(opts: PandasOptions)
      modifies this, opts
      ensures previous == old(opts.chainedAssignment)
      ensures opts.chainedAssignment == action
    {
      previous := opts.chainedAssignment;
      opts.chainedAssignment := action;
    }

    /** `__exit__`: put the remembered value back. */
    method Exit(opts: PandasOptions)
      modifies opts
      ensures opts.chainedAssignment == previous
    {
      opts.chainedAssignment := previous;
    }
  }

  /** `with ChainedAssignment(action): body`: the body sees `action` and ends by returning or
      raising, leaving the option at some value; `__exit__` runs in both cases, so afterwards
      the option is what it was before. An unacceptable action raises before the block. */
  method WithChainedAssignment<R>(opts: PandasOptions, action: PyValue, body: PyValue -> (CallOutcome<R>, PyValue))
    returns (r: Result<CallOutcome<R>>)
    modifies opts
    ensures r.Err? <==> CheckAction(action).Err?
    ensures r.Err? ==> r.error == AttributeError && unchanged(opts)
    ensures r.Ok? ==> r.value == body(action).0
    ensures opts.chainedAssignment == old(opts.chainedAssignment)
  {
    var ca := ChainedAssignment.New(action);
    if ca.Err? {
      return Err(ca.error);
    }
    var c := ca.value;
    c.Enter(opts);
    var (outcome, left) := body(opts.chainedAssignment);
    // What the block set the option to, until `__exit__`, whether it returned or raised.
    opts.chainedAssignment := left;
    r := Ok(outcome);
    c.Exit(opts);
  }

  // ---------------------------------------------------------------------------
  // The decorators

  /** `ignore_pandas_chained_assignment(func)(*args)`: `func` runs with the option at `None`.
      It sees that value as its first parameter. The old value comes back only when `func`
      returns: there is no `finally`. */
  method IgnorePandasChained<A, R>(opts: PandasOptions, func: (PyValue, A) -> CallOutcome<R>, args: A)
    returns (r: CallOutcome<R>)
    modifies opts
    ensures r == func(PyNone, args)
    ensures r.Returned? ==> opts.chainedAssignment == old(opts.chainedAssignment)
    ensures r.Raised? ==> opts.chainedAssignment == PyNone
  {
    var previous := opts.chainedAssignment;
    opts.chainedAssignment := PyNone;
    r := func(opts.chainedAssignment, args);
    if r.Raised? {
      return;
    }
    opts.chainedAssignment := previous;
  }

  /** A warning as `warnings.warn` receives it. */
  datatype Warning = Warning(category: string, message: string)

  /** What a call to a wrapped function does: its outcome and the warnings it issues. */
  datatype Call<R> = Call(outcome: CallOutcome<R>, warnings: seq<Warning>)

  /** The process-wide warning filters, reduced to "ignore everything" or not, and the
      warnings that got through. */
  class WarningFilters {
    var ignoreAll: bool
    var shown: seq<Warning>

    constructor ()
      ensures !ignoreAll && shown == []
    {
      ignoreAll := false;
      shown := [];
    }

    /** `warnings.warn` for each of `ws`, in order. */
    method Warn(ws: seq<Warning>)
      modifies this
      ensures ignoreAll == old(ignoreAll)
      ensures shown == old(shown) + Shown(ignoreAll, ws)
    {
      shown := shown + Shown(ignoreAll, ws);
    }
  }

  /** The warnings that an "ignore" filter lets through: none. */
  function Shown(ignoreAll: bool, ws: seq<Warning>): (r: seq<Warning>)
    ensures ignoreAll ==> r == []
    ensures !ignoreAll ==> r == ws
  {
    if ignoreAll then [] else ws
  }

  /** The message `warn_deprecated` issues for a function called `name`. */
  function DeprecationMessage(name: string): string
  {
    "Function " + name + " is deprecated and will be removed later!"
  }

  /** The message names the function it is about. */
  lemma DeprecationMessageNames(name: string)
    ensures var m := DeprecationMessage(name);
      |m| == |name| + 50 && m[9..9 + |name|] == name
  {
  }

  /** `warn_deprecated(func)(*args)`: one UserWarning, then whatever `func` does. */
  method WarnDeprecated<A, R>(filters: WarningFilters, name: string, func: A -> Call<R>, args: A)
    returns (r: CallOutcome<R>)
    modifies filters
    ensures r == func(args).outcome
    ensures filters.ignoreAll == old(filters.ignoreAll)
    ensures filters.shown == old(filters.shown)
      + Shown(filters.ignoreAll, [Warning("UserWarning", DeprecationMessage(name))] + func(args).warnings)
  {
    filters.Warn([Warning("UserWarning", DeprecationMessage(name))]);
    var call := func(args);
    filters.Warn(call.warnings);
    r := call.outcome;
  }

  /** `ignore_warnings(func)(*args)`: `func` runs under an "ignore" filter, the filters are
      restored on the way out (also when `func` raises), and the wrapper returns `None`. */
  method IgnoreWarnings<A, R>(filters: WarningFilters, func: A -> Call<R>, args: A)
    returns (r: CallOutcome<PyValue>)
    modifies filters
    ensures func(args).outcome.Returned? ==> r == Returned(PyNone)
    ensures func(args).outcome.Raised? ==> r == Raised(func(args).outcome.error)
    ensures filters.ignoreAll == old(filters.ignoreAll)
    ensures filters.shown == old(filters.shown)
  {
    var saved := filters.ignoreAll;
    filters.ignoreAll := true;
    var call := func(args);
    filters.Warn(call.warnings);
    filters.ignoreAll := saved;
    if call.outcome.Raised? {
      return Raised(call.outcome.error);
    }
    r := Returned(PyNone);
  }
}
