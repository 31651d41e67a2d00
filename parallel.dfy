/** `map_reduce` and its progress protocol (pysimple/parallel.py), as a sequential trace:
    the pool is an order-preserving map whose tasks finish in an arbitrary order, and the
    progress listener drains the queue after the pool is done. */
module Parallel {
  import opened Py

  /** A Python value as `map_reduce` sees it: a tuple, another iterable (a list, a string, a
      generator, ...) given by the values it yields, or a value that cannot be iterated. */
  datatype Value<A> = Atom(a: A) | Tuple(elems: seq<Value<A>>) | Iter(elems: seq<Value<A>>)

  /** `*v` in a call accepts any iterable. */
  predicate Unpackable<A>(v: Value<A>)
  {
    !v.Atom?
  }

  // ---------------------------------------------------------------------------
  // Input normalisation

  /** Lines 28-29: unless the first input is a tuple, every input becomes a 1-tuple.
      An empty input fails at `inputs[0]`. */
  function Normalize<A>(inputs: seq<Value<A>>): Result<seq<Value<A>>>
  {
    if |inputs| == 0 then Err(IndexError)
    else if inputs[0].Tuple? then Ok(inputs)
    else Ok(seq(|inputs|, i requires 0 <= i < |inputs| => Tuple([inputs[i]])))
  }

  /** `f(*v)`: star-unpacking passes what an iterable yields; a value that cannot be
      iterated raises TypeError. */
  function Args<A>(v: Value<A>): Result<seq<Value<A>>>
  {
    if Unpackable(v) then Ok(v.elems) else Err(TypeError)
  }

  /** Normalisation keeps length and order; the first input alone decides: pre-tupled inputs
      pass through, otherwise input i becomes the single argument of call i. */
  lemma NormalizeArgs<A>(inputs: seq<Value<A>>)
    ensures Normalize(inputs).Ok? <==> |inputs| > 0
    ensures Normalize(inputs).Ok? ==> |Normalize(inputs).value| == |inputs|
    ensures |inputs| > 0 && inputs[0].Tuple? ==>
      forall i :: 0 <= i < |inputs| ==> Args(Normalize(inputs).value[i]) == Args(inputs[i])
    ensures |inputs| > 0 && !inputs[0].Tuple? ==>
      forall i :: 0 <= i < |inputs| ==> Args(Normalize(inputs).value[i]) == Ok([inputs[i]])
  {
  }

  /** Normalising twice is normalising once: a normalised list always starts with a tuple. */
  lemma NormalizeIdempotent<A>(inputs: seq<Value<A>>)
    requires |inputs| > 0
    ensures Normalize(Normalize(inputs).value) == Normalize(inputs)
  {
  }

  // ---------------------------------------------------------------------------
  // The map

  /** Line 51, `[map_func(*inp) for inp in inputs]`: output i is `f` of what input i unpacks
      to; the first input that cannot be iterated raises TypeError. (Keyword options are
      folded into `f`.) */
  function MapAll<A, B>(f: seq<Value<A>> -> B, items: seq<Value<A>>): (r: Result<seq<B>>)
    ensures r.Ok? <==> forall i :: 0 <= i < |items| ==> Unpackable(items[i])
    ensures r.Err? ==> r.error == TypeError
    ensures r.Ok? ==> |r.value| == |items| && forall i :: 0 <= i < |items| ==> r.value[i] == f(Args(items[i]).value)
  {
    if items == [] then Ok([])
    else if !Unpackable(items[0]) then Err(TypeError)
    else
      var rest :- MapAll(f, items[1..]);
      Ok([f(items[0].elems)] + rest)
  }

  // ---------------------------------------------------------------------------
  // Progress protocol

  /** What travels on the progress queue: `Done` is the per-item token (`__SENTINEL__ = 1`),
      `Stop` is the `None` that ends the listener. */
  datatype Token = Done | Stop

  /** `n` per-item tokens. */
  function Dones(n: nat): (ts: seq<Token>)
    ensures |ts| == n && Stop !in ts
  {
    if n == 0 then [] else Dones(n - 1) + [Done]
  }

  /** The number of bar updates a listener performs on a queue: the tokens before the first `Stop`. */
  function Updates(ts: seq<Token>): nat
  {
    if ts == [] || ts[0] == Stop then 0 else 1 + Updates(ts[1..])
  }

  /** What is left on the queue once the listener has taken the first `Stop`. */
  function AfterStop(ts: seq<Token>): seq<Token>
    requires Stop in ts
  {
    if ts[0] == Stop then ts[1..] else AfterStop(ts[1..])
  }

  /** After n per-item tokens and the terminator, the listener counts exactly n updates
      and leaves the queue empty. */
  lemma {:induction false} UpdatesAfterDones(n: nat)
    ensures Updates(Dones(n) + [Stop]) == n
    ensures AfterStop(Dones(n) + [Stop]) == []
  {
    if n > 0 {
      UpdatesAfterDones(n - 1);
      DonesPrepend(n - 1);
      assert Dones(n) + [Stop] == [Done] + (Dones(n - 1) + [Stop]);
      assert (Dones(n) + [Stop])[1..] == Dones(n - 1) + [Stop];
    }
  }

  lemma {:induction false} DonesPrepend(n: nat)
    ensures Dones(n + 1) == [Done] + Dones(n)
  {
    if n > 0 {
      DonesPrepend(n - 1);
    }
  }

  /** The Manager queue shared by the workers and the listener. */
  class ProgressQueue {
    var items: seq<Token>

    constructor ()
      ensures items == []
    {
      items := [];
    }

    method Put(t: Token)
      modifies this
      ensures items == old(items) + [t]
    {
      items := items + [t];
    }

    /** A blocking `get`; the model only calls it when a token is waiting. */
    method Get() returns (t: Token)
      requires items != []
      modifies this
      ensures t == old(items)[0] && items == old(items)[1..]
    {
      t := items[0];
      items := items[1..];
    }
  }

  /** `_map_func_wrapper` (lines 11-14): the result of `f`, unchanged, and one token on the queue. */
  method WrappedCall<A, B>(f: seq<Value<A>> -> B, args: seq<Value<A>>, que: ProgressQueue) returns (res: B)
    modifies que
    ensures res == f(args)
    ensures que.items == old(que.items) + [Done]
  {
    res := f(args);
    que.Put(Done);
  }

  /** `_tqdm_listener` (lines 17-20): one bar update per token up to the first `None`. */
  method Listen(que: ProgressQueue) returns (updates: nat)
    requires Stop in que.items
    modifies que
    ensures updates == Updates(old(que.items))
    ensures que.items == AfterStop(old(que.items))
  {
    updates := 0;
    while true
      invariant Stop in que.items
      invariant updates + Updates(que.items) == Updates(old(que.items))
      invariant AfterStop(que.items) == AfterStop(old(que.items))
      decreases |que.items|
    {
      var t := que.Get();
      if t == Stop {
        return;
      }
      updates := updates + 1;
    }
  }

  // ---------------------------------------------------------------------------
  // The pool

  /** The order in which the pool's tasks finish: a permutation of the input positions. */
  predicate IsSchedule(schedule: seq<nat>, n: nat)
  {
    && |schedule| == n
    && (forall k :: 0 <= k < n ==> schedule[k] < n)
    && (forall j :: 0 <= j < n ==> j in schedule)
    && (forall k, l :: 0 <= k < l < n ==> schedule[k] != schedule[l])
  }

  /** Some input fails to unpack exactly when some task, in the order they finish, meets one. */
  lemma ScheduleFailure<A>(items: seq<Value<A>>, schedule: seq<nat>)
    requires IsSchedule(schedule, |items|)
    ensures (exists m :: 0 <= m < |items| && !Unpackable(items[schedule[m]]))
        <==> (exists j :: 0 <= j < |items| && !Unpackable(items[j]))
  {
    if j :| 0 <= j < |items| && !Unpackable(items[j]) {
      assert j in schedule;
      var m :| 0 <= m < |schedule| && schedule[m] == j;
    }
  }

  /** The slots after the tasks in `done` have run: each input that unpacks holds `f` of its elements. */
  function Filled<A, B>(f: seq<Value<A>> -> B, items: seq<Value<A>>, done: seq<nat>): (r: seq<Option<B>>)
    ensures |r| == |items|
    decreases |done|
  {
    if done == [] then seq(|items|, _ => None)
    else
      var rest, j := Filled(f, items, done[..|done| - 1]), done[|done| - 1];
      if j < |items| && Unpackable(items[j]) then rest[j := Some(f(items[j].elems))] else rest
  }

  /** Slot `j` is filled exactly when task `j` has run and its input unpacks. */
  lemma {:induction false} FilledAt<A, B>(f: seq<Value<A>> -> B, items: seq<Value<A>>, done: seq<nat>, j: nat)
    requires j < |items|
    ensures Filled(f, items, done)[j] == if j in done && Unpackable(items[j]) then Some(f(items[j].elems)) else None
  {
    if done != [] {
      var init := done[..|done| - 1];
      assert done == init + [done[|done| - 1]];
      FilledAt(f, items, init, j);
    }
  }

  /** Every task in `done` met an input that unpacks. */
  predicate AllUnpack<A>(items: seq<Value<A>>, done: seq<nat>)
    decreases |done|
  {
    done == [] || (AllUnpack(items, done[..|done| - 1]) && done[|done| - 1] < |items| && Unpackable(items[done[|done| - 1]]))
  }

  lemma {:induction false} AllUnpackIff<A>(items: seq<Value<A>>, done: seq<nat>)
    ensures AllUnpack(items, done) <==> forall m :: 0 <= m < |done| ==> done[m] < |items| && Unpackable(items[done[m]])
  {
    if done != [] {
      var init := done[..|done| - 1];
      AllUnpackIff(items, init);
      assert forall m :: 0 <= m < |init| ==> init[m] == done[m];
    }
  }

  /** One worker task (lines 42-43): when input `i` unpacks, its slot receives `f` of its
      elements and, with a queue, one token is put; otherwise nothing changes. */
  method RunTask<A, B>(f: seq<Value<A>> -> B, items: seq<Value<A>>, i: nat, que: ProgressQueue?,
                       slots: array<Option<B>>)
    requires i < slots.Length == |items|
    modifies slots, que
    ensures slots[..] == if Unpackable(items[i]) then old(slots[..])[i := Some(f(items[i].elems))] else old(slots[..])
    ensures que != null ==> que.items == old(que.items) + if Unpackable(items[i]) then [Done] else []
  {
    if Unpackable(items[i]) {
      var out;
      if que != null {
        out := WrappedCall(f, items[i].elems, que);
      } else {
        out := f(items[i].elems);
      }
      slots[i] := Some(out);
    }
  }

  /** The pool's workers (lines 42-43): tasks finish in the order `schedule`, and each
      writes its output into the slot of its own position, exactly once. With a queue,
      every task that succeeds puts one token. */
  method RunTasks<A, B>(f: seq<Value<A>> -> B, items: seq<Value<A>>, schedule: seq<nat>, que: ProgressQueue?,
                        slots: array<Option<B>>)
    returns (failed: bool)
    requires IsSchedule(schedule, |items|) && slots.Length == |items|
    requires forall j :: 0 <= j < slots.Length ==> slots[j].None?
    modifies slots, que
    ensures failed <==> exists j :: 0 <= j < |items| && !Unpackable(items[j])
    ensures forall j :: 0 <= j < |items| ==> (slots[j].Some? <==> Unpackable(items[j]))
    ensures forall j :: 0 <= j < |items| && slots[j].Some? ==> slots[j].value == f(items[j].elems)
    ensures que != null && !failed ==> que.items == old(que.items) + Dones(|items|)
  {
    var n := |items|;
    failed := false;
    var ok := 0;
    assert slots[..] == Filled(f, items, []);
    for k := 0 to n
      invariant slots[..] == Filled(f, items, schedule[..k])
      invariant failed <==> !AllUnpack(items, schedule[..k])
      invariant que != null ==> que.items == old(que.items) + Dones(ok)
      invariant !failed ==> ok == k
    {
      var i := schedule[k];
      assert schedule[..k + 1][..k] == schedule[..k];
      RunTask(f, items, i, que, slots);
      if Unpackable(items[i]) {
        ok := ok + 1;
      } else {
        failed := true;
      }
    }
    assert schedule[..n] == schedule;
    AllUnpackIff(items, schedule);
    forall j | 0 <= j < n
      ensures slots[j] == if Unpackable(items[j]) then Some(f(items[j].elems)) else None
    {
      FilledAt(f, items, schedule, j);
      assert j in schedule;
    }
    ScheduleFailure(items, schedule);
  }

  /** `Pool.starmap`: the outputs in input positions, or TypeError if some task could not
      unpack its arguments (it unpacks any iterable, as `f(*args)` does). The result does not
      depend on the order the tasks finish in. */
  method Starmap<A, B>(f: seq<Value<A>> -> B, items: seq<Value<A>>, schedule: seq<nat>, que: ProgressQueue?)
    returns (r: Result<seq<B>>)
    requires IsSchedule(schedule, |items|)
    modifies que
    ensures r == MapAll(f, items)
    ensures que != null && r.Ok? ==> que.items == old(que.items) + Dones(|items|)
  {
    var n := |items|;
    var slots := new Option<B>[n](_ => None);
    var failed := RunTasks(f, items, schedule, que, slots);
    if failed {
      r := Err(TypeError);
    } else {
      var outs: seq<B> := [];
      for j := 0 to n
        invariant |outs| == j
        invariant forall m :: 0 <= m < j ==> outs[m] == f(items[m].elems)
      {
        outs := outs + [slots[j].value];
      }
      assert outs == MapAll(f, items).value;
      r := Ok(outs);
    }
  }

  // ---------------------------------------------------------------------------
  // The reduction

  /** The left fold `acc' = g(next_output, acc)` over the outputs in order. */
  function Fold<B, R>(g: (B, R) -> R, acc: R, outs: seq<B>): R
  {
    if outs == [] then acc else Fold(g, g(outs[0], acc), outs[1..])
  }

  /** Every output is folded exactly once, in order: folding a concatenation folds the
      first part and continues from its result. */
  lemma {:induction false} FoldAppend<B, R>(g: (B, R) -> R, acc: R, a: seq<B>, b: seq<B>)
    ensures Fold(g, acc, a + b) == Fold(g, Fold(g, acc, a), b)
  {
    if a == [] {
      assert a + b == b;
    } else {
      assert (a + b)[0] == a[0];
      assert (a + b)[1..] == a[1..] + b;
      FoldAppend(g, g(a[0], acc), a[1..], b);
    }
  }

  /** Lines 55-59: the first output is combined with `reduce_init`, then each further
      output with the running value; this is the left fold seeded with `reduce_init`. */
  method Reduce<B, R>(outputs: seq<B>, g: (B, R) -> R, init: R) returns (acc: R)
    requires |outputs| > 0
    ensures acc == Fold(g, init, outputs)
  {
    acc := g(outputs[0], init);
    for i := 1 to |outputs|
      invariant Fold(g, acc, outputs[i..]) == Fold(g, init, outputs)
    {
      assert outputs[i..][1..] == outputs[i + 1..];
      acc := g(outputs[i], acc);
    }
  }

  // ---------------------------------------------------------------------------
  // map_reduce

  /** What `map_reduce` returns: the output list, or the reduced value. */
  datatype Reduced<B, R> = Outputs(outs: seq<B>) | Folded(acc: R)

  /** The reference meaning of `map_reduce`: normalise, map in input order, then return the
      outputs or fold them from `reduce_init`. */
  function MapReduceSpec<A, B, R>(inputs: seq<Value<A>>, f: seq<Value<A>> -> B, reduce: Option<(B, R) -> R>, init: R)
    : Result<Reduced<B, R>>
  {
    var items :- Normalize(inputs);
    var outs :- MapAll(f, items);
    if reduce.None? then Ok(Outputs(outs)) else Ok(Folded(Fold(reduce.value, init, outs)))
  }

  /** Asking for the bar with several workers and untupled inputs fails at `len(inputs)`,
      because the inputs have become a generator (line 36). */
  predicate LenOfGenerator<A>(inputs: seq<Value<A>>, workers: int, progressBar: bool)
  {
    workers > 1 && progressBar && |inputs| > 0 && !inputs[0].Tuple?
  }

  /** `map_reduce` (lines 23-59). Apart from the `len(generator)` failure, the result is the
      reference meaning whatever the worker count and whatever order the tasks finish in;
      with a bar, a successful call makes exactly one update per input. */
  method MapReduce<A, B, R>(
    inputs: seq<Value<A>>, workers: int, f: seq<Value<A>> -> B, reduce: Option<(B, R) -> R>, init: R,
    progressBar: bool, schedule: seq<nat>)
    returns (r: Result<Reduced<B, R>>, updates: nat)
    requires IsSchedule(schedule, |inputs|)
    ensures LenOfGenerator(inputs, workers, progressBar) ==> r == Err(TypeError)
    ensures !LenOfGenerator(inputs, workers, progressBar) ==> r == MapReduceSpec(inputs, f, reduce, init)
    ensures r.Ok? && progressBar ==> updates == |inputs|
    ensures !progressBar ==> updates == 0
  {
    updates := 0;
    if |inputs| == 0 {
      r := Err(IndexError);
      return;
    }
    var items := Normalize(inputs).value;
    var isGenerator := !inputs[0].Tuple?;
    var res: Result<seq<B>>;
    if workers > 1 {
      if progressBar {
        if isGenerator {
          r := Err(TypeError);
          return;
        }
        var que := new ProgressQueue();
        res := Starmap(f, items, schedule, que);
        if res.Ok? {
          que.Put(Stop);
          assert que.items == Dones(|items|) + [Stop];
          UpdatesAfterDones(|items|);
          updates := Listen(que);
        }
      } else {
        res := Starmap(f, items, schedule, null);
      }
    } else {
      res := MapAll(f, items);
      if progressBar && res.Ok? {
        updates := |res.value|;
      }
    }
    if res.Err? {
      r := Err(res.error);
      return;
    }
    var outs := res.value;
    if reduce.None? {
      r := Ok(Outputs(outs));
    } else {
      var acc := Reduce(outs, reduce.value, init);
      r := Ok(Folded(acc));
    }
  }

  /** Identity over `[1, 2, 3, 4]` folded with `+` from 0 gives 10. */
  lemma SumExample()
    ensures MapReduceSpec([Atom(1), Atom(2), Atom(3), Atom(4)], First, Some(Add), 0) == Ok(Folded(10))
  {
    var items := Normalize([Atom(1), Atom(2), Atom(3), Atom(4)]).value;
    assert items == [Tuple([Atom(1)]), Tuple([Atom(2)]), Tuple([Atom(3)]), Tuple([Atom(4)])];
    var outs := MapAll(First, items).value;
    assert outs[0] == First([Atom(1)]) && outs[1] == First([Atom(2)]);
    assert outs[2] == First([Atom(3)]) && outs[3] == First([Atom(4)]);
    assert outs == [1, 2, 3, 4];
    assert outs[1..] == [2, 3, 4] && outs[2..] == [3, 4] && outs[3..] == [4] && outs[4..] == [];
    assert Fold(Add, 0, outs) == Fold(Add, 1, [2, 3, 4]) == Fold(Add, 3, [3, 4]);
    assert Fold(Add, 3, [3, 4]) == Fold(Add, 6, [4]) == Fold(Add, 10, []) == 10;
  }

  /** Squaring `[1, 2, 3]` without a reducer returns `[1, 4, 9]`. */
  lemma SquareExample()
    ensures MapReduceSpec([Atom(1), Atom(2), Atom(3)], Square, None, 0) == Ok(Outputs([1, 4, 9]))
  {
    var items := Normalize([Atom(1), Atom(2), Atom(3)]).value;
    var outs := MapAll(Square, items).value;
    assert outs == [1, 4, 9];
  }

  /** After a tuple first input, a list is unpacked like a tuple: `[(1,), [2]]` calls `f(1)`
      and `f(2)`; a later input that cannot be iterated makes the whole map fail. */
  lemma IterableExample()
    ensures MapReduceSpec([Tuple([Atom(1)]), Iter([Atom(2)])], First, None, 0) == Ok(Outputs([1, 2]))
    ensures MapReduceSpec([Tuple([Atom(1)]), Atom(2)], First, None, 0) == Err(TypeError)
  {
    var items := [Tuple([Atom(1)]), Iter([Atom(2)])];
    assert Normalize(items) == Ok(items);
    assert MapAll(First, items).value == [1, 2];
  }

  /** The single integer argument of a call, or 0. */
  function First(args: seq<Value<int>>): int
  {
    if |args| == 1 && args[0].Atom? then args[0].a else 0
  }

  function Square(args: seq<Value<int>>): int
  {
    First(args) * First(args)
  }

  function Add(x: int, acc: int): int
  {
    x + acc
  }
}
