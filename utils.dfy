/** `split_list` and `flatten_iter` (pysimple/utils.py). */
module Utils {
  import opened Py

  /** `flatten_iter`: the inner items, in order. */
  function Flatten<T>(xss: seq<seq<T>>): seq<T>
  {
    if xss == [] then [] else xss[0] + Flatten(xss[1..])
  }

  /** Flattening distributes over concatenation of the outer list. */
  lemma {:induction false} FlattenAppend<T>(a: seq<seq<T>>, b: seq<seq<T>>)
    ensures Flatten(a + b) == Flatten(a) + Flatten(b)
  {
    if a == [] {
      assert a + b == b;
    } else {
      assert (a + b)[1..] == a[1..] + b;
      FlattenAppend(a[1..], b);
    }
  }

  /** The flattened list has as many items as the inner lists together, and it
      lists item `j` of inner list `i` right after everything before it. */
  lemma {:induction false} FlattenIndex<T>(xss: seq<seq<T>>, i: nat, j: nat)
    requires i < |xss| && j < |xss[i]|
    ensures |Flatten(xss[..i])| + j < |Flatten(xss)|
    ensures Flatten(xss)[|Flatten(xss[..i])| + j] == xss[i][j]
  {
    assert xss == xss[..i] + [xss[i]] + xss[i + 1..];
    FlattenAppend(xss[..i] + [xss[i]], xss[i + 1..]);
    FlattenAppend(xss[..i], [xss[i]]);
    assert Flatten([xss[i]]) == xss[i] + Flatten([]);
  }

  /** Python's `//` (floor division); Dafny's `/` is Euclidean and differs for negative divisors. */
  function FloorDiv(n: int, d: int): (q: int)
    requires d != 0
    ensures d > 0 ==> q * d <= n < q * d + d
    ensures d < 0 ==> q * d + d < n <= q * d
  {
    if d > 0 || n % d == 0 then n / d else n / d - 1
  }

  /** A slice bound as Python normalises it for step 1: negative counts from the end, then clamped to [0, n]. */
  function SliceBound(i: int, n: nat): (b: nat)
    ensures b <= n
    ensures 0 <= i <= n ==> b == i
  {
    if i < 0 then (if i + n < 0 then 0 else i + n) else if i > n then n else i
  }

  /** `items[a:b]` with Python's slice semantics. */
  function PySlice<T>(items: seq<T>, a: int, b: int): seq<T>
  {
    var lo, hi := SliceBound(a, |items|), SliceBound(b, |items|);
    if lo < hi then items[lo..hi] else []
  }

  /** `np.arange(n)[::k]` for k > 0: 0, k, 2k, ... below n. */
  function Ascending(start: nat, n: nat, k: nat): seq<int>
    requires k > 0
    decreases n - start
  {
    if start >= n then [] else [start] + Ascending(start + k, n, k)
  }

  /** `np.arange(n)[::-k]` for k > 0: n-1, n-1-k, ... down to 0. */
  function Descending(start: int, k: nat): seq<int>
    requires k > 0
    decreases start + 1
  {
    if start < 0 then [] else [start] + Descending(start - k, k)
  }

  /** `np.arange(n)[::step]`; a zero step raises ValueError. */
  function Strided(n: nat, step: int): Result<seq<int>>
  {
    if step > 0 then Ok(Ascending(0, n, step))
    else if step < 0 then Ok(Descending(n - 1, -step))
    else Err(ValueError)
  }

  /** The boundary list `split_pos` of `split_list`, or the exception raised while building it. */
  function SplitPositions(n: nat, splits: Option<seq<int>>, nSplits: Option<int>, splitSize: Option<int>)
    : Result<seq<int>>
  {
    if splits.Some? then
      Ok([0] + splits.value + [n])
    else if nSplits.Some? || splitSize.Some? then
      if splitSize.None? && nSplits.value == 0 then Err(ZeroDivisionError)
      else
        var size := if splitSize.Some? then splitSize.value else FloorDiv(n, nSplits.value);
        var pos :- Strided(n, size);
        Ok(pos + [n])
    else
      Err(TypeError)
  }

  /** The slices between consecutive boundaries: `zip(split_pos[:-1], split_pos[1:])`. */
  function Chunks<T>(items: seq<T>, pos: seq<int>): (r: seq<seq<T>>)
    ensures |pos| >= 1 ==> |r| == |pos| - 1
    ensures |pos| < 2 ==> r == []
    ensures |pos| >= 2 ==> forall i :: 0 <= i < |pos| - 1 ==> r[i] == PySlice(items, pos[i], pos[i + 1])
  {
    if |pos| < 2 then [] else [PySlice(items, pos[0], pos[1])] + Chunks(items, pos[1..])
  }

  /** `list(split_list(items, splits, n_splits, split_size))` */
  function SplitList<T>(items: seq<T>, splits: Option<seq<int>>, nSplits: Option<int>, splitSize: Option<int>)
    : Result<seq<seq<T>>>
  {
    var pos :- SplitPositions(|items|, splits, nSplits, splitSize);
    Ok(Chunks(items, pos))
  }

  // ---------------------------------------------------------------------------
  // Explicit boundaries

  /** Explicit `splits` win over `n_splits` and `split_size`; they give one chunk more than
      there are boundaries, chunk i running from boundary i to boundary i+1 of [0] + splits + [n]. */
  lemma ExplicitSplits<T>(items: seq<T>, splits: seq<int>, nSplits: Option<int>, splitSize: Option<int>)
    ensures SplitList(items, Some(splits), nSplits, splitSize) == SplitList(items, Some(splits), None, None)
    ensures var r := SplitList(items, Some(splits), nSplits, splitSize);
      var p := [0] + splits + [|items|];
      && r.Ok?
      && |r.value| == |splits| + 1
      && forall i :: 0 <= i < |r.value| ==> r.value[i] == PySlice(items, p[i], p[i + 1])
  {
  }

  /** An empty `splits` yields the whole list as the one chunk. */
  lemma EmptySplits<T>(items: seq<T>)
    ensures SplitList(items, Some([]), None, None) == Ok([items])
  {
    assert [0] + [] + [|items|] == [0, |items|];
    var r := Chunks(items, [0, |items|]);
    assert |r| == 1 && r[0] == PySlice(items, 0, |items|) == items;
    assert r == [items];
  }

  /** Splitting `[1, 2, 3, 4, 5]` at `[0, 2, 4]` gives `[[], [1, 2], [3, 4], [5]]`. */
  lemma ExplicitSplitsExample()
    ensures SplitList([1, 2, 3, 4, 5], Some([0, 2, 4]), None, None) == Ok([[], [1, 2], [3, 4], [5]])
  {
    var items := [1, 2, 3, 4, 5];
    assert [0] + [0, 2, 4] + [5] == [0, 0, 2, 4, 5];
    var r := Chunks(items, [0, 0, 2, 4, 5]);
    assert r[0] == PySlice(items, 0, 0) == [];
    assert r[1] == PySlice(items, 0, 2) == items[0..2];
    assert items[0..2] == [1, 2];
    assert r[2] == PySlice(items, 2, 4) == items[2..4];
    assert items[2..4] == [3, 4];
    assert r[3] == PySlice(items, 4, 5) == items[4..5];
    assert items[4..5] == [5];
    assert |r| == 4;
    assert r == [[], [1, 2], [3, 4], [5]];
  }

  predicate NonDecreasing(pos: seq<int>)
  {
    forall i, j :: 0 <= i <= j < |pos| ==> pos[i] <= pos[j]
  }

  /** The chunks between non-decreasing in-range boundaries concatenate to the slice they span. */
  lemma {:induction false} FlattenChunks<T>(items: seq<T>, pos: seq<int>)
    requires |pos| >= 1 && NonDecreasing(pos)
    requires forall i :: 0 <= i < |pos| ==> 0 <= pos[i] <= |items|
    ensures Flatten(Chunks(items, pos)) == items[pos[0]..pos[|pos| - 1]]
  {
    if |pos| >= 2 {
      FlattenChunks(items, pos[1..]);
      assert Chunks(items, pos) == [PySlice(items, pos[0], pos[1])] + Chunks(items, pos[1..]);
      assert items[pos[0]..pos[|pos| - 1]] == items[pos[0]..pos[1]] + items[pos[1]..pos[|pos| - 1]];
    }
  }

  /** With non-decreasing explicit boundaries inside [0, n], concatenating the chunks gives back the items. */
  lemma ExplicitSplitsRoundTrip<T>(items: seq<T>, splits: seq<int>)
    requires NonDecreasing(splits)
    requires forall i :: 0 <= i < |splits| ==> 0 <= splits[i] <= |items|
    ensures var r := SplitList(items, Some(splits), None, None);
      r.Ok? && Flatten(r.value) == items
  {
    var p := [0] + splits + [|items|];
    assert forall i :: 1 <= i < |p| - 1 ==> p[i] == splits[i - 1];
    FlattenChunks(items, p);
  }

  // ---------------------------------------------------------------------------
  // Fixed chunk size

  lemma MulDistrib(i: int, k: int)
    ensures (i + 1) * k == i * k + k
  {
  }

  lemma MulMono(i: nat, j: nat, k: nat)
    requires i <= j
    ensures i * k <= j * k
  {
  }

  lemma MulAtLeast(d: int, k: int)
    requires d >= 1 && k > 0
    ensures d * k >= k
  {
  }

  /** Euclidean division is determined by quotient and remainder. */
  lemma DivUnique(a: int, k: int, q: int, r: int)
    requires k > 0 && 0 <= r < k && a == q * k + r
    ensures a / k == q
  {
    var q', r' := a / k, a % k;
    assert a == q' * k + r';
    assert (q - q') * k == r' - r;
    if q > q' {
      MulAtLeast(q - q', k);
    } else if q < q' {
      MulAtLeast(q' - q, k);
    }
  }

  /** `Ascending(start, n, k)` lists start, start + k, ... : as many k-steps as fit below n. */
  lemma {:induction false} AscendingAt(start: nat, n: nat, k: nat)
    requires k > 0
    ensures var a := Ascending(start, n, k);
      && (forall i :: 0 <= i < |a| ==> a[i] == start + i * k)
      && (start >= n ==> |a| == 0)
      && (start < n ==> |a| >= 1 && start + (|a| - 1) * k < n <= start + |a| * k)
    decreases n - start
  {
    if start < n {
      var a, rest := Ascending(start, n, k), Ascending(start + k, n, k);
      AscendingAt(start + k, n, k);
      if rest != [] {
        MulDistrib(|rest| - 1, k);
        MulDistrib(|rest|, k);
      }
      forall i | 1 <= i < |a|
        ensures a[i] == start + i * k
      {
        assert a[i] == rest[i - 1];
        MulDistrib(i - 1, k);
      }
    }
  }

  /** The number of k-steps that cover n > 0 items is ceil(n / k). */
  function CeilDiv(n: nat, k: nat): nat
    requires k > 0
  {
    (n + k - 1) / k
  }

  lemma CeilCount(n: nat, k: nat, m: nat)
    requires k > 0 && m >= 1 && (m - 1) * k < n <= m * k
    ensures m == CeilDiv(n, k)
  {
    MulDistrib(m - 1, k);
    DivUnique(n + k - 1, k, m, n + k - 1 - m * k);
  }

  /** Where chunk i of a fixed-size split starts and ends. */
  lemma ChunkSpan(n: nat, k: nat, m: nat, i: nat)
    requires k >= 1 && m >= 1 && (m - 1) * k < n <= m * k && i < m
    ensures i * k < n
    ensures (i + 1) * k == i * k + k
    ensures i < m - 1 ==> (i + 1) * k < n
    ensures i == m - 1 ==> n <= (i + 1) * k
  {
    MulDistrib(i, k);
    MulMono(i, m - 1, k);
    if i < m - 1 {
      MulMono(i + 1, m - 1, k);
    }
  }

  function Min(a: int, b: int): int
  {
    if a < b then a else b
  }

  /** With `split_size = k >= 1`, chunk i is items[i*k .. min((i+1)*k, n)]: there are ceil(n/k)
      chunks, all but the last hold exactly k items, the last holds 1..k, and nothing is lost. */
  lemma SplitSize<T>(items: seq<T>, k: nat, nSplits: Option<int>)
    requires k >= 1
    ensures var r := SplitList(items, None, nSplits, Some(k));
      && r.Ok?
      && (|items| == 0 ==> r.value == [])
      && (|items| > 0 ==> |r.value| == CeilDiv(|items|, k))
      && (forall i :: 0 <= i < |r.value| ==> i * k < |items| && r.value[i] == items[i * k..Min((i + 1) * k, |items|)])
      && (forall i :: 0 <= i < |r.value| - 1 ==> |r.value[i]| == k)
      && (|items| > 0 ==> 1 <= |r.value[|r.value| - 1]| <= k)
      && Flatten(r.value) == items
  {
    var n := |items|;
    var asc := Ascending(0, n, k);
    AscendingAt(0, n, k);
    var p := asc + [n];
    assert SplitPositions(n, None, nSplits, Some(k)) == Ok(p);
    var r := Chunks(items, p);
    assert SplitList(items, None, nSplits, Some(k)) == Ok(r);
    if n > 0 {
      CeilCount(n, k, |asc|);
      SizeChunks(items, k, p);
      SizePositionsNonDecreasing(n, k, p);
      FlattenChunks(items, p);
    } else {
      assert p == [0] && r == [];
    }
  }

  /** Chunk i of a fixed-size split starts at i * k; all but the last hold k items. */
  lemma SizeChunks<T>(items: seq<T>, k: nat, p: seq<int>)
    requires k >= 1 && |items| > 0 && p == Ascending(0, |items|, k) + [|items|]
    ensures var r, m, n := Chunks(items, p), |p| - 1, |items|;
      && |r| == m
      && (forall i :: 0 <= i < m ==> i * k < n && r[i] == items[i * k..Min((i + 1) * k, n)])
      && (forall i :: 0 <= i < m - 1 ==> |r[i]| == k)
      && 1 <= |r[m - 1]| <= k
  {
    var n := |items|;
    AscendingAt(0, n, k);
    var r, m := Chunks(items, p), |p| - 1;
    forall i | 0 <= i < m
      ensures i * k < n && r[i] == items[i * k..Min((i + 1) * k, n)]
      ensures i < m - 1 ==> |r[i]| == k
      ensures i == m - 1 ==> 1 <= |r[i]| <= k
    {
      ChunkSpan(n, k, m, i);
      assert p[i] == i * k;
      assert p[i + 1] == Min((i + 1) * k, n);
    }
  }

  /** The cut positions of a fixed-size split never go down. */
  lemma SizePositionsNonDecreasing(n: nat, k: nat, p: seq<int>)
    requires k >= 1 && n > 0 && p == Ascending(0, n, k) + [n]
    ensures NonDecreasing(p)
  {
    AscendingAt(0, n, k);
    var m := |p| - 1;
    forall i, j | 0 <= i <= j < |p| ensures p[i] <= p[j] {
      if j < m {
        MulMono(i, j, k);
      } else if i < m {
        ChunkSpan(n, k, m, i);
      }
    }
  }

  /** `split_size = 2` on `[1, 2, 3, 4, 5]` gives `[[1, 2], [3, 4], [5]]`. */
  lemma SplitSizeExample()
    ensures SplitList([1, 2, 3, 4, 5], None, None, Some(2)) == Ok([[1, 2], [3, 4], [5]])
  {
    var items := [1, 2, 3, 4, 5];
    SplitSize(items, 2, None);
    assert CeilDiv(5, 2) == 3;
    var r := SplitList(items, None, None, Some(2)).value;
    assert |r| == 3;
    assert r[0] == items[0..Min(2, 5)] == [1, 2];
    assert r[1] == items[2..Min(4, 5)] == [3, 4];
    assert r[2] == items[2 * 2..Min((2 + 1) * 2, 5)];
    assert r[2] == items[4..5] == [5];
    assert r == [[1, 2], [3, 4], [5]];
  }

  // ---------------------------------------------------------------------------
  // Number of splits, and missing arguments

  /** With only `n_splits`, the chunk size is `n // n_splits`: a positive `n_splits` no larger
      than n behaves as that chunk size; a larger one makes the step 0 (ValueError); 0 divides by zero. */
  lemma NSplits<T>(items: seq<T>, nSplits: int)
    ensures nSplits == 0 ==> SplitList(items, None, Some(nSplits), None) == Err(ZeroDivisionError)
    ensures nSplits > |items| ==> SplitList(items, None, Some(nSplits), None) == Err(ValueError)
    ensures 1 <= nSplits <= |items| ==>
      SplitList(items, None, Some(nSplits), None) == SplitList(items, None, None, Some(|items| / nSplits))
  {
  }

  /** An empty list with `n_splits = 10` has chunk size `0 // 10 == 0`, and a zero step raises
      ValueError rather than yielding one empty chunk. */
  lemma EmptyTenSplits()
    ensures SplitList<int>([], None, Some(10), None) == Err(ValueError)
  {
    NSplits<int>([], 10);
  }

  /** `n_splits = 1` on a non-empty list yields the whole list as one chunk. */
  lemma OneSplit<T>(items: seq<T>)
    requires |items| > 0
    ensures SplitList(items, None, Some(1), None) == Ok([items])
  {
    NSplits(items, 1);
    SplitSize(items, |items|, None);
    CeilCount(|items|, |items|, 1);
    var r := SplitList(items, None, None, Some(|items|)).value;
    assert |r| == 1 && r[0] == items[0..Min(|items|, |items|)] == items;
    assert r == [items];
  }

  /** With neither `splits` nor `n_splits` nor `split_size`, split_list raises TypeError. */
  lemma NoCriterion<T>(items: seq<T>)
    ensures SplitList(items, None, None, None) == Err(TypeError)
  {
  }

  /** Every successful split is ordered: concatenating the chunks of a positive
      chunk size, or of sorted in-range explicit boundaries, gives back the items. */
  lemma SplitPreservesOrder<T>(items: seq<T>, splits: Option<seq<int>>, nSplits: Option<int>, splitSize: Option<int>)
    requires splits.Some? ==> NonDecreasing(splits.value) && forall i :: 0 <= i < |splits.value| ==> 0 <= splits.value[i] <= |items|
    requires splits.None? && splitSize.Some? ==> splitSize.value >= 1
    requires splits.None? && splitSize.None? && nSplits.Some? ==> 1 <= nSplits.value
    ensures var r := SplitList(items, splits, nSplits, splitSize);
      r.Ok? || (splits.None? && splitSize.None?)
    ensures var r := SplitList(items, splits, nSplits, splitSize);
      r.Ok? ==> Flatten(r.value) == items
  {
    if splits.Some? {
      ExplicitSplitsRoundTrip(items, splits.value);
    } else if splitSize.Some? {
      SplitSize(items, splitSize.value, nSplits);
    } else if nSplits.Some? {
      if nSplits.value <= |items| {
        NSplits(items, nSplits.value);
        SplitSize(items, |items| / nSplits.value, None);
      } else {
        NSplits(items, nSplits.value);
      }
    }
  }
}
