# pysimple, modelled in Dafny

pysimple is a small grab-bag of Python helpers. This project models the sequential logic at their
core and proves what the helpers promise:

- `map_reduce` (pysimple/parallel.py):
  - input normalisation, and the order-preserving map, either sequential or through a pool whose
    tasks finish in any order;
  - the left fold with `reduce_init`;
  - the progress-token protocol between the wrapped tasks and the listener.
- `split_list` and `flatten_iter` (pysimple/utils.py), with Python's slice clamping, numpy's
  strided `arange` and floor division written out.
- The save-and-restore helpers of pysimple/sugar.py:
  - `CachedObject`, including `parse_from` over dotted names;
  - `ChainedAssignment`;
  - the decorators `ignore_pandas_chained_assignment`, `warn_deprecated` and `ignore_warnings`.

  The Python object graph is a map from object identity to attribute maps, held by a `Heap` that
  `setattr` changes in place.
- src/pysimple/io.py:
  - the `setdefault` defaulting of `to_tsv`, `from_tsv`, `to_json`, `read_lines` and
    `write_lines`;
  - the `.gz` test on the plain path;
  - `plain_path` as pathlib normalises and absolutises a POSIX path, and `suffix_filename` on
    the result (`name`, `stem`, `suffix`, `with_name`);
  - the `Serializable` shared-attribute registry and its `__getstate__`/`__setstate__`;
  - the skip-field context stack of `dump_pickle`.
- pysimple/io.py: `suffix_filename` on `os.path.splitext`, the `list_hashes` filter, and the
  `to_tsv` definition that is in effect.
- The line encoding of `write_lines`/`read_lines` (identical in both io modules), with universal
  newlines and `rstrip` on reading.
- The `LoggerAdapter` prefix (pysimple/logging.py) and `flatten_text` (pysimple/text.py) on a single
  string.

Modules:

- `Py`: Option, Result, Python exceptions and values.
- `Strings`: `str.isspace`, `endswith`, `split`/`join`, last index.
- `Parallel`, `Utils`, `Sugar`, `SrcIo`, `Io`, `Logging` and `Text`: one per source file.
- `Lines`: the line encoding shared by both io modules.
- `Options`: `setdefault` defaulting.

Where the tests and the code disagree, the model follows the code. For `split_list`, the tests
expect other chunks for `n_splits` 2 and 3 and for `range(100)`. In the code, `n_splits` only
fixes the chunk size `n // n_splits`. The tests also expect `[[]]` for an empty list with
`n_splits=10`, where the code raises ValueError because the chunk size `0 // 10` is 0
(`Utils.EmptyTenSplits`). An empty `inputs` to `map_reduce` fails at `inputs[0]` with
IndexError; the code raises no dedicated empty-input error.

## Model

| member | source | states |
|---|---|---|
| Parallel.NormalizeArgs | pysimple/parallel.py:28-29 | empty input fails (IndexError); length kept; when the first input is a tuple every call gets that input's own elements, otherwise every input becomes the single argument of its call |
| Parallel.NormalizeIdempotent | pysimple/parallel.py:28-29 | normalising an already normalised list changes nothing |
| Parallel.MapAll | pysimple/parallel.py:48-51 | the sequential map succeeds iff every item can be unpacked with `*` (a tuple or another iterable); output i is `f` of item i's elements, same length; otherwise TypeError |
| Parallel.UpdatesAfterDones | pysimple/parallel.py:17-20 | after n item tokens and the `None` terminator, the listener makes exactly n updates and leaves the queue empty |
| Parallel.ProgressQueue.Put | pysimple/parallel.py:13 | `put` appends one token at the end of the queue |
| Parallel.ProgressQueue.Get | pysimple/parallel.py:19 | `get` returns the oldest token and removes it |
| Parallel.WrappedCall | pysimple/parallel.py:11-14 | the wrapper returns `map_func`'s result unchanged and enqueues exactly one item token |
| Parallel.Listen | pysimple/parallel.py:17-20 | the listener updates once per token before the first `None` and consumes up to and including it |
| Parallel.RunTask | pysimple/parallel.py:43 | one task: when input i unpacks, slot i receives `f` of its elements and, with a queue, exactly one token is put; otherwise no slot and no token changes |
| Parallel.FilledAt | pysimple/parallel.py:43 | after a set of tasks has run, slot j holds `f` of input j's elements exactly when task j is among them and input j unpacks, and is empty otherwise |
| Parallel.AllUnpackIff | pysimple/parallel.py:43 | the running "no task has failed" flag holds exactly when every finished task's input unpacks |
| Parallel.ScheduleFailure | pysimple/parallel.py:43 | some task fails in completion order iff some input cannot be unpacked: the completion order does not decide whether the pool fails |
| Parallel.RunTasks | pysimple/parallel.py:42-43 | whatever order the tasks finish in, slot j is filled iff input j can be unpacked, holds `f` of input j's elements, and each successful task puts one token |
| Parallel.Starmap | pysimple/parallel.py:42-43 | the pool's result equals the sequential map for every completion order; with a queue, one token per input on success |
| Parallel.FoldAppend | pysimple/parallel.py:55-59 | the fold uses every output exactly once, in order: folding a concatenation continues from the first part's result |
| Parallel.Reduce | pysimple/parallel.py:55-59 | the reduce loop computes the left fold seeded with `reduce_init` |
| Parallel.MapReduce | pysimple/parallel.py:23-59 | the result equals the reference meaning (normalise, map, return the outputs or fold them) for any worker count and completion order, except the `len(generator)` TypeError with several workers, a bar and untupled inputs; a successful call with a bar makes one update per input |
| Parallel.SumExample | pysimple/parallel.py:53-59 | identity over `[1, 2, 3, 4]` folded with `+` from 0 gives 10 |
| Parallel.IterableExample | pysimple/parallel.py:28-51 | a list among tuples is unpacked like a tuple (`[(1,), [2]]` calls `f(1)` and `f(2)`), while a bare number raises TypeError |
| Parallel.SquareExample | pysimple/parallel.py:53-54 | without a reducer the output list is returned: squares of `[1, 2, 3]` are `[1, 4, 9]` |
| Utils.FlattenAppend | pysimple/utils.py:9-11 | flattening distributes over concatenation |
| Utils.FlattenIndex | pysimple/utils.py:9-11 | item j of inner list i appears in the flattened list right after everything before it |
| Utils.FloorDiv | pysimple/utils.py:30 | Python's `//`: the quotient rounded towards minus infinity, for either sign of divisor |
| Utils.SliceBound | pysimple/utils.py:36 | a slice bound is clamped to [0, n] and in-range bounds are kept |
| Utils.Chunks | pysimple/utils.py:35-36 | one slice per pair of consecutive boundaries, slice i from boundary i to boundary i+1 |
| Utils.ExplicitSplits | pysimple/utils.py:25-26 | explicit `splits` win over `n_splits`/`split_size` and give `len(splits)+1` chunks between the boundaries of `[0] + splits + [n]` |
| Utils.EmptySplits | pysimple/utils.py:26 | empty `splits` give the whole list as one chunk |
| Utils.ExplicitSplitsExample | tests/unit/test_utils.py:65-72 | `[1..5]` split at `[0, 2, 4]` gives `[[], [1, 2], [3, 4], [5]]` |
| Utils.FlattenChunks | pysimple/utils.py:35-36 | chunks between sorted in-range boundaries concatenate to the slice they span |
| Utils.ExplicitSplitsRoundTrip | pysimple/utils.py:25-26 | with sorted in-range `splits`, concatenating the chunks gives back the items |
| Utils.AscendingAt | pysimple/utils.py:28-31 | `arange(n)[::k]` lists 0, k, 2k, ... below n, as many as fit |
| Utils.CeilCount | pysimple/utils.py:31 | the number of k-steps covering n items is ceil(n / k) |
| Utils.SplitSize | pysimple/utils.py:27-31 | with `split_size = k >= 1`: ceil(n/k) chunks, chunk i is items[i*k .. min((i+1)*k, n)], all but the last hold k items, the last 1..k, and they concatenate to the items |
| Utils.SplitSizeExample | tests/unit/test_utils.py:114-126 | `split_size = 2` on `[1..5]` gives `[[1, 2], [3, 4], [5]]` |
| Utils.NSplits | pysimple/utils.py:29-31 | `n_splits` only sets the chunk size `n // n_splits`; 0 raises ZeroDivisionError and more splits than items make the step 0 (ValueError) |
| Utils.EmptyTenSplits | tests/unit/test_utils.py:128-132 | the test expects `[[]]` for `split_list([], n_splits=10)`; the code raises ValueError, since the chunk size `0 // 10` is 0 |
| Utils.OneSplit | tests/unit/test_utils.py:85-87 | `n_splits = 1` gives the whole non-empty list as one chunk |
| Utils.NoCriterion | pysimple/utils.py:32-33 | with no criterion `split_list` raises TypeError |
| Utils.SplitPreservesOrder | pysimple/utils.py:21 | every successful split (sorted explicit boundaries, positive size, positive count) concatenates back to the items |
| Strings.Split | pysimple/sugar.py:45 | `str.split` gives at least one piece, none containing the separator |
| Strings.JoinSplit | pysimple/sugar.py:45 | joining the pieces of a split with the separator gives back the string |
| Strings.SplitNoSep | pysimple/sugar.py:45 | a string without the separator splits into itself |
| Strings.SplitConcat | pysimple/sugar.py:45 | splitting `a + sep + t` with no separator in `a` gives `a` then the pieces of `t` |
| Strings.SplitJoin | src/pysimple/io.py:25 | splitting the `/`-join of pieces without `/` gives back the pieces |
| Strings.SplitAppend | src/pysimple/io.py:25 | a separator between two strings splits between their pieces |
| Strings.JoinAppend | src/pysimple/io.py:25 | joining two runs of pieces puts one separator between their joins |
| Strings.LastIndex | pysimple/io.py:107 | the position of the last occurrence, or -1 when there is none |
| Sugar.SetAttrFrame | pysimple/sugar.py:37 | `setattr` changes the named attribute and no other |
| Sugar.SetAttrSame | pysimple/sugar.py:41 | writing back the value just read leaves the graph unchanged |
| Sugar.Heap.Set | pysimple/sugar.py:37 | changes one attribute in place |
| Sugar.EnterExitCached | pysimple/sugar.py:35-41 | entering fails iff the field is missing (AttributeError); otherwise it caches the field's value, sets it to `None`, touches nothing else, and writing the cache back restores the graph |
| Sugar.ExitRestoresField | pysimple/sugar.py:40-41 | whatever the block did, after `__exit__` the field holds its original value and every other attribute what the block left |
| Sugar.CachedObject.constructor | pysimple/sugar.py:30-33 | stores the object and field with an empty cache |
| Sugar.CachedObject.Enter | pysimple/sugar.py:35-38 | caches the field and sets it to `None`; a missing attribute raises AttributeError with nothing changed |
| Sugar.CachedObject.Exit | pysimple/sugar.py:40-41 | writes the cached value back into the field |
| Sugar.CachedObject.ParseFrom | pysimple/sugar.py:43-51 | the loop follows every dotted component but the last and settles on the target of the reference walk, or raises AttributeError exactly when the walk fails |
| Sugar.ParseUndotted | pysimple/sugar.py:44-51 | a name without a dot targets the object itself and the whole name |
| Sugar.ParseDotted | pysimple/sugar.py:44-51 | `'a.b.c'` targets `obj.a.b` and field `c`, or raises AttributeError when `obj.a` or `obj.a.b` is missing |
| Sugar.CheckAction | pysimple/sugar.py:10-14 | an action is accepted iff it is `None`, `'warn'` or `'raise'`; anything else raises AttributeError |
| Sugar.ChainedAssignment.constructor | pysimple/sugar.py:12-16 | stores an accepted action with no previous value |
| Sugar.ChainedAssignment.New | pysimple/sugar.py:12-16 | construction fails with AttributeError exactly for an unacceptable action |
| Sugar.ChainedAssignment.Enter | pysimple/sugar.py:18-21 | remembers the current option and installs the action |
| Sugar.ChainedAssignment.Exit | pysimple/sugar.py:23-24 | puts the remembered value back |
| Sugar.WithChainedAssignment | pysimple/sugar.py:7-24 | an unacceptable action raises AttributeError before the block; otherwise the block sees the action, its outcome (returned or raised) is passed on, and in both cases the option is afterwards what it was before, whatever the block set |
| Sugar.IgnorePandasChained | pysimple/sugar.py:54-62 | `func` runs with the option at `None` and its outcome is passed through; the old value comes back on return but not when `func` raises |
| Sugar.WarningFilters.Warn | pysimple/sugar.py:68-69 | a warning is shown unless everything is ignored |
| Sugar.DeprecationMessageNames | pysimple/sugar.py:68-69 | the deprecation message embeds the function's name at a fixed place |
| Sugar.WarnDeprecated | pysimple/sugar.py:65-71 | one UserWarning naming the function, then `func`'s own warnings and its outcome, unchanged |
| Sugar.IgnoreWarnings | pysimple/sugar.py:74-80 | the wrapper returns `None` (or passes the exception on), shows none of `func`'s warnings and restores the filters |
| Text.LStripSuffix | pysimple/text.py:6 | `lstrip` removes a whitespace-only prefix and leaves a non-space first character |
| Text.LStripAllSpace | pysimple/text.py:6 | `lstrip` gives the empty string iff the text is all whitespace |
| Text.RStripAppend | pysimple/text.py:6 | `rstrip` only looks at the trailing run of whitespace |
| Text.RStripIdempotent | pysimple/text.py:6 | the second `rstrip` changes nothing |
| Text.CollapseSpaces | pysimple/text.py:6 | a run of whitespace becomes one space |
| Text.WordsShape | pysimple/text.py:6 | the words of a text are non-empty and hold no whitespace; there are none iff the text is all whitespace |
| Text.FlattenIsJoinedWords | pysimple/text.py:6 | strip-then-collapse is the words joined by single spaces |
| Text.FlattenTextSpec | pysimple/text.py:4-6 | `flatten_text` is the words joined by single spaces: empty iff the text is all whitespace, no leading or trailing whitespace, every interior whitespace a single `' '` followed by a non-space |
| Text.JoinWordsShape | pysimple/text.py:6 | joined words have no outer whitespace and each space is followed by a word character |
| Text.WordsKeepText | pysimple/text.py:6 | the words hold every non-space character, in order |
| Text.FlattenKeepsText | pysimple/text.py:4-6 | `flatten_text` keeps every non-space character unchanged and in order |
| Text.FlattenExample | tests/unit/test_text.py:15-22 | `'\n\tAbC\n'` becomes `'AbC'` |
| Lines.EncodeLinesAppend | src/pysimple/io.py:71-73 | writing lines in two batches writes their concatenation |
| Lines.EncodeLinesLength | src/pysimple/io.py:71-73 | one `'\n'` per line and nothing besides the lines' own characters |
| Lines.TextFile.WriteLines | src/pysimple/io.py:65-73 | the file holds every line followed by `'\n'`, in order, and nothing else |
| Lines.TranslatePlain | src/pysimple/io.py:60-61 | text without `'\r'` is read as written |
| Lines.TranslateNoReturn | src/pysimple/io.py:60-61 | universal-newline reading leaves no `'\r'` |
| Lines.TakeLine | src/pysimple/io.py:61 | a line runs up to and including the first `'\n'`, or to the end |
| Lines.Terminated | src/pysimple/io.py:73 | every written line with its `'\n'` |
| Lines.SplitLinesStep | src/pysimple/io.py:61 | iterating over a file whose first line holds no `'\n'` yields that line with its `'\n'`, then the lines of the rest |
| Lines.SplitEncoded | src/pysimple/io.py:61-73 | iterating over written lines gives each line back with its `'\n'` |
| Lines.ReadWritten | src/pysimple/io.py:60-62 | written then read, the count is kept and each line comes back `rstrip`ped |
| Lines.ReadWriteRoundTrip | pysimple/io.py:38-55 | lines without line breaks or trailing whitespace come back exactly |
| Lines.TrailingSpaceLost | src/pysimple/io.py:62 | a line written with one trailing space comes back without it |
| Options.FirstDefault | src/pysimple/io.py:138-143 | there is a default for a key iff some default names it |
| Options.FirstDefaultAt | src/pysimple/io.py:138-143 | the value used is the one at the key's first position |
| Options.DefaultedSpec | src/pysimple/io.py:138-143 | caller options always win, a missing option takes its first default, no other option appears |
| Options.DefaultedKeys | src/pysimple/io.py:138-143 | defaulting adds exactly the named options that are missing |
| Options.DefaultedAppend | src/pysimple/io.py:151-156 | two rounds of `setdefault` are one round over both lists |
| Options.KwArgsDict.SetDefault | src/pysimple/io.py:57 | `setdefault` inserts only when the key is absent and answers the value now held |
| Options.KwArgsDict.SetDefaults | src/pysimple/io.py:151-156 | a sequence of `setdefault` calls yields the defaulted options |
| SrcIo.CompressedIff | src/pysimple/io.py:81 | gzip is chosen exactly for names ending in `.gz` |
| SrcIo.ToTsvOptions | src/pysimple/io.py:149-156 | `to_tsv`'s calls yield the defaults in order, compression included iff the plain path (via `ensure_filedir`) ends in `.gz` |
| SrcIo.FromTsvOptions | src/pysimple/io.py:136-143 | `from_tsv`'s calls yield its defaults in order, compression included iff the plain path ends in `.gz` |
| SrcIo.ToTsvOptionsSpec | src/pysimple/io.py:148-158 | caller options kept; the keys are exactly the caller's plus `sep`, `na_rep`, `encoding`, `index`, and `compression` when the path ends in `.gz`; each missing one takes tab, `NA`, UTF-8, no index, `gzip` |
| SrcIo.FromTsvOptionsSpec | src/pysimple/io.py:135-145 | caller options kept; the keys are exactly the caller's plus `sep`, `na_values`, `keep_default_na`, `dtype`, and `compression` when the path ends in `.gz`; each missing one takes tab, `NA` only, no default NA values, `object` columns, `gzip` |
| SrcIo.LinesDefaultsSpec | src/pysimple/io.py:57-58 | a caller's `mode`/`encoding` reach `open`, otherwise the helper's mode and UTF-8 |
| SrcIo.ToJsonDefaultsSpec | src/pysimple/io.py:120-121 | indent 4 and non-ASCII kept unless the caller says otherwise |
| SrcIo.Kept | src/pysimple/io.py:25 | every kept piece is a piece between slashes that is neither empty nor `.`, and every such piece is kept |
| SrcIo.Parse | src/pysimple/io.py:25 | `Path(s)` is well formed: root `''`, `/` or `//`, every component nonempty, not `.`, without `/` |
| SrcIo.PlainPath | src/pysimple/io.py:23-25 | the plain path is well formed, and a path with a root is its own plain path |
| SrcIo.KeptComponents | src/pysimple/io.py:25 | components need no filtering |
| SrcIo.KeptSkip | src/pysimple/io.py:25 | an empty piece in front adds nothing |
| SrcIo.KeptAppend | src/pysimple/io.py:25 | filtering a concatenation filters each half |
| SrcIo.RootOfStr | src/pysimple/io.py:25 | the string of a path shows its root and no further slash |
| SrcIo.ParseStr | src/pysimple/io.py:25 | `Path(str(p)) == p` for every well-formed path |
| SrcIo.ParseIdempotent | src/pysimple/io.py:25 | normalising a normalised path changes nothing |
| SrcIo.ParsePieces | src/pysimple/io.py:25 | `Path(s)` is the root of `s` and the kept pieces between its slashes |
| SrcIo.RootOfExtend | src/pysimple/io.py:25 | a path with a character other than `/` keeps its root when more follows after a `/` |
| SrcIo.ParseExtend | src/pysimple/io.py:25 | joining with `/` appends the second path's components to the first's |
| SrcIo.ParseDropsTail | src/pysimple/io.py:25 | a `/` followed by no component adds nothing |
| SrcIo.ParseTrailingSlash | src/pysimple/io.py:25 | a trailing `/` is dropped |
| SrcIo.ParseTrailingDot | src/pysimple/io.py:25 | a trailing `/.` is dropped |
| SrcIo.ParseRepeatedSlash | src/pysimple/io.py:25 | a repeated `/` reads as one |
| SrcIo.PlainPathRelative | src/pysimple/io.py:23-25 | a relative path reads as the normalised working directory, `/`, and the normalised path |
| SrcIo.Suffix | src/pysimple/io.py:164 | the extension is empty or a tail of the name that starts with its only `.`, holds at least one more character and is never the whole name |
| SrcIo.SuffixNone | src/pysimple/io.py:164 | there is no extension exactly when every `.` strictly inside the name has another `.` after it |
| SrcIo.NameParts | src/pysimple/io.py:164 | a nonempty name without `/` is a nonempty stem followed by the extension, neither holding `/` |
| SrcIo.NewNameParts | src/pysimple/io.py:164 | a nonempty name has a nonempty stem, stem + suffix + extension holds a `/` exactly when the suffix does, and it is `.` only when the name was |
| SrcIo.RenamedWellFormed | src/pysimple/io.py:164 | putting a component in place of the last one keeps a path well formed |
| SrcIo.SuffixFilenameSpec | src/pysimple/io.py:161-164 | on the plain path: ValueError exactly when it has no name (the root or the working directory alone) or the suffix holds `/`; otherwise the result, read back, has the same root and leading components and the name stem + suffix + extension |
| SrcIo.SuffixFilenameOk | src/pysimple/io.py:161-164 | the returned string is that of the plain path with its last component renamed |
| SrcIo.SuffixFilenameEmpty | src/pysimple/io.py:161-164 | an empty suffix returns the plain path |
| SrcIo.SuffixFilenameNormalizes | src/pysimple/io.py:161-164 | a trailing `/` or `/.` and repeated slashes in the given path make no difference |
| SrcIo.CompressedPlainPath | src/pysimple/io.py:142 | a path given with a trailing `/` never ends in `.gz` as given, yet the `.gz` test on its plain path (here and at line 155) agrees with the path without the `/` |
| SrcIo.Shared | src/pysimple/io.py:168 | a missing registry entry reads as an empty dict |
| SrcIo.Touched | src/pysimple/io.py:168 | reading the defaultdict creates the entry and changes nothing else |
| SrcIo.RegisterGrows | src/pysimple/io.py:174-177 | registration adds or overwrites keys for its own id, never removes any, and leaves other ids alone |
| SrcIo.GetStateSpec | src/pysimple/io.py:179-183 | the state is the dict without exactly the registered keys; AttributeError without `id_`, KeyError if a registered key is absent |
| SrcIo.StateRoundTrip | src/pysimple/io.py:179-187 | `setstate(getstate())` reproduces the dict when the shared values are unchanged and `id_` is not shared |
| SrcIo.StateElsewhere | src/pysimple/io.py:185-187 | where the registry has no entry the shared attributes are simply missing |
| SrcIo.Serializable.constructor | src/pysimple/io.py:174-177 | stores `id_` and merges `shared` into the registry under it |
| SrcIo.Serializable.GetStateOf | src/pysimple/io.py:179-183 | the deletion loop returns the reference state and leaves the live dict untouched; the registry only gains the touched entry |
| SrcIo.Serializable.SetStateOf | src/pysimple/io.py:185-187 | the dict becomes the reference merge: the state, then the shared entries on top |
| SrcIo.SkipPlain | src/pysimple/io.py:97-99 | for plain names, even one listed twice, the dumped object has each skip field at `None` and every other attribute as it was |
| SrcIo.DumpSkipping | src/pysimple/io.py:87-105 | the snapshot pickled is the reference skipping, and after the call every object is as before, also when a field fails |
| SrcIo.EnterField | src/pysimple/io.py:99 | one `parse_from` context entered: it fails exactly when the reference step fails, leaving the graph alone; otherwise the graph is the reference step's and writing the cache back restores the old graph |
| SrcIo.EnterAll | src/pysimple/io.py:98-99 | entering the contexts in turn reaches the reference skipping or its first error, and every entered context records a cache whose write-back undoes its own entry |
| SrcIo.Unwind | src/pysimple/io.py:97 | leaving the `ExitStack` in reverse order brings the graph back to where the entries started |
| SrcIo.ChainAppend | src/pysimple/io.py:99 | one more undoable entry extends the record of undoable entries |
| Io.ExtStartIff | pysimple/io.py:107 | an extension is found exactly when the last component has a `.` after a character that is not a `.`, and it then starts at the last `.` |
| Io.ExtStartSpec | pysimple/io.py:107 | where an extension starts there is a `.`, with no later `.` and no `/` from there on, and the last component before it is not all dots |
| Io.SplitExtSpec | pysimple/io.py:107 | root and extension make up the path; the extension is nonempty exactly when the last component has a `.` after a non-dot character, and is then the path from its last `.`; it holds one `.` and no `/`, and a component of leading dots has none |
| Io.SuffixFilenameSpec | pysimple/io.py:106-108 | with an extension the suffix goes just before the last `.`; without one it goes at the end; nothing else changes |
| Io.SuffixFilenameEmpty | pysimple/io.py:106-108 | an empty suffix returns the path unchanged |
| Io.SuffixFilenameExample | pysimple/io.py:106-108 | `data/model.pkl` becomes `data/model_v2.pkl` |
| Io.SuffixFilenameDotFile | pysimple/io.py:106-108 | `.bashrc` has no extension and becomes `.bashrc_v2` |
| Io.SuffixFilenameDottedDir | pysimple/io.py:106-108 | a dot in a directory name is no extension: `a.b/c` becomes `a.b/c_v2` |
| Io.ListHashesMembers | pysimple/io.py:102-103 | exactly the entries that are hashes are listed |
| Io.ListHashesAppend | pysimple/io.py:102-103 | listing order is kept |
| Io.ListHashesAll | pysimple/io.py:102-103 | when every entry is a hash all are listed, in order |
| Io.ToTsvOptions | pysimple/io.py:78-85 | the `to_tsv` in effect yields its four defaults in order |
| Io.FromTsvOptions | pysimple/io.py:68-75 | `from_tsv` yields its four defaults in order |
| Io.ToTsvOptionsSpec | pysimple/io.py:78-85 | caller options win; tab, `NA`, UTF-8, no index otherwise; exactly those four options added, never compression |
| Io.FromTsvOptionsSpec | pysimple/io.py:68-75 | caller options win; tab, `NA` only, `object` columns otherwise; exactly those four options added |
| Logging.AdapterPrefix | pysimple/logging.py:12-17 | the constructor fails with TypeError exactly for a `None` prefix |
| Logging.BracketedAppend | pysimple/logging.py:16 | the prefix is built item by item, in order |
| Logging.BracketedLength | pysimple/logging.py:16 | each item adds its own text and two brackets |
| Logging.StrIsOneItem | pysimple/logging.py:14-15 | a string prefix is the one-item tuple |
| Logging.TwoItemsExample | pysimple/logging.py:16-22 | `('a', 'b')` gives `[a][b]` and the message `[a][b] msg` |
| Logging.EmptyTupleLeadingSpace | pysimple/logging.py:16-21 | an empty tuple gives the prefix `''`, so messages gain one leading space |
| Logging.FactoriesNeverFail | pysimple/logging.py:42-66 | the factories wrap only a prefix that is not `None`, so they never fail; the message is left alone or follows the prefix and one space |
| Logging.ProcessKeepsMessage | pysimple/logging.py:19-22 | `process` returns the prefix, one space and the message, with kwargs unchanged |

## Left out

- Concurrency: the process pool, the Manager queue, the listener process and its `join`. The pool
  is an order-preserving map whose tasks finish in an order given as a parameter. The progress
  queue is a sequential trace, drained after the pool is done.
- tqdm rendering; `**map_func_kwargs` are folded into `f`.
- Exceptions raised by `map_func` or `reduce_func` themselves: they are total functions here.
- Parallel.MapReduce: a listener that never receives `None` (after a failing pool) would hang; the
  model returns no update count in that case.
- File I/O: `open`, `mkdir`, `rmtree`, gzip streams, pickle and dill, json, pandas CSV reading and
  writing. Files are modelled as strings, options as keyword dictionaries.
- `plain_path`: `expanduser` is not modelled (a leading `~` stays a component). Normalisation and
  `absolute()` are modelled; the working directory is a parameter `cwd`, standing for what
  `os.getcwd()` returns.
- Path semantics are those of POSIX `pathlib` in Python 3.12 and 3.13: `with_name` refuses an
  empty name, a name holding `/` and the name `.`; Python 3.11 and earlier accept some names
  these refuse, for example `m/.`. Windows paths (drives, `\` separators) are not modelled.
- SrcIo.Suffix: follows the 3.12 and 3.13 rule that a dot that ends the name starts no suffix
  (`data.` has suffix `''`); later versions that treat a single trailing dot as a suffix are not
  modelled.
- Io.SplitExtSpec: `os.path.splitext` is modelled as `posixpath.splitext`; the Windows variant
  (drives, `\` as a separator) is not modelled.
- File contents are modelled as on POSIX: lines end in `'\n'`, where Python writes `os.linesep`
  in text mode.
- Open modes other than the default text mode in `read_lines`/`write_lines`.
- The recursion-limit retry of `dump_pickle` and its logging.
- `clear_dir`: it calls `mkdir` on the builtin `dir` (src/pysimple/io.py:51).
- `skip_fields=None`: it is the empty list here.
- Lines.ReadLines: a caller-supplied `mode` or `encoding` is not modelled.
- `is_hash` is imported from pysimple.utils, which does not define it; it is a parameter of
  `Io.ListHashes`.
- The process boundary: a registry in another process is the empty map (`SrcIo.StateElsewhere`).
- Serializable identity: `id(self)` is an integer parameter.
- Sugar.IgnoreWarnings: Python's "once per location" filtering and the filter list's other entries
  are not modelled; filters are reduced to "ignore everything" or "show".
- Sugar.WarnDeprecated: the warning is shown on every call; Python's default filter shows a
  `UserWarning` once per calling location, and that registry is not modelled.
- Sugar.IgnorePandasChained: `func` sees the option only as its argument; writes of `func` to the
  option itself are not modelled.
- Sugar.GetAttr: attributes of builtin values (for example methods of a `str`) are not modelled;
  only objects in the graph have attributes.
- Logging.AdapterPrefix: `str()` of non-string tuple items and iterables other than tuples are not
  modelled; items are strings.
- Logging handlers, formatters, rotation, `silent_logger` and `daily_file_logger`.
- `flatten_text`: pandas' `astype(str)` on non-string cells and the regex-flag behaviour of
  `str.replace` across pandas versions. The regex `\s` is taken as the set that `str.isspace`
  accepts.
- Not part of this model: `df2dict`, `data2batches`, `compute_hash64` (a foreign CityHash call),
  the `stats` bootstrap (floating point and randomness), `Stopwatch` (wall clock), `with_seaborn`
  and setup.py.
