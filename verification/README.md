# grepo core in Dafny

grepo is a small Go data-access layer over `database/sql`. This project
models the parts of `grepo.go` that carry its own logic:

- **The named-parameter rewriter** used by `MapRowN` and `MapRowsN`. It has
  three steps:
  - `namedParameters` collects one entry per `:name` placeholder. Each entry
    holds a position, the bound value and the number of slots the value
    needs.
  - `substitute` replaces every placeholder with a run of `$k` markers.
  - `flattenArgs` lists the bound values by position and expands slices
    into one argument per element.

  The model proves two things about the rewriter. First, it fails exactly
  when a placeholder name repeats. Second, on success the marker numbered k
  in the rewritten text stands for the k-th positional argument
  (`Normalizer.Alignment`).
- **The row decoder `RowMap`.** It covers `toMap`, `try`, `Err`, `Apply`, the
  typed accessors `String`, `Int64/32/16/8`, `Float64/32`, `Bool` and
  `Bytes`, and the conversions `toInteger` and `toFloat`. The model proves
  that a mapper can make any number of reads and check `Err` once at the
  end: `Err` is nil exactly when every read found its key with a shape the
  accessor accepts.
- **The row loop of `MapRows` and its single-row reduction `MapRow`.** The
  cursor is modelled as the sequence of outcomes that its `Next` and `Scan`
  calls return.
- **The transaction sequence of `Execute`.** The driver is modelled as the
  answers it gives to begin, exec, commit and the two counter reads.

Go values are a closed datatype, `Values.Value`. It has sized and unsized
integers, floats as an opaque bit pattern, booleans, strings, byte slices,
other slices and nil. Integer conversions to a narrower Go type wrap
explicitly, modulo 2^8, 2^16, 2^32 or 2^64. Strings are sequences of code
points. `unicode.IsSpace` is modelled on code points.

## Where the code differs from its comments

In four places `grepo.go` behaves differently from what its comments or
its callers would suggest. The model follows the code each time.

- **A missing argument is not an error.** The comment at grepo.go:651 says
  that `namedParameters` "needs to error if the named param is not found",
  but it does not. Every placeholder gets an entry whatever `args` holds
  (grepo.go:630-647), and a missing argument is bound to nil with one slot.
  So `substitute` never reports a missing name when it is called from
  `MapRowN`/`MapRowsN`. `Substitute` still models its not-found branch,
  because that branch can be reached with other entry maps.
- **A repeated placeholder name is an error.** A name used twice produces
  one entry but two occurrences. The count check at grepo.go:681-683 then
  fails with "received n arguments and only replaced m". So the only way
  `Normalize` fails is a repeated name (`Normalizer.Normalize`).
- **`Bool` never returns true.** Its doc comment (grepo.go:565-567) says it
  returns the stored value "as a bool". It returns `v == 0` instead. Here
  `v` is an `any` holding an int8..int64, and the untyped `0` becomes an
  `int`, so the comparison is always false (`RowMaps.BoolIsAlwaysFalse`). A
  stored Go `bool` is refused with a ColReadError.
- **`Execute` can return an error with a valid result.** The comment at
  grepo.go:305-307 says "we may not want to fail completely" when a counter
  cannot be read. Yet if a counter cannot be read after the commit,
  `Execute` returns -1 for that counter and also returns the read error.

## Model

| member | source | states |
|---|---|---|
| Text.Fields | grepo.go:620 | splitting on Unicode white space yields only non-empty words with no white space in them |
| Text.FieldsOfWord | grepo.go:620 | a token with no white space in it splits into exactly itself |
| Text.FieldsAtSpace | grepo.go:620 | any white-space character is only a boundary: splitting around it splits the two sides independently, so runs of spaces, tabs and newlines collapse; with the empty string and the single-word case this determines the split of every string |
| Text.FieldsCollapseExample | grepo_test.go:224-226 | "a  b" and "a\nb" both split into ["a", "b"], as the multi-line query of the third substitution case relies on |
| Text.FieldsOfJoin | grepo.go:685 | joining such words with one space and splitting again gives back exactly the same words |
| Text.DecimalRoundTrip | grepo.go:670 | the decimal numeral written after `$` in a marker reads back as the marker number |
| Values.Wrap | grepo.go:367-380 | converting an integer to int8/16/32/64 gives a value in the target range that is congruent to the input modulo 2^width, and leaves it unchanged when it already fits |
| Values.WideningIsExact | grepo.go:447-466 | converting a value of a narrower signed kind to a wider one never changes it |
| Values.Expand | grepo.go:248-266 | a slice becomes its elements (a byte slice becomes its bytes as uint8 values), any other value becomes itself, and the count matches the slot count `namedParameters` reserves |
| Params.ParamNameIsCore | grepo.go:626-628 | a placeholder's name is a contiguous part of the token; only ':', '(' and ')' are cut from the two ends, and the name neither starts nor ends with one of them |
| Params.ParamNameOfAffixed | grepo.go:626-628 | a name wrapped in trimmed characters on both sides comes out as exactly that name |
| Params.NameExamples | grepo.go:626-628 | ":ids" gives "ids" and ":limit" gives "limit" |
| Params.PunctuatedNameExamples | grepo.go:624-628 | a trailing ')' is cut (":ids)" gives "ids") but a trailing comma is kept (":id," gives "id,"); "(:ids)" does not start with ':' and is no placeholder at all |
| Params.NamedParameters | grepo.go:618-653 | the entry keys are exactly the placeholder names; each entry comes from the name's last occurrence, with that occurrence's position, value and slot count; a name missing from args gets nil and no error |
| Params.PositionStep | grepo.go:624-644 | from one placeholder occurrence to the next, the position grows by one, plus the slice length when the value is a slice |
| Params.PositionsIncrease | grepo.go:624-644 | positions strictly increase along the occurrences |
| Params.LastOccurrence | grepo.go:647 | every name that occurs has a last occurrence, so every placeholder name has an entry |
| Params.NamedParametersDistinct | grepo.go:618-653 | no two entries share a position, so ordering entries by position is unambiguous |
| Substitution.LayoutFails | grepo.go:674-677 | the walk stops at the first placeholder that has no entry and reports that name |
| Substitution.LayoutTokens | grepo.go:659-679 | when every placeholder has an entry, non-placeholder tokens are kept and each placeholder becomes a run of as many markers as its entry has slots |
| Substitution.LayoutRuns | grepo.go:668-672 | the i-th marker run starts one past the slots of all earlier runs and is as long as the i-th placeholder's slot count |
| Substitution.LayoutNumbers | grepo.go:658-672 | the markers, read left to right, are numbered next, next+1, ... with no gap and no repeat |
| Substitution.LayoutOutcome | grepo.go:659-679 | the walk either succeeds or fails at the first unbound placeholder |
| Substitution.Substitute | grepo.go:655-686 | succeeds exactly when every placeholder has an entry and the number of occurrences equals the number of entries; otherwise reports the first unbound name, or the mismatch as (entries, occurrences) |
| Substitution.SubstituteText | grepo.go:670-685 | the result is the tokens joined by single spaces, with words unchanged and each placeholder token replaced by its markers joined by ", " |
| Substitution.MarkerTextsExample | grepo.go:669-672 | a three-slot run starting at 1 produces the markers "$1", "$2", "$3" |
| Substitution.MarkerRunExample | grepo.go:668-673 | a three-slot run starting at 1 renders as "$1, $2, $3" |
| Flatten.SortedEntries | grepo.go:242-244 | the entries listed once each in strictly increasing position |
| Flatten.SortedUnique | grepo.go:242-244 | two listings of the same entries in strictly increasing position are equal, so the sort's result is determined |
| Flatten.FlattenInPositionOrder | grepo.go:240-270 | the flattened arguments are the expansions of the entries taken in increasing position, for any such listing |
| Normalizer.DistinctCount | grepo.go:681-683 | a list of names has as many distinct names as elements exactly when none repeats |
| Normalizer.NamedEntriesCount | grepo.go:618-653 | every placeholder has an entry, and there are as many entries as distinct names |
| Normalizer.Normalize | grepo.go:216-229 | the named front end succeeds exactly when no placeholder name repeats, and otherwise fails with the mismatch (distinct names, occurrences) |
| Normalizer.EntriesInPlaceholderOrder | grepo.go:618-653 | with distinct names, sorting the entries by position lists them in placeholder order, each bound to its argument with its slot count |
| Normalizer.ArgumentsOfPlaceholder | grepo.go:240-270 | the arguments of the i-th placeholder occupy the positional slice that starts after the slots of the earlier placeholders |
| Normalizer.RunsMatchArguments | grepo.go:655-686 | the marker run of each placeholder numbers exactly the positional arguments that its value expanded into |
| Normalizer.LayoutAlignment | grepo.go:655-686 | the substitution walk succeeds, and its markers are aligned with the flattened arguments |
| Normalizer.Alignment | grepo.go:216-229 | when no placeholder name repeats the rewrite succeeds; the text is the rendered plan, the arguments are the expanded values in placeholder order, and marker $k stands for argument k |
| RowMaps.ToMapColumns | grepo.go:354-364 | the row map's keys are the column names, and each column maps to its own value unless the same name comes later, in which case the later value wins |
| RowMaps.Try | grepo.go:408-413 | a read error is reported exactly when the key is not a column |
| RowMaps.Err | grepo.go:397-399 | no error exactly when nothing was recorded; otherwise the recorded errors, in order |
| RowMaps.String | grepo.go:425-442 | the stored string, or "" with a missing-key error or a ColReadError carrying the stored value; the map never changes |
| RowMaps.ToInteger | grepo.go:367-380 | only int8..int64 values convert, each to the target width with wrap-around |
| RowMaps.Int | grepo.go:447-527 | Int64/32/16/8 return the stored sized integer converted to the target width, or 0 after recording the missing key or a ColReadError carrying the zero value |
| RowMaps.IntExactWhenInRange | grepo.go:447-527 | a stored integer that already fits the target width is returned exactly, and no error is recorded |
| RowMaps.ToFloat | grepo.go:382-391 | only float32/float64 values convert |
| RowMaps.Float | grepo.go:530-563 | Float64/32 return the stored float or zero, recording the missing key or a ColReadError carrying the zero value |
| RowMaps.Bool | grepo.go:568-586 | an int8..int64 value records nothing; any other value records a ColReadError carrying it; a missing key records its error |
| RowMaps.BoolIsAlwaysFalse | grepo.go:579 | Bool returns false for every row and key |
| RowMaps.Bytes | grepo.go:589-603 | the stored byte slice, or an empty one after recording the missing key or a ColReadError carrying an empty slice |
| RowMaps.PerformStep | grepo.go:393-395 | one accessor call leaves the map alone and appends exactly its own error, if any |
| RowMaps.PerformAllRecords | grepo.go:393-395 | a sequence of reads never changes the map and appends one error per failed read, in call order |
| RowMaps.FailuresEmpty | grepo.go:408-413 | a sequence of reads records nothing exactly when every key is present with an accepted shape |
| RowMaps.ErrAfterReads | grepo.go:354-399 | after reads on a fresh row map, Err is nil exactly when every read succeeded, and it otherwise holds the failures in order |
| RowMaps.Apply | grepo.go:401-406 | as written: the error is Err's, and the value is never returned, whatever the row map holds |
| RowMaps.ApplyChecked | grepo.go:401-406 | as intended: the value when Err is nil, and nothing alongside the errors otherwise |
| RowMaps.ApplyDropsValue | grepo.go:402 | on an error-free row map, Apply returns neither the value nor an error, where the intended version returns the value |
| RowMaps.ApplyDropsValueExample | grepo.go:402 | a one-column row read successfully with String still yields (nil, nil) from Apply |
| Mapping.MapRows | grepo.go:188-213 | succeeds exactly when every row scans and maps and the cursor ends cleanly; the results are the mapped rows in order; otherwise the first failing row's Scan or mapper error, else the cursor's error |
| Mapping.MapRow | grepo.go:55-89 | no rows gives nil with no error; one row gives its mapping; more rows give a too-many-rows error with the count; errors from the row loop are wrapped |
| Execution.Execute | grepo.go:273-327 | the statement commits exactly when begin and exec succeed, and rolls back exactly when exec fails; early failures return a zero result; after a commit, each unreadable counter is -1, and the LastInsertId error takes precedence over the RowsAffected one |

## Left out

- Database plumbing: `Prepare`, `Query`, `Close`, `Columns`, contexts and
  `slog` logging. The cursor and the driver are given as data.
- The pre-formatting of positional slice arguments in `MapRows`
  (grepo.go:137-164). Before the driver call it overwrites each slice
  argument, in the caller's own slice, with one string: its elements
  formatted with `%d`, `%t`, `'%s'`, `%f` or `%v` and joined by ", ". A
  positional slice thus stays one argument bound to one `$n` and is not
  expanded. Neither the formatting nor the change to the caller's slice is
  modelled: `Mapping.MapRows` starts from the cursor the driver returns,
  so the arguments do not appear in it.
- `MapRowN` and `MapRowsN` are modelled only up to the database call. They
  are `Normalize` followed by `MapRow`/`MapRows` on its result. `MapRowN`
  runs `flattenArgs` before it checks the error; that makes no observable
  difference.
- `NewRepository` and the `Repository` interface. They are wiring only.
- The connectors `pg_connector.go`, `sqlite.go` and `sqlite_connector.go`,
  and the terminal colouring in `colorize.go`. None of them is part of this
  model.
- Error message texts. Errors are modelled by their kind and their
  payload.
- RowMaps.Float: float numerics are not modelled. A stored float is an
  opaque width and bit pattern. Converting float64 to float32 is recorded
  but not rounded.
- RowMaps.Int: stands for the four accessors `Int64`, `Int32`, `Int16` and
  `Int8`, with the kind as a parameter.
- Execution.Execute: the counters are unbounded integers rather than Go
  int64 values.
- Flatten.SortedEntries: requires distinct positions. When positions tie,
  Go's order depends on map iteration. `namedParameters` never produces a
  tie (`Params.NamedParametersDistinct`).
- A nil `*RowMap` receiver. The accessors would panic on it.
- A nil slice is modelled like an empty one: it gets no slots and adds no
  arguments. Go arrays are not modelled, because `reflect.Slice` excludes
  them.
- Text.Fields: `unicode.IsSpace` works on code points. UTF-8 decoding of
  the query text is not modelled.

## Findings

| source | as written | input that shows it | evidently intended | confidence | as-written member | corrected member |
|---|---|---|---|---|---|---|
| grepo.go:401-406 | `Apply` tests `m != nil` instead of `err != nil`, so it always returns a nil value | any row map with no recorded error and a non-nil `t`: the result is (nil, nil) | return `t` when `Err()` is nil, and `nil` with the error otherwise | high; not executed | RowMaps.ApplyDropsValue | RowMaps.ApplyChecked |
