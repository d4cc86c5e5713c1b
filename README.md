# gocraft core, modelled in Dafny

This project models the core of the Go library gocraft and proves what it
promises. The core has three parts:

- **gslice**: generic slice helpers.
  - Combinators: `Map`, `Filter`, `Reduce`, `Find`, `Any`, `All`, `Concat` and `Slice`.
  - Set operations: `Unique`, `Union`, `Intersection` and `Difference`.
  - Sorting: `Sort` and `StealSort`.
  - Predicate builder: `CmpWith`.
- **gjson**: a typed facade over Go's `encoding/json`.
  - It has an option record that decode and encode options fill in, from left to right.
  - It derives the decoder and encoder settings from that record.
  - It has the entry points `Unmarshal`, `Marshal`, `MarshalIndent`, `Dumps`, `Cast`, `UnmarshalFromPath` and `UnmarshalFromPathWithDefault`.
- **gvalue**: the one-line helpers `IfElse`, `Equal` and `Less`.

Modules, one per file:

| file | module | models |
|---|---|---|
| `go.dfy` | `Go` | Go values shared by the packages: slices, bytes, pointer fields, `error` |
| `gvalue.dfy` | `GValue` | pkg/gvalue/operation.go |
| `gslice_slice.dfy` | `GSlice` | pkg/gslice/slice.go |
| `gslice_set.dfy` | `GSliceSet` | pkg/gslice/set.go |
| `gslice_sort.dfy` | `GSliceSort` | pkg/gslice/sort.go |
| `gslice_cmp.dfy` | `GSliceCmp` | pkg/gslice/cmp.go |
| `encoding_json.dfy` | `EncodingJson` | the parts of `encoding/json` that gjson configures, kept abstract |
| `gjson_option.dfy` | `GJsonOption` | pkg/gjson/option.go |
| `gjson_json.dfy` | `GJson` | pkg/gjson/json.go |

How Go is represented:

- **Slices.**
  - A Go slice that is only read is a value: `GoSlice<T> = Nil | Arr(elems)`. This keeps `nil` apart from an empty slice, as `reflect.DeepEqual` does.
  - Because slices are values, "the input is not modified" holds by construction.
  - A slice that is sorted in place is an `array?<T>`, where `null` is `nil`.
- **Zero values.** The zero value of a type parameter (`var zero T`, `gvalue.Zero[T]()`) is an explicit parameter `zero`.
- **Maps used as sets.** Go maps used as sets are Dafny `set`s. Intersection's counting map is a `map<T, nat>`.
- **The collect loop of `Intersection`.** It picks keys in an arbitrary order (`:|`), as Go's map iteration does. Its result is therefore specified as a set equality.
- **Pointer fields.** A `*bool` or `*string` field of the option record is an `Option`, and `gvalue.Ptr(x)` is `Some(x)`.
- **Error values.**
  - An `error` is a datatype: a sentinel, a `%w` wrapper, or an opaque library error.
  - `Message` models `Error()`.
  - `Is` models `errors.Is`.
- **Bytes and text.**
  - JSON text, Go `string` data and `[]byte` data are all `Bytes`.
  - Paths, prefixes and messages are Dafny strings.
- **`return result, decode(&result)`.** Go's specification does not fix whether `result` is read before or after the call. `Unmarshal` returns the value the decoder left in the destination, as the gc compiler does. The test at gjson/json_test.go:109-113 relies on this when it expects the partly filled struct alongside the error.
- **Go's generics.** Every generic parameter of the source is a Dafny type parameter. Some carry `(!new)`, meaning the type holds no references. This is needed where a contract quantifies over all values of the type.

What is proved:

- **Slice combinators.**
  - Each is proved against a specification function: `Filtered`, `FoldLeft` and `Flatten`.
  - Lemmas give the properties of those functions: membership, length, and how they split over concatenation.
- **`Unique`.**
  - Its result is exactly the elements that no earlier element is `eq` to.
  - When `eq` is `==`, that result is the deduplication `Dedup`.
- **`Dedup`.** It holds no duplicates, has the same members as its input, and keeps the order of first occurrence.
- **`Union` and `Difference`.** Both are proved equal to `Dedup` of a flattening. For `Difference`, the other slices' elements are removed first.
- **`Intersection`.**
  - It is characterised by membership: an element is in the result iff it occurs in every slice, and no element occurs twice.
  - Its order is not specified. This follows the code, which ranges over a map, rather than the doc comment's "order based on the first slice" (pkg/gslice/set.go:90).
- **Sorting.**
  - `Sort` and `StealSort` always return a permutation of their input. It is sorted by `less` whenever `less` is a strict weak order, which is what `sort.Slice` requires.
  - The sort is an insertion sort of the model's own. It sorts for any asymmetric `less`.
  - Under a strict weak order, that sortedness orders every pair of elements.
  - The `[3, 1, 4, 1, 5]` example of the tests has only one possible sorted result.
- **gjson options.**
  - The fold has last-write-wins per field.
  - The decode and encode options never touch each other's fields.
  - Every reachable record keeps the invariant "prefix set ⇒ indent set", which makes `Encode`'s `*opt.Indent` dereference safe.
  - The derived settings are proved field by field.
- **gjson facade.**
  - `Unmarshal` and `Marshal` choose between the plain and the configured codec on whether the option list is empty.
  - A path miss produces the zero value and an error wrapping `ErrPathNotFound`, with the message `` `<path>` path not found ``.
  - `UnmarshalFromPathWithDefault` falls back exactly when `UnmarshalFromPath` errs.

## Model

| member | source | states |
|---|---|---|
| GValue.IfElse | pkg/gvalue/operation.go:15-20 | the result is `t` when the condition holds and `f` otherwise |
| GValue.Equal | pkg/gvalue/operation.go:27-29 | `Equal(l, r)` holds iff `l == r` |
| GValue.EqualIsEquivalence | pkg/gvalue/operation.go:27-29 | `Equal` is reflexive, symmetric and transitive |
| GValue.LessInt | pkg/gvalue/operation.go:35-37 | `Less[int](l, r)` holds iff `l < r` |
| GValue.LessIntIsStrictOrder | pkg/gvalue/operation.go:35-37 | `Less` on integers is `<`: irreflexive, asymmetric and transitive, with any two integers either equal or ordered one way |
| GValue.LessString | pkg/gvalue/operation.go:33-37 | `Less[string](l, r)` compares character by character: false when `r` is empty, true when only `l` is, otherwise decided by the first differing character |
| GValue.LessStringIsLexicographic | pkg/gvalue/operation.go:34-37 | `Less` on strings holds iff a common prefix is followed by the end of `l` or by a smaller character of `l`, i.e. lexicographic order by code point |
| GValue.LessStringIrreflexive | pkg/gvalue/operation.go:35-37 | no string is `Less` than itself |
| GValue.LessStringTransitive | pkg/gvalue/operation.go:35-37 | `Less` on strings is transitive |
| GValue.LessStringExample | pkg/gvalue/example_test.go:96-97 | "apple" < "banana" and not the reverse; "app" < "apple" |
| GSlice.Map | pkg/gslice/slice.go:13-22 | nil in, nil out; otherwise the same length and `r[i] == fn(s[i])`, so an empty slice maps to an empty non-nil slice |
| GSlice.Filter | pkg/gslice/slice.go:34-45 | nil in, nil out; otherwise the result is `Filtered(s, fn)`, the in-order subsequence satisfying `fn` (empty but non-nil when nothing matches) |
| GSlice.Reduce | pkg/gslice/slice.go:58-64 | the result is the left fold of `fn` over the elements from `initial`; it is `initial` for nil or empty input |
| GSlice.Find | pkg/gslice/slice.go:76-87 | `found` iff some element satisfies `fn`; then `v` is the element at the smallest such index; otherwise `v` is the zero value |
| GSlice.Any | pkg/gslice/slice.go:98-108 | true iff some element satisfies `fn` (false for nil and empty) |
| GSlice.All | pkg/gslice/slice.go:119-129 | true iff every element satisfies `fn` (true for nil and empty) |
| GSlice.Concat | pkg/gslice/slice.go:143-156 | nil iff there are no arguments; otherwise the in-order flattening, whose length is the sum of the lengths |
| GSlice.Slice | pkg/gslice/slice.go:171-179 | nil in, nil out with no bounds demanded; otherwise, given `0 <= start <= end <= len(s)`, a copy of length `end - start` with `r[i] == s[start + i]` |
| GSlice.FilteredAppend | pkg/gslice/slice.go:34-45 | filtering distributes over concatenation |
| GSlice.FilteredMembers | pkg/gslice/slice.go:34-45 | `x` is in the filtered sequence iff it is in `s` and satisfies `fn` |
| GSlice.FilteredLength | pkg/gslice/slice.go:34-45 | the filtered sequence is no longer than `s`, and as long exactly when every element satisfies `fn` |
| GSlice.FoldLeftAppend | pkg/gslice/slice.go:58-64 | folding `a + b` is folding `b` from the result of folding `a` |
| GSlice.FoldLeftFirst | pkg/gslice/slice.go:58-64 | the fold consumes elements from the left: the first element is combined with `initial` first |
| GSlice.FlattenLength | pkg/gslice/slice.go:143-156 | the flattening's length is the sum of the slice lengths (`totalLen`) |
| GSlice.FlattenAppend | pkg/gslice/slice.go:143-156 | flattening distributes over concatenation of the argument lists |
| GSlice.FlattenMembers | pkg/gslice/slice.go:143-156 | `x` is in the flattening iff some argument slice contains it |
| GSliceSet.Unique | pkg/gslice/set.go:14-36 | nil in, nil out; otherwise exactly the elements that no earlier element is `eq` to, in their original order |
| GSliceSet.UniqueWithEqualityIsDedup | pkg/gslice/set.go:14-36 | with `==` as `eq`, Unique's result is `Dedup(s)` |
| GSliceSet.UniquePrefixIsDedup | pkg/gslice/set.go:21-35 | with `==` as `eq`, the first `n` steps of Unique keep `Dedup(s[..n])` |
| GSliceSet.UniqueWithEqualityProperties | pkg/gslice/set.go:21-35 | with `==`, the result has no duplicates, the same members as `s`, and no greater length |
| GSliceSet.Union | pkg/gslice/set.go:53-84 | nil iff there are no arguments; otherwise the distinct elements of all slices in order of first occurrence across them (empty but non-nil when all are empty) |
| GSliceSet.AppendUnseen | pkg/gslice/set.go:73-80 | the inner loop of Union extends `result = Dedup(visited)` to `Dedup(visited + s)` and keeps `seen` equal to the visited elements |
| GSliceSet.UnionProperties | pkg/gslice/set.go:53-84 | Union's result has no duplicates and holds exactly the elements found in some argument |
| GSliceSet.Intersection | pkg/gslice/set.go:101-140 | nil iff no arguments; `Dedup` of the one slice for one argument; for two or more, no duplicates and `x` in the result iff `x` is in every slice; empty when some slice is empty |
| GSliceSet.CountOncePerSlice | pkg/gslice/set.go:118-125 | after one slice, `countMap` holds exactly the elements seen so far, each mapped to the number of slices containing it |
| GSliceSet.CollectCommon | pkg/gslice/set.go:129-137 | the collected keys are exactly those counted at least `sliceCount` times, each once |
| GSliceSet.Difference | pkg/gslice/set.go:157-193 | `[]` when `first` is empty or nil; `Dedup(first)` with no others; otherwise the distinct elements of `first` found in no other slice, in first-occurrence order |
| GSliceSet.AddAll | pkg/gslice/set.go:169-171 | after one slice, `otherSet` holds exactly the elements of the other slices visited so far |
| GSliceSet.KeepAbsent | pkg/gslice/set.go:175-190 | the main loop of Difference yields `Dedup` of the elements of `first` that are not excluded |
| GSliceSet.DifferenceProperties | pkg/gslice/set.go:157-193 | Difference's result has no duplicates and holds exactly the elements of `first` that are in no other slice |
| GSliceSet.DedupMembers | pkg/gslice/set.go:72-81 | deduplication keeps exactly the members of its input |
| GSliceSet.DedupNoDuplicates | pkg/gslice/set.go:72-81 | a deduplicated sequence holds no value twice |
| GSliceSet.DedupLength | pkg/gslice/set.go:72-81 | deduplication never lengthens |
| GSliceSet.DedupOfDistinct | pkg/gslice/set.go:72-81 | a sequence without duplicates is its own deduplication |
| GSliceSet.DedupFollowsFirstOccurrence | pkg/gslice/set.go:72-81 | elements of the deduplication appear in the order of their first occurrences in the input |
| GSliceSet.IndexOfPrefix | pkg/gslice/set.go:72-81 | the first occurrence of an element of `a` in `a + b` is its first occurrence in `a` |
| GSliceSet.WithoutMembers | pkg/gslice/set.go:175-190 | `x` survives the removal iff it is in `xs` and not excluded |
| GSliceSet.SlicesContainingCounts | pkg/gslice/set.go:112-137 | the count of slices containing `x` is at most their number, zero iff `x` is in none, and the full number iff `x` is in every slice |
| GSliceSet.DedupSnoc | pkg/gslice/set.go:75-79 | appending an element adds it to the deduplication iff it was not seen before |
| GSliceSort.Sort | pkg/gslice/sort.go:16-26 | nil in, nil out; otherwise a fresh array of the same length holding a permutation of `s`, sorted by `less` whenever `less` is a strict weak order, while `s` is left unchanged |
| GSliceSort.StealSort | pkg/gslice/sort.go:39-47 | returns `s` itself; afterwards `s` holds a permutation of its old contents, sorted by `less` whenever `less` is a strict weak order |
| GSliceSort.SortInPlace | pkg/gslice/sort.go:22-24 | the in-place sort always leaves a permutation of the old contents, sorted by `less` whenever `less` is asymmetric |
| GSliceSort.SortedByOrdersAllPairs | pkg/gslice/sort.go:22-24 | under a strict weak order, sorted neighbours imply that no later element is `less` than an earlier one |
| GSliceSort.LessIntIsStrictWeakOrder | pkg/gslice/sort_test.go:17-21 | `Less[int]`, the comparator of the tests, meets the demands of `sort.Slice` |
| GSliceSort.SortedByLessIntAscending | pkg/gslice/sort_test.go:10-52 | sorted by `Less[int]` means non-decreasing |
| GSliceSort.SortedByGreaterDescending | pkg/gslice/sort_test.go:77-91 | sorted by a greater-than comparator means non-increasing |
| GSliceSort.AscendingArrangementUnique | pkg/gslice/sort_test.go:10-52 | two non-decreasing arrangements of the same integers are equal, so the sorted result is determined |
| GSliceSort.SortExample | pkg/gslice/sort_test.go:17-21 | the only sorted permutation of `[3, 1, 4, 1, 5]` is `[1, 1, 3, 4, 5]` |
| GSliceCmp.CmpWith | pkg/gslice/cmp.go:27-31 | the predicate holds of `a` exactly when `cmp(a, b)` does |
| GSliceCmp.FilterCmpWith | pkg/gslice/cmp.go:27-31 | filtering with `CmpWith(cmp, b)` keeps exactly the `x` with `cmp(x, b)`, and nothing is dropped iff every element satisfies it |
| GSliceCmp.CmpWithFixesRightOperand | pkg/gslice/cmp.go:27-31 | `b` is the right-hand operand: `CmpWith(>, b)` selects values above `b` |
| GSliceCmp.FilterGreaterThanThree | pkg/gslice/cmp_test.go:18-23 | `Filter([1..5], CmpWith(GT, 3))` is `[4, 5]` |
| GSliceCmp.FindAtMostTwo | pkg/gslice/cmp_test.go:66-77 | `Find([1..5], CmpWith(LTE, 2))` is `(1, true)` |
| GSliceCmp.AllExamples | pkg/gslice/cmp_test.go:89-105 | `All` with `CmpWith(GTE, 2)` holds on `[2, 4, 6, 8]`; `All` with `CmpWith(GT, 2)` fails on `[1, 2, 3, 4]` |
| GJsonOption.ApplyDecode | pkg/gjson/option.go:43-70 | `WithUseNumber` and `WithDisableUnknownFields` each set their own field to `Some(true)` and change no other field |
| GJsonOption.ApplyEncode | pkg/gjson/option.go:90-116 | `WithEscapeHtml(e)` sets only `EscapeHtml`; `WithIndent(p, i)` sets prefix and indent together; the indent invariant is preserved |
| GJsonOption.DecodeFold | pkg/gjson/json.go:45-51 | folding decode options from left to right never changes the encode fields |
| GJsonOption.EncodeFold | pkg/gjson/json.go:82-88 | folding encode options never changes the decode fields and keeps "prefix set ⇒ indent set" |
| GJsonOption.DecodeFoldAppend | pkg/gjson/json.go:45-51 | folding `a + b` is folding `b` after `a` |
| GJsonOption.EncodeFoldAppend | pkg/gjson/json.go:82-88 | folding `a + b` is folding `b` after `a` |
| GJsonOption.DecodeFlagsFromOptions | pkg/gjson/json.go:45-51 | from the empty record, each decode flag is `Some(true)` iff its option occurs, and absent otherwise |
| GJsonOption.EscapeHtmlLastWriteWins | pkg/gjson/json.go:82-88 | the last `WithEscapeHtml` in the list decides the recorded value |
| GJsonOption.EscapeHtmlUntouched | pkg/gjson/json.go:82-88 | without `WithEscapeHtml` the field keeps its starting value |
| GJsonOption.IndentLastWriteWins | pkg/gjson/json.go:82-88 | the last `WithIndent` decides both prefix and indent |
| GJsonOption.IndentUntouched | pkg/gjson/json.go:82-88 | without `WithIndent` prefix and indent keep their starting values |
| GJsonOption.DecodeSettings | pkg/gjson/option.go:123-133 | unknown fields are rejected iff `DisableUnknownFields == Some(true)`; numbers are kept iff `UseNumber == Some(true)` |
| GJsonOption.EncodeSettings | pkg/gjson/option.go:140-151 | escaping is the recorded value when present and the default (on) otherwise; the encoder gets the recorded prefix and indent iff a prefix is recorded, and the defaults (both empty) otherwise |
| GJsonOption.DecodeSettingsReadDecodeFieldsOnly | pkg/gjson/option.go:123-133 | records that agree on the decode fields give the same decoder settings |
| GJsonOption.EncodeSettingsReadEncodeFieldsOnly | pkg/gjson/option.go:140-151 | records that agree on the encode fields give the same encoder settings |
| GJsonOption.DecodeOptionsSettings | pkg/gjson/json.go:45-51 | a list of decode options turns a decoder switch on iff its option is in the list |
| GJsonOption.DecodeOptionsLeaveEncoderDefault | pkg/gjson/option.go:10-18 | a record built from decode options configures the encoder as by default |
| GJsonOption.EncodeOptionsLeaveDecoderDefault | pkg/gjson/option.go:10-18 | a record built from encode options configures the decoder as by default |
| GJson.PathNotFoundError | pkg/gjson/json.go:171 | the error reads `` `<path>` path not found `` and `errors.Is` finds `ErrPathNotFound` in it |
| GJson.UnmarshalWithOptions | pkg/gjson/json.go:45-51 | decodes with the stream decoder configured by the folded record |
| GJson.Unmarshal | pkg/gjson/json.go:36-43 | no options: the plain decoder's outcome from the zero value; otherwise the configured decoder's; the destination is returned even on failure |
| GJson.MarshalWithOptions | pkg/gjson/json.go:82-88 | encodes with the stream encoder configured by the folded record, which keeps the indent invariant |
| GJson.Marshal | pkg/gjson/json.go:71-80 | no options: the plain encoder's bytes and error; otherwise the configured encoder's |
| GJson.MarshalIndent | pkg/gjson/json.go:104-107 | the outcome of `json.MarshalIndent` with the given prefix and indent; no gjson options are involved |
| GJson.Dumps | pkg/gjson/json.go:140-143 | the plain encoder's bytes with its error dropped; empty when the encoder fails without bytes |
| GJson.Cast | pkg/gjson/json.go:126-128 | the plain decoder applied to `Dumps(from)`; a failed encoding surfaces as an error when the decoder rejects empty input |
| GJson.UnmarshalFromPath | pkg/gjson/json.go:168-174 | a miss gives the zero value and an error wrapping `ErrPathNotFound`; a match gives exactly `Unmarshal` of the raw text without options |
| GJson.UnmarshalFromPathWithDefault | pkg/gjson/json.go:191-194 | the decoded value when the path matches and decoding succeeds; the fallback when the path is missing or decoding fails |

## Legacy revisions

The directories `gjson/` and `gvalue/` hold an older revision of the same
code. Its logic matches the `pkg/` copies line for line, so the same members
model it:

| member | legacy lines |
|---|---|
| GValue.IfElse | gvalue/operation.go:8-13 |
| GValue.Equal | gvalue/operation.go:20-22 |
| GValue.EqualIsEquivalence | gvalue/operation.go:20-22 |
| GValue.LessInt | gvalue/operation.go:28-30 |
| GValue.LessString | gvalue/operation.go:28-30 |
| GValue.LessIntIsStrictOrder | gvalue/operation.go:28-30 |
| GJsonOption.ApplyDecode | gjson/option.go:32-48 |
| GJsonOption.ApplyEncode | gjson/option.go:52-68 |
| GJsonOption.DecodeSettings | gjson/option.go:77-87 |
| GJsonOption.EncodeSettings | gjson/option.go:96-107 |
| GJsonOption.DecodeFold | gjson/json.go:30-36 |
| GJsonOption.EncodeFold | gjson/json.go:54-60 |
| GJson.Unmarshal | gjson/json.go:21-28 |
| GJson.Marshal | gjson/json.go:43-52 |
| GJson.MarshalIndent | gjson/json.go:68-71 |
| GJson.Cast | gjson/json.go:77-79 |
| GJson.Dumps | gjson/json.go:84-87 |
| GJson.UnmarshalFromPath | gjson/json.go:94-100 |
| GJson.UnmarshalFromPathWithDefault | gjson/json.go:107-110 |

## Left out

- **The JSON grammar, printer and path syntax.**
  - These belong to `encoding/json` and `tidwall/gjson`. The `Decoder`, `Encoder` and `PathEngine` records are parameters, so every result holds for any codec and path engine.
  - Only two library facts are stated, as predicates that a contract may assume: decoding empty input fails, and a failed `json.Marshal` returns no bytes.
  - The trailing newline of `json.Encoder` is part of the encoder's opaque output.
- **The test's decoding example.** The string `"1"` decoded as an int yields the default. This depends on the real decoder, so only the general fallback rule is proved.
- **Reflection and `any`.**
  - `Marshal` takes `v any` and `Cast` takes `from any`. They are typed by a type parameter `V`; Go's dynamic typing and the `json.Marshaler` interfaces are not modelled.
  - The choice of return type `R` (`[]byte` or `string`) is the identity on `Bytes`.
- **UTF-8.**
  - Go strings are byte sequences. JSON data is modelled as `Bytes`, without decoding UTF-8.
  - Paths, indent strings and error messages are Dafny `string`s: sequences of Unicode characters. A Go path that holds invalid UTF-8 cannot be represented.
  - `Less` on strings compares characters, which matches Go's byte order only on valid UTF-8.
- **Floating point.** The float64 precision that `WithUseNumber` preserves is not modelled, and neither is `Less` on floats.
- GValue.EqualIsEquivalence, GSliceSet.Union, GSliceSet.Intersection, GSliceSet.Difference: element types are limited to those whose `==` is an equivalence relation (Dafny's `T(==)`).
  - Go's `comparable` also admits floats. There `NaN != NaN`, and every NaN map key is a new entry. So Go's `Union([]float64{NaN, NaN})` keeps both NaNs, and `Intersection` of two `{NaN}` slices is empty. The model keeps one NaN in the first case and returns `[NaN]` in the second.
  - Go's `comparable` also admits interface types. Comparing or hashing an uncomparable dynamic value panics. Neither NaN keys nor these panics are modelled.
- GSlice.Map, GSlice.Filter, GSlice.Reduce, GSlice.Find, GSlice.Any, GSlice.All, GSliceSet.Unique, GSliceSort.Sort, GSliceSort.StealSort, GSliceCmp.CmpWith: the callbacks (`fn`, `eq`, `less`, `cmp`) are modelled as pure, total Dafny functions.
  - In Go they are arbitrary closures. A callback that panics, such as `func(n int) int { return 1 / n }` on `0`, makes the whole call panic. The model has no such case.
  - A callback with side effects can observe how often and in which order it is called. Examples are the early exits of `Find`, `Any` and `All` (pkg/gslice/slice.go:82-84, 103-105, 124-126), `Any(nil, fn)` never calling `fn`, and `Reduce` calling `fn` once per element in order. The model's loops do run in that pattern, but no contract states it.
- **User-written options.** Options written by users outside the package are left out. In Go any `func(_option) _option` is an option. The model's option types are closed datatypes holding just the four options the package provides.
- **The sorting algorithm.**
  - `sort.Slice`'s own algorithm (pattern-defeating quicksort) is left out. The model sorts by insertion.
  - The contract promises only what the library promises. It always promises a permutation. It promises sortedness by `less` only when `less` is a strict weak order.
  - For any other `less`, such as `<` on floats with NaN, `sort.Slice` may leave inversions. The contract then says nothing about the order.
  - Neither stability nor the order of elements that `less` does not separate is promised.
  - The ordering of non-neighbouring elements is derived separately, under a strict weak order.
- **Map iteration order.** Go's randomised map iteration order in `Intersection` is an arbitrary choice of key. The result is specified only up to order.
- **GSlice.Slice: bounds and capacity.**
  - It checks bounds against `len`, not against capacity. Sub-slice capacity is not modelled.
  - Go panics when the bounds are out of range; here that case is a precondition.
- **Other source files.**
  - `gvalue/value.go` (`Zero`) is replaced by the `zero` parameter.
  - `gvalue/pointer.go` (`Ptr`, `Of`) is replaced by `Some`.
  - `gvalue/operations.go` only redeclares `IfElse`.
- **The HTTP handlers.** The handlers under `pkg/gweb` wrap the gin framework and are not part of this model.
- **Documentation and test files.** These are used as evidence for the properties above; they are not code to model.
