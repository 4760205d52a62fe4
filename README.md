# Message filter evaluator

A Dafny model of `filterMessages`, a small predicate engine that evaluates a filter
expression against messages (records mapping field names to strings, numbers, booleans or
dates) and keeps the messages the filter accepts.

A filter is a tree. Its leaves are typed conditions on one field: `string`, `number`,
`boolean` and `date`, each with an operation and a value. Its inner nodes are the
combinators `and` and `or` over a list of sub-filters. Every anomaly fails closed: an
absent field, a field of the wrong runtime type, an unknown operation or a date that does
not parse makes the leaf false, and never aborts the evaluation of the rest of the tree.

Files:

- `js_string.dfy` (module `JsString`): the ECMAScript string built-ins the rules use,
  `slice` with its negative / clamped indices and `includes`, and the lemmas tying each to
  the plain prefix, suffix and substring relations.
- `filter_messages.dfy` (module `MessageFilter`): the `Value`, `Message`, `DateArg` and
  `Filter` datatypes; one function per leaf rule; `Eval`, the meaning of a filter with the
  combinators evaluated in full; `Run`, `RunOr` and `RunAnd`, the dispatch and the two
  short-circuit loops of the source, each proved equal to `Eval`; and `FilterMessages`.
- `filter_laws.dfy` (module `FilterLaws`): properties of the model, and worked
  examples.

Modelling decisions:

- A message is a `map<string, Value>`. An absent key plays the role of `undefined`, which
  every type guard rejects.
- Operations are open strings, so the "unknown operation" branch of each rule is reachable.
- Numbers are `real`. IEEE-754 NaN, `-0` and rounding are not modelled.
- `new Date(x).getTime()` is split in two. A date object carries its instant as
  `Option<int>`, with `None` for an invalid date. A date string is turned into an instant
  by a parser `parse: string -> Option<int>` that the caller supplies, with `None` for NaN.
  Every comparison involving `None` is false, as every comparison with NaN is.
- `endsWith` with an empty value holds only for an empty field: `s.slice(-0)` is the whole
  of `s`, not the empty string (`JsString.SliceTailIsSuffix`). This is unlike `startsWith`
  and `contains`, which accept every string for an empty value.
- `after` and `before` are kept as the code has them. `after` holds when the message's
  instant is EARLIER than the value's, and `before` when it is later.

## Model

| member | source | states |
|---|---|---|
| `JsString.SliceHeadIsPrefix` | src/filterMessages.ts:22-24 | `s.slice(0, v.length) === v` holds exactly when `v` is a prefix of `s`, including when `v` is longer than `s` |
| `JsString.SliceTailIsSuffix` | src/filterMessages.ts:26-28 | `s.slice(-v.length) === v` holds exactly when `v` is a non-empty suffix of `s`, or when `v` and `s` are both empty |
| `JsString.IncludesIsSubstring` | src/filterMessages.ts:30-32 | the left-to-right search of `includes` finds `v` in `s` exactly when `v` is a contiguous substring of `s` |
| `MessageFilter.StringRule` | src/filterMessages.ts:11-35 | true only on a string field and a known operation; on a string field `eq` is equality, `startsWith` is "value is a prefix", `endsWith` is "value is a suffix" (for an empty value: "field is empty"), `contains` is "value is a substring" |
| `MessageFilter.NumberRule` | src/filterMessages.ts:37-64 | true only on a numeric field and a known operation; on a numeric field `eq`, `gt`, `gte`, `lt`, `lte` are `==`, `>`, `>=`, `<`, `<=` of field against value |
| `MessageFilter.BooleanRule` | src/filterMessages.ts:66-77 | true exactly when the field holds the boolean value and the operation is `eq` |
| `MessageFilter.DateRule` | src/filterMessages.ts:79-98 | true only on a string or date field, a known operation and two instants that both parse; then `eq` is equal instants, `after` is field instant < value instant, `before` is field instant > value instant |
| `MessageFilter.Run` | src/filterMessages.ts:121-126 | dispatching on the filter's kind gives the verdict of `Eval` for every filter and message |
| `MessageFilter.RunOr` | src/filterMessages.ts:100-108 | the loop that stops at the first sub-filter that holds returns true exactly when some sub-filter holds |
| `MessageFilter.RunAnd` | src/filterMessages.ts:110-118 | the loop that stops at the first sub-filter that fails returns true exactly when every sub-filter holds |
| `MessageFilter.FilterMessages` | src/filterMessages.ts:128-134 | the result is no longer than the input, and a message is in it exactly when it is in the input and the filter accepts it |
| `FilterLaws.MismatchedFieldFails` | src/filterMessages.ts:10-98 | a leaf whose field is absent or holds a value of the wrong runtime type is false, whatever its operation and value |
| `FilterLaws.UnknownOperationFails` | src/filterMessages.ts:10-98 | a leaf whose operation is not one its rule recognises is false on every message |
| `FilterLaws.EmptyStringValue` | src/filterMessages.ts:22-32 | with an empty value, `startsWith` and `contains` accept every string field, and `endsWith` accepts exactly the empty string |
| `FilterLaws.StringEqImpliesOthers` | src/filterMessages.ts:18-32 | a string field equal to the value also starts with it, contains it and, for a non-empty value, ends with it |
| `FilterLaws.StringAffixImpliesContains` | src/filterMessages.ts:22-32 | on a string field, `startsWith` and `endsWith` with a value each imply `contains` with that value |
| `FilterLaws.NumberOperationsTotalOrder` | src/filterMessages.ts:43-61 | on a numeric field `gt` is the negation of `lte`, `lt` of `gte`, and `eq` is `gte` and `lte` together |
| `FilterLaws.DateOperationsTrichotomy` | src/filterMessages.ts:85-97 | on a date field with two parsing instants exactly one of `eq`, `after`, `before` holds; with a failing parse none does |
| `FilterLaws.DateEqualityByInstant` | src/filterMessages.ts:85-87 | a date string and a condition string that parse to the same instant are equal under `eq`, whatever their spelling |
| `FilterLaws.EmptyCombinators` | src/filterMessages.ts:100-118 | `and([])` is true and `or([])` is false on every message |
| `FilterLaws.SingletonCombinators` | src/filterMessages.ts:100-118 | `and([a])` and `or([a])` both mean `a` |
| `FilterLaws.CombinatorsFlatten` | src/filterMessages.ts:100-118 | `and(fs + gs)` is `and(fs)` and `and(gs)`, and equals the nested `and([and(fs), and(gs)])`; likewise `or(fs + gs)` is `or(fs)` or `or(gs)`, and equals `or([or(fs), or(gs)])` |
| `FilterLaws.FilterIsSubsequence` | src/filterMessages.ts:128-134 | the filtered messages are a subsequence of the input: its elements in their original order |
| `FilterLaws.FilterMultiplicity` | src/filterMessages.ts:128-134 | every message occurs in the result as often as in the input if the filter accepts it, and never otherwise |
| `FilterLaws.FilterDistributes` | src/filterMessages.ts:128-134 | filtering a concatenation is concatenating the filtered parts |
| `FilterLaws.FilterComposes` | src/filterMessages.ts:128-134 | filtering by `f` and then by `g` is filtering by `and([f, g])` |
| `FilterLaws.FilterIdempotent` | src/filterMessages.ts:128-134 | filtering a second time by the same filter changes nothing |
| `FilterLaws.FilterExtremes` | src/filterMessages.ts:128-134 | filtering by `and([])` keeps every message, by `or([])` none |
| `FilterLaws.AgeScenario` | src/filterMessages.ts:51-53 | ages 20, 30 and 40 filtered by `age gte 30` leave the records aged 30 and 40, in that order |
| `FilterLaws.AliceScenario` | src/filterMessages.ts:110-118 | `{name: "Alice", age: 17}` passes `name startsWith "A"` but fails its `and` with `age gt 18` |
| `FilterLaws.ScoreScenario` | src/filterMessages.ts:100-108 | `{active: false, score: 150}` passes `or` of `active eq true` and `score gte 100` |

## Left out

- Date parsing: `new Date(text).getTime()` for strings (ISO-8601 and the other formats
  JavaScript accepts) is a caller-supplied `parse` function; the calendar is not modelled.
- Numbers: IEEE-754 semantics (NaN, `-0`, rounding, infinities) behind `===`, `<` and `>`
  are not modelled; numbers are exact reals and NaN is excluded.
- Strings: UTF-16 code units behind `slice` and `includes` are not modelled; a string is a
  sequence of characters.
- The TypeScript type machinery (the mapped type `Rules`, `Extract`, the generic
  parameters of `runner`) is replaced by the `Filter` datatype and a `match`.
- The `./types` module is not part of this model; the shapes of `Filter` and `Message`
  are inferred from how the evaluator uses them.
- `FilterMessages` is a function over `Eval` rather than a loop calling `Run`; `Run` is
  proved equal to `Eval`, so the two give the same verdicts.
- Cyclic filter trees cannot be built from a Dafny datatype, so the unbounded recursion
  they would cause is not modelled.
