# chinese-telegraph, modelled in Dafny

The library turns one Chinese character into its four-digit Chinese
telegraph code. It holds two generated static maps, the Traditional (TW)
table and the Simplified (CN) table, and one public function,
`to_telegraph(character, table)`. The selector `Table` picks the TW table
only, the CN table only, or `Both`: TW first, with CN as the fallback when TW
has no entry. The result is an optional code. Absence is an ordinary answer:
an unknown character, an empty string and a string of several characters all
get `None`.

The Dafny project has three modules:

- `Options` (`options.dfy`) holds the part of Rust's `Option` that the
  dispatcher uses, namely `or_else`.
- `Tables` (`tables.dfy`) treats each static table as a `map<string, nat>`
  with exact-key lookup (`Get`). It defines `SingleCharKeys`, the
  well-formedness predicate saying that every key is exactly one Unicode
  scalar value (Dafny's `char` under its default `--unicode-char`). It also
  models a table's shape as generated data: a list of (character, code)
  entries, which must not name a character twice. `BuildTable` turns such a
  list into a map and fails on a repeated character. `Find` is a reference
  lookup that scans the list.
- `Telegraph` (`telegraph.dfy`) holds the `Table` selector, the dispatcher
  `ToTelegraph`, and the lemmas about it: which table answers, the
  precedence rule, when the answer is `None`, and the crate's unit
  tests (lib.rs:27-55) as scenarios.

The two tables are parameters of every member. Their contents, thousands of
generated entries, are not part of this model. A test's expectation about a
particular character (這 → 6638, 这 → 6638, 一 → 1) appears only as a
hypothesis about the tables.

## Model

| member | source | states |
|---|---|---|
| Telegraph.ToTelegraph | chinese-telegraph/src/lib.rs:12-21 | any code returned is the input's entry in a table that the selector consults; the result is `None` exactly when no consulted table has the input as a key |
| Tables.Get | chinese-telegraph/src/lib.rs:18-19 | a static-map lookup finds a code exactly when the key is in the table, and the code it finds is that key's entry |
| Options.Option.OrElse | chinese-telegraph/src/lib.rs:14-17 | `or_else` keeps a present first lookup and otherwise yields the second lookup, present or not; the result is present exactly when either is |
| Telegraph.TraditionalOnly | chinese-telegraph/src/lib.rs:18 | with `TW`, the result is `Some(tw[c])` when `c` is a TW key and `None` otherwise; replacing the CN table never changes it |
| Telegraph.SimplifiedOnly | chinese-telegraph/src/lib.rs:19 | with `CN`, the result is `Some(cn[c])` when `c` is a CN key and `None` otherwise; replacing the TW table never changes it |
| Telegraph.TraditionalPrecedence | chinese-telegraph/src/lib.rs:14-17 | when `c` is a TW key, `Both` returns `tw[c]` whatever the CN table holds for `c`, including a different code |
| Telegraph.SimplifiedFallback | chinese-telegraph/src/lib.rs:14-19 | when `c` is not a TW key, `Both` gives the same result as `CN` |
| Telegraph.BothNoneIffInNeither | chinese-telegraph/src/lib.rs:14-17 | `Both` returns `None` if and only if `c` is in neither table |
| Telegraph.BothCodeFromATable | chinese-telegraph/src/lib.rs:14-17 | every `Some(n)` from `Both` is `c`'s code in the TW table or in the CN table |
| Telegraph.BothExtendsTraditional | chinese-telegraph/src/lib.rs:14-18 | whenever `TW` returns `Some(n)`, `Both` also returns `Some(n)` |
| Telegraph.BothIsMergedLookup | chinese-telegraph/src/lib.rs:14-17 | `Both` is a lookup in the merge of the two tables in which TW entries override CN entries |
| Telegraph.OnlySingleCharacters | chinese-telegraph/src/lib.rs:12-21 | if every key of both tables is one character long, any input of another length (empty or several characters) gets `None` under every selector |
| Tables.BuildTable | chinese-telegraph/src/lib.rs:3-4 | an entry list yields a table exactly when no character is listed twice; the table's keys are the listed characters, each mapped to its listed code, one key per entry |
| Tables.Find | chinese-telegraph/src/lib.rs:3-4 | scanning the entries finds a code exactly when the key is listed, and the code it finds is that of the first entry listing the key |
| Tables.BuildTableAgreesWithFind | chinese-telegraph/src/lib.rs:3-4 | a built table answers every key exactly as a scan of its entry list does |
| Tables.BuildTableEntry | chinese-telegraph/src/lib.rs:3-4 | a built table maps a character to a code exactly when its entry list holds that (character, code) entry |
| Tables.BuildTableSingleCharKeys | chinese-telegraph/src/lib.rs:3-4 | a built table has single-character keys exactly when every entry names a single character |
| Telegraph.LookupMatchesEntries | chinese-telegraph/src/lib.rs:18-19 | over built tables, `TW` (or `CN`) returns `Some(n)` exactly when that table's entry list holds the entry (c, n) |
| Telegraph.ScenarioTraditionalCharacter | chinese-telegraph/src/lib.rs:27-31 | if the TW table maps 這 to 6638, then `TW` returns `Some(6638)` for 這 |
| Telegraph.ScenarioSimplifiedCharacter | chinese-telegraph/src/lib.rs:33-37 | if the CN table maps 这 to 6638, then `CN` returns `Some(6638)` for 这 |
| Telegraph.ScenarioCharacterInBoth | chinese-telegraph/src/lib.rs:39-43 | if the TW table maps 一 to 1, then `Both` returns `Some(1)` for 一 |
| Telegraph.ScenarioUnknownCharacter | chinese-telegraph/src/lib.rs:45-49 | 𠜎 is a single character, and if neither table lists it, `Both` returns `None` |
| Telegraph.ScenarioTwoCharacters | chinese-telegraph/src/lib.rs:51-55 | with single-character keys, 這是 gets `None` under `Both`, even when each of its characters is a key |

## Left out

- Table contents: the generated modules `cn` and `tw` (lib.rs:3-4) are not part of this model. The tables are abstract maps, and a fact about a particular character is only a hypothesis.
- Single-character keys: every key being one character is a property of the generated data, which this model cannot see. It is therefore a hypothesis, not a proven fact.
- The static map's hashing: the tables use an external static-map library. Its lookup is modelled as exact-key map lookup, and its internal structure is not modelled.
- Tables.BuildTable: idealises build-time table generation. The real build step does not have to reject a repeated character the way `BuildTable` does; `BuildTable` only records the rule that a table holds each key at most once.
- The range of codes: codes are `usize` in the Rust crate and `nat` here. The lookup only copies codes, so width and overflow never matter. The four-digit range is a fact about the data, and this model does not assume it.
- String formatting: lib.rs has no formatting function, so none is modelled. The library returns the numeric code only.
- Rust references and `.copied()`: a borrowed code and its copy are the same value in the model.
- `#![no_std]` (lib.rs:1) and linking: these are build concerns. The library has no I/O, no state and no concurrency.
