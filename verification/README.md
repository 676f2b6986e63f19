# feathers-nedb-fuzzy-search in Dafny

A model of the feathers hooks that give a NeDB-backed service a `$search`
query operator, and of the `$where` predicates they install.

- `search(opts)` in lib/index.js normalises its options into settings `sm`. It
  then picks one of two hooks:
  - The **full-text hook** (lib/fullTextSearch.js). On a call without an id
    whose query has a truthy top-level `$search`, it installs
    `$where = fuzzySearch($search, sm)` for `find`. It deletes `$search` for
    every such call, and drops the MongoDB hint keys (`$language`,
    `$caseSensitive`, `$diacriticSensitive`) when they are truthy.
  - The **field rewriter** (lib/regexFieldSearch.js calling
    lib/transformSearchFieldsInQuery.js). It walks the whole query. A
    `$search` clause on a permitted key becomes a `$regex`; a clause reached
    with a falsy field name becomes a `$where` predicate; a clause on a
    forbidden key throws `BadRequest`. `$text` is never entered.
- The **predicate** `fuzzySearch(str, sm)` (lib/fuzzySearch.js) has three
  modes:
  - path mode: a list of dotted `fields`;
  - deep mode: every string leaf;
  - shallow mode: own top-level properties, skipping keys that start with
    `_`.

  All three compare diacritic-folded (optionally), case-insensitive, escaped
  literals.
- The package root, index.js, keeps an older hook and predicate. The hook
  acts on `find` only and ignores the id. The predicate has no folding, no
  paths, and throws on values that are not strings.

Values are a JSON-like datatype (`Values.Value`); an object is a sequence of
`Prop(key, value)` pairs in enumeration order. The installed regular
expression and the two kinds of `$where` closure are values of their own
(`Regex`, `Where`, `LegacyWhere`). What a closure does is given separately by
`FuzzySearch.Evaluate` and `Legacy.LegacyEvaluate`.

Each hook returns a `Result`: a thrown exception is a `Failure`, and the
rewritten call is a `Success`. The in-place walk of the field rewriter is a
left fold over the snapshot of an object's keys, each step seeing the object
as the earlier steps left it. This is why a `$caseSensitive` deleted by the
`$search` step is found absent when its own turn comes.

Modules, one per file:
- `Wrappers`, `Options`, `Values`, `Text`, `Hooks`: data and primitives.
- `RegexEscape`: escape-string-regexp.
- `FuzzySearch`: lib/fuzzySearch.js and lib/normalize.js.
- `Transform`, `TransformFacts`, `TransformScenarios`:
  lib/transformSearchFieldsInQuery.js.
- `FullText`: lib/fullTextSearch.js.
- `Setup`: lib/index.js and lib/regexFieldSearch.js.
- `Legacy`, `LegacyComparison`: index.js.
- `SearchScenarios`: the matcher on concrete text.

### Behaviour of the code that is easy to misread

- A `$search` value that is not a string is not rejected up front. Escaping
  throws a `TypeError`, here `ExpectedString`. The legacy predicate throws on
  a non-string property (`MatchOnNonString`) instead of skipping it.
- The permission test looks only at the key that immediately holds the clause,
  never at a dotted path. So a dotted entry in `fields` can never permit a
  nested clause (`TransformScenarios.DottedFieldRejectsNestedClause`); it only
  permits a key literally named with the dot
  (`TransformScenarios.DottedKeyPermitted`).
- Clause keys get no special treatment as field names. `{$regex: {$search}}`
  is checked under `$regex` like any other key. The one exception comes from
  the walk's order: once a non-object `$search` has been rewritten, a later
  `$caseSensitive`, and the later `$regex` or `$where` it overwrites, are
  never visited with their original value.
- "Field-scoped or not" is the truthiness of the key the walk came from:
  - inside an array that key is the element index;
  - index 0 counts as no field, so it installs a `$where`;
  - index 1 counts as a field, so it installs a `$regex`
    (`TransformScenarios.ArrayIndexAsFieldName`).
- The root clause removes `$caseSensitive` as well as `$search`.
- A failed rewrite leaves the query partially mutated; the model does not
  represent that state (see below).
- The full-text hook runs for every method without an id. Only `find` gets
  the predicate, but `$search` is deleted for all of them. Hint keys are
  dropped only when truthy (`FullText.FalsyHintKept`).
- `search([])` and `search({fields: []})` select the full-text hook with an
  empty path list, whose predicate matches nothing. A deny-list alone forces
  `fields` to `[]`, so a top-level `$search` then matches nothing either
  (`Setup.EmptyFieldListMatchesNothing`,
  `Setup.DenyListRootSearchMatchesNothing`).

## Model

| member | source | states |
|---|---|---|
| Values.Set | lib/transformSearchFieldsInQuery.js:33 | property assignment: the key then holds the new value, every other key reads as before, and no property other than the new one appears |
| Values.Delete | lib/transformSearchFieldsInQuery.js:38-39 | `delete`: the key reads as absent afterwards, every other key reads as before, an absent key leaves the object unchanged, and distinct keys stay distinct |
| Values.LookupFound | index.js:53 | reading a property finds a value exactly when the object has that own property, and the value found is one of its properties |
| Text.ExactMatchIgnoringCase | lib/fuzzySearch.js:18 | the `i` flag only widens a match: a case-sensitive occurrence is also a case-insensitive one |
| Text.FoldIdempotent | lib/normalize.js:5 | diacritic folding applied twice is folding applied once |
| Text.FoldAppend | lib/normalize.js:5 | folding works character by character: it distributes over concatenation |
| Text.JoinSplit | lib/fuzzySearch.js:26 | splitting a path on dots and joining the pieces gives the path back, and no piece holds a dot |
| Text.SplitJoin | lib/fuzzySearch.js:26 | joining dot-free segments and splitting again gives the same segments |
| Text.ParseIndexRoundTrip | lib/fuzzySearch.js:26 | an array index in a path is read from its canonical decimal numeral and from nothing else |
| RegexEscape.Escape | lib/fuzzySearch.js:18 | escaping never shortens the search string and leaves one without metacharacters exactly as it is |
| RegexEscape.UnescapeEscape | lib/fuzzySearch.js:18 | an escaped search string denotes exactly that string as a literal pattern |
| RegexEscape.EscapeUnescape | lib/transformSearchFieldsInQuery.js:28-30 | escaping is the only way to write a given literal pattern: any literal pattern for `s` is `escape(s)` |
| RegexEscape.EscapedPatternIsLiteral | lib/fuzzySearch.js:18 | a pattern built by escaping matches exactly the literal occurrences of the search string, with or without the `i` flag |
| FuzzySearch.NeedleSource | lib/fuzzySearch.js:18 | the predicate's pattern denotes the normalised search string literally |
| FuzzySearch.Normalize | lib/normalize.js:4-7 | without `fuzzyDiacritics` the text is left as it is; with it the result is already folded, so normalising again changes nothing |
| FuzzySearch.TextMatchesIff | lib/fuzzySearch.js:18-27 | a text matches iff its normalised form contains the normalised search string, ignoring case; metacharacters stand for themselves |
| FuzzySearch.Resolve | lib/fuzzySearch.js:26 | whatever a path finds is part of the record: every string it yields is a string leaf of the record |
| FuzzySearch.ChildLeaves | lib/fuzzySearch.js:26 | one path step, into an own property or an array element, only ever reaches string leaves of the value it starts from |
| FuzzySearch.ResolveJoin | lib/fuzzySearch.js:26 | a path of dot-free segments is resolved one segment at a time |
| FuzzySearch.ResolveTopLevel | lib/fuzzySearch.js:26 | a field name without a dot is a plain own-property lookup |
| FuzzySearch.FieldsReduceIff | lib/fuzzySearch.js:22-28 | the short-circuiting reduce is true iff some listed path resolves to a matching string |
| FuzzySearch.FieldsMode | lib/fuzzySearch.js:20-30 | with a `fields` array, a record matches iff some path resolves to a string containing the search string after normalisation, ignoring case |
| FuzzySearch.EmptyFieldsMatchNothing | lib/fuzzySearch.js:20-30 | an empty `fields` array rejects every record |
| FuzzySearch.UnresolvedPathIgnored | lib/fuzzySearch.js:26-27 | adding a path that is missing or holds a non-string changes no verdict: missing paths never fail |
| FuzzySearch.FieldsReduceSettings | lib/normalize.js:4-7 | path mode reads only the diacritic flag of the settings |
| FuzzySearch.FieldsOverrideDeep | lib/fuzzySearch.js:20-39 | a `fields` array takes precedence over `deep` |
| FuzzySearch.DeepMatchesLeaves | lib/fuzzySearch.js:32-38 | the deep reduce matches iff some string leaf at any depth matches |
| FuzzySearch.DeepMatchesPropsIff | lib/fuzzySearch.js:34-37 | deep mode over an object matches iff some property value matches deeply; no key is skipped |
| FuzzySearch.DeepMode | lib/fuzzySearch.js:32-39 | deep mode accepts a record iff one of its string leaves contains the search string, after normalisation, ignoring case |
| FuzzySearch.ShallowScanIff | lib/fuzzySearch.js:41-52 | the shallow loop returns true iff some top-level property, its key not starting with `_`, holds a matching string |
| FuzzySearch.ShallowMode | lib/fuzzySearch.js:41-52 | shallow mode accepts a record iff such a property's string contains the search string, after normalisation, ignoring case |
| FuzzySearch.ShallowImpliesDeep | lib/fuzzySearch.js:32-52 | every record the shallow mode accepts, the deep mode accepts too |
| FuzzySearch.EmptySearchMatchesEveryString | lib/fuzzySearch.js:18 | the empty search string matches every string |
| FuzzySearch.Evaluate | lib/fuzzySearch.js:16-53 | whatever the mode, an accepted record holds a string leaf containing the search string: path and shallow mode accept only records deep mode accepts |
| FuzzySearch.FieldsReduceDeep | lib/fuzzySearch.js:20-30 | a record accepted through a listed path is accepted by deep mode |
| FuzzySearch.ShallowScanDeep | lib/fuzzySearch.js:41-52 | a record accepted by the shallow loop is accepted by deep mode |
| SearchScenarios.ContainsSameLength | lib/fuzzySearch.js:27 | between strings of equal length, a literal match is equality |
| SearchScenarios.DiacriticFoldMatches | lib/normalize.js:5 | with `fuzzyDiacritics`, a text with an accented letter matches the search string with the base letter |
| SearchScenarios.DiacriticStrictWithoutFolding | lib/normalize.js:4-7 | without `fuzzyDiacritics`, that text does not match: case folding never turns a Latin-1 letter into ASCII |
| SearchScenarios.DiacriticExample | lib/normalize.js:4-7 | `påvirker` matches `pavirker` with folding and not without |
| SearchScenarios.OneTitle | lib/fuzzySearch.js:41-52 | a one-property record matches in shallow mode iff its string contains the search string, ignoring case |
| SearchScenarios.HelloWorldMatches | lib/fuzzySearch.js:41-52 | `{title: 'hello world'}` matches `world` |
| SearchScenarios.WorldAroundMatches | lib/fuzzySearch.js:41-52 | `{title: 'world around'}` matches `world` |
| SearchScenarios.CatsDoesNotMatch | lib/fuzzySearch.js:41-52 | `{title: 'cats'}` does not match `world` |
| Transform.PatternSource | lib/transformSearchFieldsInQuery.js:28-30 | an escaped pattern exists iff the search value is a string and then denotes it literally; an unescaped field takes the string as written |
| Transform.Replace | lib/transformSearchFieldsInQuery.js:33-39 | installing the target and deleting the two clause keys: the target holds the new value, the clause keys are gone, every other key is unchanged |
| Transform.RewriteClause | lib/transformSearchFieldsInQuery.js:25-40 | under a truthy field name: succeeds iff the pattern can be built, installs `$regex` (case-insensitive unless `$caseSensitive` is truthy). Under a falsy one: succeeds iff `$search` is a string, installs `$where` over the settings. Both remove `$search` and `$caseSensitive` and keep every other key |
| Transform.TransformValue | lib/transformSearchFieldsInQuery.js:7-17 | the walk never deepens a value, keeps arrays as arrays and objects as objects, and leaves every other value alone |
| Transform.TransformItems | lib/transformSearchFieldsInQuery.js:8 | an array keeps its length and its elements stay below the depth bound |
| Transform.VisitKey | lib/transformSearchFieldsInQuery.js:8-40 | one callback: `$text` is skipped; an object value is replaced by its rewrite or the call fails; `$search` on a non-object triggers the clause rewrite; other keys change nothing; only the visited key and clause keys can change |
| Transform.TransformProps | lib/transformSearchFieldsInQuery.js:8-41 | the fold over an object's keys never deepens it |
| Transform.PropsKeepKeys | lib/transformSearchFieldsInQuery.js:8-41 | the fold leaves `$text` as it was and never adds or removes a key other than `$search`, `$caseSensitive`, `$regex` and `$where` |
| Transform.TransformQuery | lib/transformSearchFieldsInQuery.js:7-42 | an accepted query keeps its `$text` and every key that is not a clause key: the rewrite replaces values and swaps clause keys only |
| TransformFacts.IdentityValue | lib/transformSearchFieldsInQuery.js:8-17 | a value without `$search` anywhere the walk reaches comes back unchanged, whatever the lists |
| TransformFacts.IdentityItems | lib/transformSearchFieldsInQuery.js:8 | the array part of the identity |
| TransformFacts.IdentityProps | lib/transformSearchFieldsInQuery.js:8-16 | the object part of the identity |
| TransformFacts.IdentityQuery | lib/transformSearchFieldsInQuery.js:7-42 | a query without `$search` is accepted and returned unchanged |
| TransformFacts.DescendSearchFree | lib/transformSearchFieldsInQuery.js:13-17 | descending into an object without `$search`, under any key, accepts it unchanged |
| TransformFacts.DescendSound | lib/transformSearchFieldsInQuery.js:13-24 | an accepted descent under a key had a clause right there only if the key is permitted, and every clause the walk reached inside on a permitted key too |
| TransformFacts.SoundValue | lib/transformSearchFieldsInQuery.js:13-24 | an accepted value has every `$search` clause the walk reaches on a permitted key; the only properties exempt are `$text` and the `$caseSensitive` or rewrite target that an earlier non-object `$search` sibling deletes or overwrites before their turn |
| TransformFacts.SoundItems | lib/transformSearchFieldsInQuery.js:8 | the array part: every element index holding a clause is permitted |
| TransformFacts.SoundProps | lib/transformSearchFieldsInQuery.js:8-24 | the fold over the key snapshot: every later property not overwritten by a sibling rewrite still holds its original value when visited, and every one the walk reaches has its clauses on permitted keys |
| TransformFacts.VisitFrame | lib/transformSearchFieldsInQuery.js:25-40 | one callback changes no later property except the `$caseSensitive` it deletes and the `$regex` or `$where` it overwrites after a non-object `$search` |
| TransformFacts.TransformSound | lib/transformSearchFieldsInQuery.js:13-24 | an accepted query has every `$search` clause the walk reaches on a key the lists permit; it does not reach `$text` or a property a sibling `$search` rewrite has already deleted or overwritten |
| TransformScenarios.RootClause | lib/transformSearchFieldsInQuery.js:34-35 | `{$search: s}` at the root becomes `{$where: fuzzySearch(s, sm)}` |
| TransformScenarios.FieldClause | lib/transformSearchFieldsInQuery.js:28-33 | a clause on a permitted field becomes a case-insensitive `$regex` of the escaped string |
| TransformScenarios.UnescapedClause | lib/transformSearchFieldsInQuery.js:28-33 | a field in `fieldsNotEscaped` gets the search string itself as the pattern |
| TransformScenarios.CaseSensitiveRewrite | lib/transformSearchFieldsInQuery.js:33-39 | `$caseSensitive: true` makes the pattern case-sensitive and is removed with `$search` |
| TransformScenarios.CaseSensitiveClause | lib/transformSearchFieldsInQuery.js:33-39 | the whole walk on such a clause: one case-sensitive `$regex`, nothing else left |
| TransformScenarios.ForbiddenClause | lib/transformSearchFieldsInQuery.js:19-23 | a clause on a forbidden key fails with `BadRequest` naming the key |
| TransformScenarios.DottedFieldRejectsNestedClause | lib/transformSearchFieldsInQuery.js:19-23 | with `fields: ['a.b']`, the clause nested at `a.b` is rejected under the name `b` |
| TransformScenarios.DottedKeyPermitted | lib/transformSearchFieldsInQuery.js:19-20 | with `fields: ['a.b']`, a clause on a key literally named `a.b` is permitted and becomes a `$regex` |
| TransformScenarios.ClauseUnderOperatorKey | lib/transformSearchFieldsInQuery.js:13-23 | with `fields: ['a']`, `{$regex: {$search: s}}` is rejected under `$regex`, and the permission predicate agrees |
| TransformScenarios.ArrayIndexAsFieldName | lib/transformSearchFieldsInQuery.js:32-36 | under the settings a deny-list installs, the clause at array index 0 gets a `$where`, the one at index 1 a `$regex` |
| FullText.DropIfTruthy | lib/fullTextSearch.js:18-20 | a key is deleted iff it is truthy; nothing else changes |
| FullText.StripKeys | lib/fullTextSearch.js:15-26 | `$search` is gone, each hint key is gone iff it was truthy, and every other key, `$where` included, is unchanged |
| FullText.InstallWhere | lib/fullTextSearch.js:12-14 | only `find` installs the predicate, which needs a string `$search`; nothing else changes |
| FullText.RewriteQuery | lib/fullTextSearch.js:12-26 | the activated query: predicate for `find`, `$where` kept otherwise, `$search` gone, truthy hints gone, all else kept |
| FullText.FullTextHook | lib/fullTextSearch.js:5-30 | no-op unless id is falsy and `$search` truthy; then fails iff `find` with a non-string `$search`; otherwise rewrites the query as above, keeping method and id |
| FullText.FullTextIdempotent | lib/fullTextSearch.js:7-9 | a second application changes nothing |
| FullText.FalsyHintKept | lib/fullTextSearch.js:18-26 | with no id and a non-empty string `$search`, the hook succeeds for any method and a falsy hint key such as `$caseSensitive: false` survives |
| Setup.Search | lib/index.js:29-54 | the field rewriter is chosen iff one list is non-empty. It then holds both lists, at most one non-empty, the allow-list winning. Full text keeps the lists as given. `escape` defaults to true, `fieldsNotEscaped` to `[]` |
| Setup.RegexFieldHook | lib/regexFieldSearch.js:4-8 | for any method and id: method and id are kept, a missing query or one without `$search` passes unchanged, an accepted query had every reached clause on a permitted key and keeps its `$text`, and a failure is the rewrite's exception |
| Setup.FieldModeWithoutSearch | lib/regexFieldSearch.js:5-7 | the field rewriter leaves calls without `$search` unchanged |
| Setup.FieldModeSound | lib/index.js:45-53 | a call the field rewriter accepts had every clause the walk reached on a permitted key |
| Setup.AllowListRootSearch | lib/index.js:45-53 | with an allow-list, a root `$search` becomes a path-mode predicate over the listed paths, with its exact acceptance condition |
| Setup.EmptyFieldListMatchesNothing | lib/index.js:36-50 | `search([])` installs the full-text hook whose predicate rejects every record |
| Setup.DenyListRootSearchMatchesNothing | lib/index.js:47-48 | with only a deny-list, a root `$search` installs a predicate rejecting every record |
| Setup.EscapeNeverRead | lib/index.js:30-32 | the `escape` option changes neither the choice of hook nor any predicate's verdict |
| Legacy.MatchValue | index.js:47-56 | `.match` with the escaped case-insensitive pattern: on a string it answers that pattern's literal test; on anything else it throws |
| Legacy.ScanFieldsIff | index.js:50-59 | when the listed values are strings, the field loop returns true iff some listed top-level key holds a string containing the search string, ignoring case |
| Legacy.ScanFieldsError | index.js:52-58 | a listed key holding a non-string, reached first, makes the predicate throw |
| Legacy.ScanAllIff | index.js:60-70 | when the inspected values are strings, the all-keys loop returns true iff some key not starting with `_` holds a matching string |
| Legacy.ScanAllError | index.js:61-69 | an inspected non-string, reached first, makes the predicate throw |
| Legacy.LegacyEvaluate | index.js:46-73 | either loop accepts a record only when one of its own properties holds a string containing the search string, ignoring case, and throws only on an own property that is not a string |
| Legacy.ScanFieldsOutcome | index.js:50-59 | the field loop's acceptance and its exception both come from own properties of the record |
| Legacy.ScanAllOutcome | index.js:60-70 | the same for the all-keys loop |
| Legacy.InstallThenDelete | index.js:31-32 | `$where` holds the predicate, `$search` is gone, everything else is kept |
| Legacy.LegacyHook | index.js:28-36 | no-op unless `find` with a truthy `$search`, whatever the id; then fails iff `$search` is not a string, else installs the legacy predicate and drops `$search` |
| Legacy.LegacyIdempotent | index.js:30 | a second application changes nothing |
| LegacyComparison.LegacyAgreesShallow | index.js:60-70 | without fields, on records whose inspected values are strings, the legacy predicate agrees with the newer shallow mode without folding |
| LegacyComparison.LegacyAgreesFields | index.js:50-59 | with dot-free field names, the legacy predicate agrees with the newer path mode without folding |
| LegacyComparison.DottedPathOnlyInCurrent | index.js:53 | `a.b` reaches `{a: {b: t}}` in the newer predicate but is a plain missing key in the legacy one |
| LegacyComparison.NonStringDiverges | index.js:66 | a leading number is skipped by the newer shallow scan and makes the legacy predicate throw |

## Left out

- Transform.TransformProps: its contract states only the depth bound. What the fold computes is stated by `TransformFacts` (identity, soundness, `$text`) and `TransformScenarios` (each clause shape), not by one closed formula.
- Legacy.ScanFieldsError: states the error only for a non-string under the first listed key. Later keys follow from the recursion, but no lemma states them.
- Legacy.ScanAllError: states the error only for the first property, for the same reason.
- Partial mutation on a throw: the field rewriter mutates the query in place and may throw halfway, leaving a partly rewritten query behind. A `Failure` here carries no query.
- The regular expression engine: only literal patterns get a meaning (`RegexEscape.LiteralTest`). A field in `fieldsNotEscaped` installs `$regex` with the search string as written, and what NeDB then does with that pattern is not modelled. Neither is the `SyntaxError` an invalid one would raise.
- `new RegExp(value)` on an unescaped `$search` holding a function: only the closures an earlier rewrite installed can get there, since arrays, objects and regular expressions are walked into instead. They are modelled as `ExpectedString`, not as JavaScript's coercion of the function's source text.
- Strings are sequences of Unicode code points, where JavaScript indexes UTF-16 code units. Only `key[0] === '_'` and the literal substring test index strings here, and the two agree on every string without surrogate pairs.
- Case folding covers ASCII letters only. Diacritic folding covers Latin-1 letters and the combining marks U+0300–U+036F, not the full tables of normalize-text.
- object-path lookups: a segment must name an own property of an object, or an array element by canonical decimal index. String characters, `length` and inherited properties are not followed.
- Numbers are integers: NaN, infinities and fractions do not occur, so their truthiness and numerals are not modelled.
- Option values of the wrong type: `fields`, `excludeFields` and `fieldsNotEscaped` that are present but not arrays, and list entries that are not strings, are left out. A field list is either absent or a list of strings.
- Non-object queries, such as a string query handed to feathers-commons `each`, are left out.
- Hooks mutate `hook.params.query` in place. Here they return the new hook, and the in-place write, the undefined return value of the field rewriter's hook and the framework's reuse of the hook object are not represented.
- The timing test in test.js (average search time) and the database I/O of example.js are outside the model.
