# Alumni directory engine, modelled in Dafny

This project models the client-side member-directory engine of the alumni
network web application. The engine lives in the `Directory` page. It runs a
few pure steps over an in-memory list of member records:

- **Normalisation** turns every store document into a canonical record. Alternate
  field names are resolved through ordered alias chains (`??`). Then a falsy
  fallback applies: `""` for college, profession and batch, and `"-"` for
  location and company. The graduation year is converted with `String(...)`.
- **Filtering** (`applyFilters`) always starts again from the full `users`
  list. It applies a case-insensitive substring search over eight fields,
  followed by five strict-equality dropdown filters.
- **Column sorting** (`sortUsers`) toggles the direction and sorts the list on
  screen with a comparator on lower-cased string keys.
- **Dropdown options** are the distinct truthy values of a field across all
  loaded records, in the order they are first seen.
- **The save guard** of `handleSaveUser` checks the admin role first and the
  required fields second.

Modules, one per concern:

| file | module | what it holds |
|---|---|---|
| `wrappers.dfy` | `Wrappers` | `Option`, and `Result` for code that throws |
| `js_values.dfy` | `JsValues` | document field values, truthiness, `String(...)`, `toLowerCase`, `trim`, `includes`, string `<` |
| `members.dfy` | `Members` | records, alias chains, `Normalize` |
| `subsequences.dfy` | `Subsequences` | order-preserving subsequences |
| `filtering.dfy` | `Filtering` | the criteria, `applyFilters` with the search corrected, and its one-pass reference `Select` |
| `search_as_written.dfy` | `SearchAsWritten` | the search exactly as written, including its `TypeError` |
| `sorting.dfy` | `Sorting` | the `sortBy` toggle, the comparator, the stable sort and its proofs |
| `filter_options.dfy` | `FilterOptions` | the dropdown option lists |
| `saving.dfy` | `Saving` | the validation prefix of `handleSaveUser` and the write it selects |
| `directory_view.dfy` | `DirectoryView` | the page state, its events, and the consistency invariant |

Modelling choices:

- A field value is `Undefined | Null | Str | Num | Bool`. A record is a
  `map<string, Value>`. That is the shape a spread (`{id, ...data, ...}`)
  produces, so every raw field stays visible. A key that is absent reads as
  `Undefined`.
- `toLowerCase` lower-cases the ASCII letters only.
- `trim` removes exactly the ECMAScript WhiteSpace and LineTerminator
  characters.
- String `<` compares strings character by character. A proper prefix sorts
  first.
- `Array.prototype.sort` is stable (ECMAScript 2019 onward). It is modelled as
  a stable insertion sort. The proofs state what any stable sort with this
  comparator returns: a permutation, sorted, and with each group of equal keys
  in its original order.

Behaviour of the code worth noting:

- The search does not look at `role`. A query that matches only a record's
  role does not find it (`Filtering.SearchIgnoresRole`).
- A document's own `id` field overrides the document key, because `...data`
  is spread after `id: d.id`.
- Normalised college, profession, batch, location and company keep the type
  of a truthy stored value: a numeric batch stays a number and is not turned
  into text. A falsy stored value (`0`, `false`, `""`) becomes `""` for
  college, profession and batch, and `"-"` for location and company
  (`Members.ResolveOr`).
- A second click on the same column reverses the list when no two distinct
  records tie on that column (`Sorting.SecondClickReverses`). It is not a
  reversal in general: the sort is stable, so records whose keys tie keep
  their relative order in both directions (`Sorting.SortRecords`,
  `Sorting.TiesKeepOrder`).

## Model

| member | source | states |
|---|---|---|
| `Members.Coalesce` | src/pages/Directory.jsx:61-80 | The result is the value of the first alias that is neither null nor undefined. An empty string counts as present. The fallback is returned only when no alias is present. |
| `Members.GradYearOf` | src/pages/Directory.jsx:61-68 | The graduation year is the stringified value of the first present alias, in the order gradYear, graduateYear, yearToGraduate, year_to_graduate, graduationYear, grad_year. It is `""` when none is present. |
| `Members.ResolveOr` | src/pages/Directory.jsx:70-90 | The first present alias wins, and a falsy winner is replaced by the fallback. With no truthy alias the result is the fallback. A truthy fallback (`"-"`) gives a truthy result. |
| `Members.NormalizeShape` | src/pages/Directory.jsx:82-90 | The normalised record keeps every raw field and adds `id` and the six canonical keys. A raw `id` beats the document key. |
| `Members.NormalizedFields` | src/pages/Directory.jsx:57-91 | Each canonical field of the normalised record is the value its alias chain resolves to: the stringified graduation year, `""` for a falsy college, profession or batch, and `"-"` for a falsy location or company. |
| `Members.NormalizedInvariant` | src/pages/Directory.jsx:85-90 | Every normalised record has a textual graduation year, and its location and company are never falsy. |
| `Members.DashPlaceholder` | src/pages/Directory.jsx:79-90 | A document with no truthy `location` or `city` gets the location `"-"`, and one with no truthy `company` or `organization` gets the company `"-"`. |
| `Members.EmptyLocationIgnoresCity` | src/pages/Directory.jsx:79-89 | A present empty `location` stops the chain, so `city` is ignored and the record shows `"-"`. |
| `Members.EmptyGradYearWins` | src/pages/Directory.jsx:61-68 | A present empty `gradYear` wins over a later alias that holds a year. |
| `Members.GradYearAliasExample` | src/pages/Directory.jsx:61-85 | Three documents with their year under gradYear, graduateYear and yearToGraduate (the last one numeric) read back "2020", "2019" and "2018". |
| `JsValues.TrimEmptyIffBlank` | src/pages/Directory.jsx:107 | `search.trim()` is empty exactly when every character of the search is whitespace. |
| `JsValues.NumberText` | src/pages/Directory.jsx:85 | `String(n)` of an integer is an optional minus sign and the decimal digits of its magnitude, and those digits read back as the magnitude. |
| `JsValues.DecimalRoundTrip` | src/pages/Directory.jsx:85 | Writing a natural number in decimal and reading the digits back gives the number. |
| `JsValues.NatToDecimal` | src/pages/Directory.jsx:85 | The decimal text of a number is non-empty, made of digits, and has no leading zero. It has more than one digit exactly when the number is at least 10. |
| `JsValues.LowerIdempotent` | src/pages/Directory.jsx:108-118 | Lower-casing an already lower-cased text changes nothing. |
| `JsValues.LowerIgnoresCase` | src/pages/Directory.jsx:108-118 | Two strings that differ at most in the case of ASCII letters lower-case to the same text. |
| `JsValues.BlankIgnoresCase` | src/pages/Directory.jsx:107 | Changing the case of letters never makes a search text blank or non-blank. |
| `JsValues.IncludesIffSplit` | src/pages/Directory.jsx:111-118 | `hay.includes(needle)` holds exactly when `hay` is some text, then `needle`, then some text. |
| `JsValues.LexLessTransitive` | src/pages/Directory.jsx:138-139 | String `<` is transitive. |
| `JsValues.LexLessTotal` | src/pages/Directory.jsx:138-139 | Of two distinct strings, one is `<` the other. |
| `Sorting.InOrderTotal` | src/pages/Directory.jsx:135-141 | Of any two keys, one may stand before the other in either direction. |
| `Sorting.InOrderTransitive` | src/pages/Directory.jsx:135-141 | The order the comparator induces on keys is transitive in either direction. |
| `Filtering.Select` | src/pages/Directory.jsx:109-126 | The one-pass reference filter returns a subsequence of its input. A record is in it exactly when the record is in the input and matches the criteria. A matching record appears as often as in the input, and any other record never appears. |
| `Filtering.ApplyFilters` | src/pages/Directory.jsx:104-129 | The search step followed by the five equality steps equals the one-pass reference. The result is an order-preserving subsequence of `users` holding exactly the matching records, each as often as in `users`. |
| `Filtering.StagesAreOnePass` | src/pages/Directory.jsx:105-126 | Filtering stage after stage keeps exactly the records that pass every stage, in their original order. |
| `Filtering.ActiveStagesMeaning` | src/pages/Directory.jsx:107-126 | A record passes all active stages exactly when it matches: the search is non-blank and hits, and every non-empty selection equals the record's field strictly. |
| `Filtering.FilterIdempotent` | src/pages/Directory.jsx:104-129 | Filtering the filtered list again with the same criteria changes nothing. |
| `Filtering.NoCriteriaKeepsAll` | src/pages/Directory.jsx:107-126 | With a blank search and no selection, every record is shown in its original order. |
| `Filtering.SearchIgnoresCase` | src/pages/Directory.jsx:107-119 | Two search texts that differ only in letter case select exactly the same records. |
| `Filtering.SearchIgnoresRole` | src/pages/Directory.jsx:109-119 | Changing a record's role never changes whether the search finds it. |
| `SearchAsWritten.FieldTestAgrees` | src/pages/Directory.jsx:111-118 | One field test as written answers like the corrected test on a string or a falsy value, and throws on a truthy number or boolean. |
| `SearchAsWritten.SearchHitAgrees` | src/pages/Directory.jsx:110-118 | When every searched field is a string or falsy, the short-circuit `\|\|` chain as written finds a hit exactly when some field contains the query. |
| `SearchAsWritten.SearchStepAgrees` | src/pages/Directory.jsx:109-119 | On such records the search `filter` as written does not throw and keeps exactly the records the corrected search stage keeps. |
| `SearchAsWritten.AsWrittenAgreesOnText` | src/pages/Directory.jsx:107-126 | When every searched field is a string or falsy, the code as written and the corrected filter return the same list. |
| `SearchAsWritten.NumericBatchKept` | src/pages/Directory.jsx:76-88 | Normalising a document whose `batchYear` is the number 2020 leaves the batch the number 2020. |
| `SearchAsWritten.NumericBatchThrows` | src/pages/Directory.jsx:109-119 | Searching a directory that holds that member for "x" throws a `TypeError` in the code as written. |
| `SearchAsWritten.CorrectedFindsNumericBatch` | src/pages/Directory.jsx:109-119 | The corrected search reads the numeric batch as "2020" and finds that member. |
| `Sorting.NextSortBy` | src/pages/Directory.jsx:132-133 | The new direction is descending exactly when the clicked column is the current one and the current direction is ascending. |
| `Sorting.SameColumnAlternates` | src/pages/Directory.jsx:132-133 | Clicking the same column again always flips the direction. Clicking another column always starts ascending. |
| `Sorting.CompareMeaning` | src/pages/Directory.jsx:135-141 | The comparator puts `a` strictly before `b` exactly when `b` may not come before `a` in the chosen direction. It returns 0 exactly on equal keys. |
| `Sorting.SortRecords` | src/pages/Directory.jsx:135-142 | The sorted list is a permutation of the list shown. Its keys are in order for the direction. For every key, the records with that key keep their relative order. |
| `Sorting.SortedUnique` | src/pages/Directory.jsx:135-142 | When no two distinct records tie, a collection of records has only one sorted arrangement. |
| `Sorting.SecondClickReverses` | src/pages/Directory.jsx:131-142 | When no two distinct records tie, sorting a sorted list the other way reverses it. |
| `Sorting.TiesKeepOrder` | src/pages/Directory.jsx:135-141 | A list whose keys all tie is left as it is in either direction. |
| `FilterOptions.FirstTruthyOccurrencesSpec` | src/pages/Directory.jsx:197-201 | The reference list holds exactly the truthy values, with no duplicates, ordered by first occurrence. |
| `FilterOptions.OptionList` | src/pages/Directory.jsx:197-201 | A dropdown lists exactly the distinct truthy values of its field across all loaded records, in first-seen order. |
| `FilterOptions.DistinctTruthy` | src/pages/Directory.jsx:197-201 | A single pass with a set of values already seen gives the reference list: distinct truthy values in first-seen order. |
| `FilterOptions.DeriveOptions` | src/pages/Directory.jsx:197-201 | The option list the page computes for a field equals the reference option list. |
| `FilterOptions.PlaceholderOffered` | src/pages/Directory.jsx:79-90 | If some document has no truthy location alias, `"-"` is offered in the location dropdown. The same holds for the company aliases and the company dropdown. |
| `Saving.PlanSave` | src/pages/Directory.jsx:149-173 | A non-admin or a signed-out user gets the admin error whatever the form holds. An admin with a missing name, email or role gets the required-fields error. Neither rejection writes anything. An edit writes the form's fields into the edited document. A creation stamps `createdAt` and `createdBy` over the form. |
| `Saving.RejectionIgnoresTarget` | src/pages/Directory.jsx:153-161 | A rejection depends neither on the record being edited nor on the clock. |
| `DirectoryView.Step` | src/pages/Directory.jsx:34-143 | A fetch or a criteria change shows exactly the filtered full list, in the order of `users`. A column click sorts the rows already shown by the new `sortBy`, and rows with equal keys keep their order. A failed fetch changes nothing. Every event keeps the consistency invariant. Only a fetch changes `users`, and only a column click changes `sortBy`. |
| `DirectoryView.AlwaysConsistent` | src/pages/Directory.jsx:38-48 | After any sequence of events, the rows shown are a permutation of the full list filtered by the current criteria. |
| `DirectoryView.InitialConsistent` | src/pages/Directory.jsx:17-27 | The initial state is consistent. |
| `DirectoryView.ShownIffMatches` | src/pages/Directory.jsx:104-129 | In a consistent state, a record is shown exactly when it is loaded and matches the criteria, and then as many times as it is loaded. |
| `DirectoryView.FilterForgetsHistory` | src/pages/Directory.jsx:104-105 | A criteria change gives the same list whatever was filtered or sorted before. |
| `DirectoryView.Options` | src/pages/Directory.jsx:197-201 | The five dropdown lists are the first-seen distinct truthy values of role, profession, college, location and company. |
| `DirectoryView.OptionsIgnoreFiltering` | src/pages/Directory.jsx:197-201 | Searching, selecting, sorting or a failed fetch never changes what the dropdowns offer. |

## Left out

- Store reads and writes (`getDocs`, `setDoc`, `updateDoc`, `deleteDoc`) are external I/O. A fetch is modelled as an event that carries its documents, and a save stops at the write it would issue.
- `handleDeleteUser` is left out. It is a `window.confirm` prompt followed by a store delete and a refetch.
- React rendering, `handleFormChange`, the modal, the `loading` flag and the `error` text are UI state.
- Between `setFiltered(list)` and the effect that re-applies the filters, a fetch briefly renders the unfiltered list. The model goes straight to the filtered list.
- `Date.now()` and `new Date().toISOString()` are nondeterministic. They are parameters of `Saving.PlanSave`.
- The refetch, modal close and form reset after a successful save are I/O and UI. The refetch is the separate fetch event.
- JsValues.ToJsString: a number is an unbounded integer printed as plain decimal digits. JavaScript numbers are doubles, so integers beyond 2^53 lose precision and `String` switches to exponent notation from 10^21 (`"1e+21"`). Both are outside the years and counts a directory stores.
- Objects, arrays, store timestamps and non-integer numbers (including `NaN` and `-0`) are not field values in this model. `String(...)` of such values is not modelled.
- `toLowerCase` is ASCII only. Non-ASCII letters keep their case.
- Characters are Unicode code points. JavaScript compares UTF-16 code units, which differs only for characters outside the Basic Multilingual Plane.
- Dropdowns change one selection at a time in the UI. The model lets an event replace all criteria at once, which includes that case. A criteria event is taken to change at least one criterion: the page re-runs the filter effect only when a dependency changes, while `DirectoryView.Step` re-filters (and so drops a column sort) even for an event that repeats the current criteria.
- The chatbot service (`alumni-chatbot-api/api/chatbot.js`, `alumni-chatbot-api/server.js`) is left out. It consists of fixed HTML templates, an external chat-completion call and HTTP wiring.
- `src/pages/Home.jsx` is left out because it is static markup.

## Findings

| source | as written | input that shows it | evidently intended | confidence | as-written member | corrected member |
|---|---|---|---|---|---|---|
| src/pages/Directory.jsx:109-119 | Each searched field is read as `(u.field \|\| "").toLowerCase()`. Normalisation keeps the type of a truthy college, profession, batch, location or company (`rawBatch \|\| ""`). So a number or boolean reaches `toLowerCase`, which does not exist on it, and the filter throws. | A stored document `{batchYear: 2020}` and the search text "x" | Read each field as text, as `sortUsers` does with `(v \|\| "").toString().toLowerCase()` | not executed; high (the path needs only a numeric alias value, which the alias lists invite) | `SearchAsWritten.NumericBatchThrows` | `SearchAsWritten.CorrectedFindsNumericBatch` |

`Filtering.ApplyFilters` is the corrected filter, and the rest of the model uses
it. `SearchAsWritten.AsWrittenAgreesOnText` proves that it changes nothing for
records whose searched fields are all strings or falsy.
