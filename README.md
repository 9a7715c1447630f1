# changelog-compose: the changelog parser and its load/retry view model

The library shows an in-app changelog read from an XML raw resource. Its core has three parts:

- The parser, `ChangelogParser.parseChangelog`. It makes one forward pass over the events of an XML pull parser and groups each `changelogtext` entry under the most recent `changelogversion` start tag. Along the way it:
  - reads the version name and date from the version tag, defaulting a missing name to `""`;
  - maps the `type` attribute case-insensitively onto `FIX`, `NEW` or `BREAKING`;
  - trims each entry's text and collapses runs of whitespace to one space;
  - drops entries that end up empty;
  - emits the last open release at the end of the document.
- The view model, `ChangelogViewModel`. It owns one `ChangelogUiState {changelog, isLoading, error}` value and replaces it at each step of a load:
  - a begin step marks the state as loading;
  - a completion step either applies the parsed changelog or records one of three error messages (resource not found, malformed XML, read failure);
  - `retry` is another load.
- The value types `Changelog`, `Release`, `ChangeItem` and `ChangeType`.

The Dafny project has these files:

- `models.dfy` (module `ChangelogModels`): the value types as datatypes.
- `whitespace.dfy` (module `Whitespace`): trimming, whitespace collapsing, normalisation and ASCII lower case, with their properties. These include idempotence, the normal form of the output, and the fact that no visible character is lost.
- `parser.dfy` (module `ChangelogParser`): the parser in two layers.
  - The input is the pull parser's output, an event list. A start tag carries its attributes and what `nextText()` would return for it; a `Failure` event is an exception raised while advancing.
  - The specification is a fold, `Run`/`Parse`, one `Step` per iteration of the loop.
  - The imperative method `ParseChangelog` mirrors the `while` loop and its three mutable variables, and is proved equal to the fold.
  - A reference definition, `Grouped`, says which release each entry joins. It is proved equal to the fold on every fault-free document.
- `documents.dfy` (module `ChangelogDocuments`): writes a changelog out as a document's events. It proves the round trip: parsing that document gives the changelog back. It also proves that everything the parser emits is such a changelog.
- `viewmodel.dfy` (module `ViewModel`): the UI state and its transitions as functions, and the class `ChangelogViewModel` whose methods replace its `uiState` field.
- `scenarios.dfy` (module `ChangelogScenarios`): the load, fail and retry sequence of the view-model tests, replayed on the class.

A raw resource is looked up in a table `map<int, seq<Event>>`. A missing id is the resource-not-found exception. Tokenizer exceptions are events:

- a `SyntaxError` is an `XmlPullParserException`;
- a `ReadError` is an `IOException`.

Any other exception thrown during a load is the `Unclassified` outcome, which the view model does not catch.

## Model

| member | source | states |
|---|---|---|
| Whitespace.TrimStartSpec | changelog/src/main/java/com/codingfeline/changelog/internal/parser/ChangelogParser.kt:61 | the result is a suffix of the input that does not start with whitespace, and everything removed is whitespace |
| Whitespace.TrimEndSpec | changelog/src/main/java/com/codingfeline/changelog/internal/parser/ChangelogParser.kt:61 | the result is a prefix of the input that does not end with whitespace, and everything removed is whitespace |
| Whitespace.TrimKeepsContent | changelog/src/main/java/com/codingfeline/changelog/internal/parser/ChangelogParser.kt:61 | trimming either end keeps every non-whitespace character, in order |
| Whitespace.CollapseKeepsContent | changelog/src/main/java/com/codingfeline/changelog/internal/parser/ChangelogParser.kt:62 | replacing each whitespace run by one space keeps every non-whitespace character, in order |
| Whitespace.CollapseEnds | changelog/src/main/java/com/codingfeline/changelog/internal/parser/ChangelogParser.kt:62 | collapsing gives empty text only for empty text, and keeps whether the first and last characters are whitespace |
| Whitespace.CollapseSpacesAreSingle | changelog/src/main/java/com/codingfeline/changelog/internal/parser/ChangelogParser.kt:62 | after collapsing, every whitespace character is a plain space and no two whitespace characters are adjacent |
| Whitespace.CollapseNormalized | changelog/src/main/java/com/codingfeline/changelog/internal/parser/ChangelogParser.kt:62 | collapsing changes nothing in text whose every whitespace character is a single plain space followed by a non-whitespace character |
| Whitespace.CollapseRun | changelog/src/main/java/com/codingfeline/changelog/internal/parser/ChangelogParser.kt:62 | a non-empty run of whitespace followed by a non-whitespace character or the end of the text becomes exactly one plain space, and the rest is collapsed on its own |
| Whitespace.CollapseWord | changelog/src/main/java/com/codingfeline/changelog/internal/parser/ChangelogParser.kt:62 | a stretch without whitespace is copied unchanged, and the rest is collapsed on its own |
| Whitespace.NormalizeIsNormalized | changelog/src/main/java/com/codingfeline/changelog/internal/parser/ChangelogParser.kt:59-62 | normalised text has no leading or trailing whitespace and no two adjacent whitespace characters |
| Whitespace.NormalizeFixpoint | changelog/src/main/java/com/codingfeline/changelog/internal/parser/ChangelogParser.kt:59-62 | text already in normal form is left unchanged |
| Whitespace.NormalizeIdempotent | changelog/src/main/java/com/codingfeline/changelog/internal/parser/ChangelogParser.kt:59-62 | normalising twice gives the same text as normalising once |
| Whitespace.NormalizeKeepsContent | changelog/src/main/java/com/codingfeline/changelog/internal/parser/ChangelogParser.kt:59-62 | normalising keeps every non-whitespace character, in order |
| Whitespace.NormalizeEmpty | changelog/src/main/java/com/codingfeline/changelog/internal/parser/ChangelogParser.kt:60-63 | the normalised text is empty exactly when the raw text is all whitespace, in both directions |
| Whitespace.NonSpaceEmpty | changelog/src/main/java/com/codingfeline/changelog/internal/parser/ChangelogParser.kt:63 | text has no visible character exactly when it is all whitespace |
| Whitespace.Lower | changelog/src/main/java/com/codingfeline/changelog/internal/parser/ChangelogParser.kt:52 | lower-casing keeps the length and maps each character independently |
| ChangelogParser.TypeOfNames | changelog/src/main/java/com/codingfeline/changelog/internal/parser/ChangelogParser.kt:51-57 | the category is FIX, NEW or BREAKING exactly when the attribute equals `fix`, `new` or `breaking` ignoring case; otherwise, and when the attribute is absent, there is none |
| ChangelogParser.TypeOfIgnoresCase | changelog/src/main/java/com/codingfeline/changelog/internal/parser/ChangelogParser.kt:52 | all casings of the same word name the same category |
| ChangelogParser.ReleaseHeader | changelog/src/main/java/com/codingfeline/changelog/internal/parser/ChangelogParser.kt:43-47 | the version name is the attribute or `""` when it is missing; the date is present exactly when its attribute is, and is copied verbatim; there are no entries yet |
| ChangelogParser.EntryKept | changelog/src/main/java/com/codingfeline/changelog/internal/parser/ChangelogParser.kt:50-65 | an entry is kept exactly when its raw text is not all whitespace; a kept entry has non-empty text in normal form and the normalised raw text as its text and the category its `type` attribute names |
| ChangelogParser.ParseResource | changelog/src/main/java/com/codingfeline/changelog/internal/parser/ChangelogParser.kt:25 | the result is `NotFound` exactly when the resource id is missing |
| ChangelogParser.ParseChangelog | changelog/src/main/java/com/codingfeline/changelog/internal/parser/ChangelogParser.kt:19-81 | the imperative loop, with its mutable releases, open release and gathered entries, returns exactly the fold specification's result, including early exit on an exception and the final flush |
| ChangelogParser.StepFaultless | changelog/src/main/java/com/codingfeline/changelog/internal/parser/ChangelogParser.kt:34-68 | an event that raises nothing either closes the open release and opens a new one with no entries (a version tag), or adds the entries it contributes to the open release |
| ChangelogParser.StepGroups | changelog/src/main/java/com/codingfeline/changelog/internal/parser/ChangelogParser.kt:37-66 | one fault-free step preserves what the loop will eventually emit, measured against the reference grouping |
| ChangelogParser.RunGroups | changelog/src/main/java/com/codingfeline/changelog/internal/parser/ChangelogParser.kt:33-76 | from any state, the loop over fault-free events emits the state's releases, then its open release with the leading entries added, then the reference grouping of the events |
| ChangelogParser.ParseIsGrouped | changelog/src/main/java/com/codingfeline/changelog/internal/parser/ChangelogParser.kt:19-81 | a fault-free document parses to one release per version tag, in document order, each holding the kept entries up to the next version tag |
| ChangelogParser.ParseFailsAtFirstFault | changelog/src/main/java/com/codingfeline/changelog/internal/parser/ChangelogParser.kt:33-70 | a parse fails with the first exception in document order, as `Malformed` or `IoFail` |
| ChangelogParser.GroupedCount | changelog/src/main/java/com/codingfeline/changelog/internal/parser/ChangelogParser.kt:37-48 | there are exactly as many releases as `changelogversion` start tags |
| ChangelogParser.ReleaseOfTag | changelog/src/main/java/com/codingfeline/changelog/internal/parser/ChangelogParser.kt:39-48 | the release of the k-th version tag sits at position k, takes its header from that tag, and holds exactly the entries between that tag and the next; closing tags play no part |
| ChangelogParser.GroupedEntriesNormalized | changelog/src/main/java/com/codingfeline/changelog/internal/parser/ChangelogParser.kt:63-65 | no emitted entry has empty text, and every emitted text is in normal form |
| ChangelogParser.PreambleDiscarded | changelog/src/main/java/com/codingfeline/changelog/internal/parser/ChangelogParser.kt:39-48 | events before the first version tag contribute nothing; entries among them are discarded |
| ChangelogParser.NoVersionTagsNoReleases | changelog/src/main/java/com/codingfeline/changelog/internal/parser/ChangelogParser.kt:20-80 | a fault-free document without a version tag parses to the empty changelog |
| ChangelogParser.RunAppend | changelog/src/main/java/com/codingfeline/changelog/internal/parser/ChangelogParser.kt:33-71 | running the loop over two documents in turn is running it over their concatenation |
| ChangelogParser.IgnoredEventChangesNothing | changelog/src/main/java/com/codingfeline/changelog/internal/parser/ChangelogParser.kt:34-36 | an end tag, text, or a start tag of another name can be removed without changing the parse |
| ChangelogDocuments.TypeAttrsRoundTrip | changelog/src/main/java/com/codingfeline/changelog/internal/parser/ChangelogParser.kt:51-57 | writing a category as a `type` attribute and reading it back gives it unchanged |
| ChangelogDocuments.VersionAttrsRoundTrip | changelog/src/main/java/com/codingfeline/changelog/internal/parser/ChangelogParser.kt:43-47 | the header read from a written version tag is the release without its entries |
| ChangelogDocuments.EntryRead | changelog/src/main/java/com/codingfeline/changelog/internal/parser/ChangelogParser.kt:50-65 | a written entry whose text is non-empty and normal is read back as itself |
| ChangelogDocuments.EntryEventsRead | changelog/src/main/java/com/codingfeline/changelog/internal/parser/ChangelogParser.kt:63-65 | written entries are gathered back in their order |
| ChangelogDocuments.ReleaseRead | changelog/src/main/java/com/codingfeline/changelog/internal/parser/ChangelogParser.kt:37-66 | a written release, whatever follows it, is read back first and whole |
| ChangelogDocuments.RoundTrip | changelog/src/main/java/com/codingfeline/changelog/internal/parser/ChangelogParser.kt:19-81 | parsing the written document of a changelog whose entries are non-empty and normal gives that changelog back |
| ChangelogDocuments.ParsedIsWellFormed | changelog/src/main/java/com/codingfeline/changelog/internal/parser/ChangelogParser.kt:59-65 | every changelog the parser emits is one the round trip covers |
| ViewModel.InitialState | changelog/src/main/java/com/codingfeline/changelog/internal/viewmodel/ChangelogViewModel.kt:19-24 | the initial state has an empty changelog, is loading, and has no error |
| ViewModel.Begin | changelog/src/main/java/com/codingfeline/changelog/internal/viewmodel/ChangelogViewModel.kt:35 | beginning a load sets loading, clears the error and keeps the changelog |
| ViewModel.Completed | changelog/src/main/java/com/codingfeline/changelog/internal/viewmodel/ChangelogViewModel.kt:37-69 | on success the changelog is replaced with no error; on each caught failure the changelog is kept and the error is the exact message (not found, format prefix plus message, read prefix plus message); loading stops exactly on a caught outcome; an uncaught exception leaves the state unchanged |
| ViewModel.TransitionsKeepConsistent | changelog/src/main/java/com/codingfeline/changelog/internal/viewmodel/ChangelogViewModel.kt:30-68 | the initial state and both transitions keep the invariant that no error is shown while loading and every error is one of the three kinds |
| ViewModel.LoadSettles | changelog/src/main/java/com/codingfeline/changelog/internal/viewmodel/ChangelogViewModel.kt:35-68 | after a classified load nothing is loading, the error is absent exactly when the parse succeeded, and a failure keeps the previous changelog |
| ViewModel.UnclassifiedStaysLoading | changelog/src/main/java/com/codingfeline/changelog/internal/viewmodel/ChangelogViewModel.kt:35-69 | an exception no handler catches leaves the state as the begin step set it: loading, with no error |
| ViewModel.RetryRecovers | changelog/src/main/java/com/codingfeline/changelog/internal/viewmodel/ChangelogViewModel.kt:73-75 | a failed load shows an error, and a successful load after it shows the parsed changelog with no error |
| ViewModel.ChangelogViewModel.constructor | changelog/src/main/java/com/codingfeline/changelog/internal/viewmodel/ChangelogViewModel.kt:30 | a new view model holds the initial state |
| ViewModel.ChangelogViewModel.BeginLoad | changelog/src/main/java/com/codingfeline/changelog/internal/viewmodel/ChangelogViewModel.kt:35 | the field becomes the begin transition of its old value, keeping the invariant |
| ViewModel.ChangelogViewModel.Complete | changelog/src/main/java/com/codingfeline/changelog/internal/viewmodel/ChangelogViewModel.kt:41-68 | the field becomes the completion of its old value with the outcome, keeping the invariant |
| ViewModel.ChangelogViewModel.LoadChangelog | changelog/src/main/java/com/codingfeline/changelog/internal/viewmodel/ChangelogViewModel.kt:33-71 | a load begins, parses the resource, and completes with the parse result |
| ViewModel.ChangelogViewModel.Retry | changelog/src/main/java/com/codingfeline/changelog/internal/viewmodel/ChangelogViewModel.kt:73-75 | a retry has exactly the effect of a load of the same resource |
| ChangelogScenarios.BrokenDocumentFails | changelog/src/test/java/com/codingfeline/changelog/ChangelogViewModelTest.kt:104-120 | a document that breaks off with a syntax error fails with that error's message |
| ChangelogScenarios.RetryAfterMalformedDocument | changelog/src/test/java/com/codingfeline/changelog/ChangelogViewModelTest.kt:122-146 | on a fresh view model, a malformed document shows the empty changelog and the format message; a retry against a valid document shows its changelog with no error; a load of a missing id then shows the not-found message and keeps the changelog |
| ChangelogScenarios.TestChangelogRoundTrip | changelog/src/test/java/com/codingfeline/changelog/ChangelogViewModelTest.kt:60-78 | the two-release changelog of the tests, written out as a document, parses back to exactly that changelog |
| ChangelogScenarios.RetryRestoresTestChangelog | changelog/src/test/java/com/codingfeline/changelog/ChangelogViewModelTest.kt:122-146 | with the tests' own values, a load failing with "Error" shows "Invalid changelog format: Error" and the empty changelog, and the retry shows the two-release changelog with no error |

## Left out

- XML tokenizing (`XmlPullParserFactory`, `setInput`, `next()`, `nextText()`) is a foreign library. Its output is an event list. A start tag carries what `nextText()` returns for it, and the exceptions are `Failure` events and unreadable bodies. `getAttributeValue` is a lookup in the start tag's attribute map, absent when the tag does not carry the attribute (`Attribute`).
- Resource and stream I/O (`openRawResource`, `InputStreamReader`) is a resource table. A missing id is `NotFound`, and read failures are `ReadError` events.
- Closing the streams (`use`) is not modelled.
- Concurrency (`viewModelScope.launch`) and `StateFlow` observation are not modelled. A load is the begin step, the parse and the completion, taken in sequence. Interleavings of two concurrent loads are not modelled.
- An exception other than the three caught ones is the `Unclassified` outcome, which leaves the state as the begin step set it. Its propagation to the coroutine's handler is not modelled.
- Exception messages are plain strings. Kotlin renders a null message as `null` inside the error text; the model has no null message.
- `ChangelogViewModel.Factory` is reflective dependency-injection wiring and is not part of this model.
- The Compose UI files (`ChangelogList.kt`, `ChangeTypeStyle.kt`, `ChangelogContent.kt`, `MainActivity.kt`) and the build file are not part of this model.
- Whitespace.IsSpace: Kotlin's `trim()` removes Unicode whitespace, while the regex `\s` matches only space, tab, newline, vertical tab, form feed and carriage return. The model uses that one ASCII set for both, so text with other Unicode spaces (such as no-break space) is not modelled exactly.
- Whitespace.Lower: ASCII letters only. Kotlin's `lowercase()` also folds non-ASCII letters. This makes no difference to which categories are recognised, except for letters whose Unicode lower case is an ASCII letter (such as the Kelvin sign).
- The value-type properties hold by construction of the datatypes:
  - `ChangeType` has exactly three constructors;
  - `changeDate` and `kind` are `Option`s;
  - the `type = null` default of a change entry is not a separate constructor: an entry without a category is built with `None`;
  - lists are sequences with structural equality.
