# Property diff, duration codec, metadata, genres and collection equality

A Dafny model of the core of a small Jackson test project: JSON/XML/YAML
mapping of a movie catalogue. It covers five parts.

- **Property diff** (`JsonTree`, `PropertyDiffs`). `PropertyDiffService`
  flattens a value's JSON tree into a sorted map from property path
  (`title`, `actors[2].age`, `metadata.new`) to leaf text. `null` nodes are
  skipped, arrays are indexed and object fields are joined with dots. Two
  such maps are diffed into a list of `PropertyDiff` records:
  - the changes of common paths come first;
  - then the additions;
  - then the removals;
  - each block in ascending path order.
- **Duration codec** (`DurationCodec`, `DurationGrammar`, `DurationLayout`). `DurationConverter` formats a
  `java.time.Duration` as `1w 2d 3h 4m 5s`. It omits zero units and writes
  `0s` for zero. It parses the same fixed-order grammar with or without
  blanks. Blank or missing text parses as zero in `parse`; the Jackson
  deserializer instead yields `null` for it.
- **Metadata** (`MetadataStore`). A tree map of optional texts with `get`,
  `set`, `remove` and the sorted key set. A `null` key is rejected with
  `IllegalArgumentException`.
- **Genres** (`Genres`). The enum's identifiers and the case-insensitive
  `byIdentifier` lookup, which throws `NoSuchElementException`.
- **Collection equality** (`CollectionUtil`). The test helper's
  `equalContent`, the `equals` overloads for sets, lists and maps, and
  `checkEquals`, which descends into nested collections.

Supporting modules:
- `Wrappers` holds `Option`/`Result`, which stand for Java `null` and
  exceptions.
- `StringOrder` holds `String.compareTo`, as UTF-16 code-unit order, and
  the ascending sequence of a set of strings. This is what a `TreeMap` or
  `TreeSet` iterates.
- `Decimal` holds the decimal rendering and reading of naturals.
- `DiffExamples`, `MovieScenario` and `DurationExamples` restate the
  repository's own test cases as lemmas.

Design decisions that follow the code rather than its documentation:
- The diff is not globally sorted by path. The code concatenates three
  separately sorted blocks (`PropertyDiffs.NotGloballySorted`).
- Numbers compare as text. `1.0` and `1` differ (`DiffExamples.NumbersCompareAsText`).
- The javadoc of `Metadata.set` says a `null` value removes the entry. The
  code stores `null` under the key, so the key stays listed. The model
  follows the code (`MetadataStore.SetNullKeepsKey`).
- `Genre.SCI_FI` is declared with the identifier `Scii-Fi`, so `Sci-Fi` is
  not found (`Genres.MisspelledSciFi`).
- The duration regular expression is modelled by a deterministic scanner
  (`DurationCodec.Scan`). `DurationGrammar` states the regular expression
  as a grammar of parse trees: for each unit in turn optional blanks and
  an optional `digits blanks unit` group, then optional blanks. It proves that the scanner accepts exactly the texts of
  parse trees, that the value is the sum of the groups, and that a text
  has one reading only. `DurationLayout` describes what `format` writes as
  such a parse tree: which groups are present, their digits, and where the
  single spaces go.

## Model

| member | source | states |
|---|---|---|
| StringOrder.Less | src/main/java/ch/frostnova/test/jackson/test/util/diff/PropertyDiffService.java:39-49 | `String.compareTo(a, b) < 0`: UTF-16 code units decide at the first difference, and a proper prefix sorts first. Its order laws are the lemmas below. |
| StringOrder.LessIrreflexive | src/main/java/ch/frostnova/test/jackson/test/util/diff/PropertyDiffService.java:39-49 | No string sorts before itself under `String.compareTo`. |
| StringOrder.LessTransitive | src/main/java/ch/frostnova/test/jackson/test/util/diff/PropertyDiffService.java:39-49 | The string order of the tree sets is transitive. |
| StringOrder.LessTotal | src/main/java/ch/frostnova/test/jackson/test/util/diff/PropertyDiffService.java:39-49 | Any two different strings are ordered one way or the other. |
| StringOrder.LessAsymmetric | src/main/java/ch/frostnova/test/jackson/test/util/diff/PropertyDiffService.java:39-49 | Two strings are never each before the other. |
| StringOrder.LessCommonPrefix | src/main/java/ch/frostnova/test/jackson/test/util/diff/PropertyDiffService.java:92-101 | A common path prefix keeps the order of the suffixes. |
| StringOrder.Sorted | src/main/java/ch/frostnova/test/jackson/test/util/domain/Metadata.java:66-68 | A tree set's iteration: strictly ascending, exactly the set's elements, as many as the set has. |
| StringOrder.SortedUnique | src/main/java/ch/frostnova/test/jackson/test/util/diff/PropertyDiffService.java:39-49 | Two strictly ascending sequences with the same elements are equal, so iteration order is determined by the contents. |
| StringOrder.SortedIs | src/main/java/ch/frostnova/test/jackson/test/util/diff/PropertyDiffService.java:39-49 | Any strictly ascending listing of a set is the set's iteration order. |
| StringOrder.Least | src/main/java/ch/frostnova/test/jackson/test/util/diff/PropertyDiffService.java:39-49 | The first element a non-empty tree set yields is in the set and below every other element. |
| Decimal.NatToString | src/main/java/ch/frostnova/test/jackson/test/util/converter/DurationConverter.java:72-84 | A count is written as a non-empty run of digits with no leading zero unless it is `0`. |
| Decimal.NatToStringRoundTrip | src/main/java/ch/frostnova/test/jackson/test/util/converter/DurationConverter.java:49-53 | `Integer.parseInt` of the written count gives the count back. |
| Decimal.NatToStringInjective | src/main/java/ch/frostnova/test/jackson/test/util/diff/PropertyDiffService.java:94 | Different indices give different decimal texts, so element paths `[i]` are distinct. |
| JsonTree.Render | src/main/java/ch/frostnova/test/jackson/test/util/diff/PropertyDiffService.java:86-91 | Only boolean, number and text nodes store a text: `true`/`false`, the number's rendering, the text itself. |
| JsonTree.Flatten | src/main/java/ch/frostnova/test/jackson/test/util/diff/PropertyDiffService.java:69-79 | The public `listPropertyPaths` without the tree conversion: a walk from the empty path into an empty map. Its keys and values are stated by `JsonTree.FlattenCharacterized`. |
| JsonTree.Walk | src/main/java/ch/frostnova/test/jackson/test/util/diff/PropertyDiffService.java:81-103 | The private recursive visit: skip `null`, store a boolean, number or text leaf at its path, and descend into arrays and objects. `JsonTree.WalkIsPutAll` states what it stores. |
| JsonTree.WalkItems | src/main/java/ch/frostnova/test/jackson/test/util/diff/PropertyDiffService.java:92-95 | The array loop, visiting element `i` at `base[i]` in index order. `JsonTree.WalkItemsIsPutAll` states what it stores. |
| JsonTree.WalkFields | src/main/java/ch/frostnova/test/jackson/test/util/diff/PropertyDiffService.java:96-101 | The object loop, visiting each field at `name` or `base.name` in iteration order. `JsonTree.WalkFieldsIsPutAll` states what it stores. |
| JsonTree.WalkItemsIsPutAll | src/main/java/ch/frostnova/test/jackson/test/util/diff/PropertyDiffService.java:92-95 | The array loop from element `i` on equals storing those elements' leaves in order. |
| JsonTree.WalkFieldsIsPutAll | src/main/java/ch/frostnova/test/jackson/test/util/diff/PropertyDiffService.java:96-101 | The object loop from field `j` on equals storing those fields' leaves in order. |
| JsonTree.WalkIsPutAll | src/main/java/ch/frostnova/test/jackson/test/util/diff/PropertyDiffService.java:81-103 | The recursive walk equals storing its leaf list into the map in order, a later store to a path replacing an earlier one. |
| JsonTree.LeavesCount | src/main/java/ch/frostnova/test/jackson/test/util/diff/PropertyDiffService.java:81-103 | The walk stores exactly one entry per boolean, number or text leaf of the tree. |
| JsonTree.FlattenCharacterized | src/main/java/ch/frostnova/test/jackson/test/util/diff/PropertyDiffService.java:69-79 | The flattened keys are exactly the paths of the leaves, and each holds the text of the last leaf stored at it. |
| JsonTree.FlattenValuesFromLeaves | src/main/java/ch/frostnova/test/jackson/test/util/diff/PropertyDiffService.java:69-79 | Every flattened entry is the path and text of some leaf. |
| JsonTree.FlattenSize | src/main/java/ch/frostnova/test/jackson/test/util/diff/PropertyDiffService.java:69-79 | The view has at most one entry per leaf, and is empty exactly when the tree has no leaves. |
| JsonTree.ScalarArrayLeaves | src/main/java/ch/frostnova/test/jackson/test/util/diff/PropertyDiffService.java:92-95 | An array of leaves stores element `k` at `base[k]` with its text, in index order. |
| JsonTree.NullFieldIsAbsent | src/main/java/ch/frostnova/test/jackson/test/util/diff/PropertyDiffService.java:83-85 | A `null` field contributes nothing: the tree without it flattens the same. |
| JsonTree.PutAllKeys | src/main/java/ch/frostnova/test/jackson/test/util/diff/PropertyDiffService.java:86-91 | Storing a leaf list adds exactly the leaves' paths to the map's keys. |
| JsonTree.PutAllValue | src/main/java/ch/frostnova/test/jackson/test/util/diff/PropertyDiffService.java:86-91 | After storing a leaf list, a path holds the last text stored at it, or its earlier value if none was stored. |
| PropertyDiffs.DiffEquals | src/main/java/ch/frostnova/test/jackson/test/util/diff/PropertyDiffService.java:134-144 | `PropertyDiff.equals` holds exactly for a non-null record with equal path, old and new value. |
| PropertyDiffs.Changes | src/main/java/ch/frostnova/test/jackson/test/util/diff/PropertyDiffService.java:51-57 | The common-path loop reports exactly the paths whose texts differ, each with both texts, ascending when the paths are. |
| PropertyDiffs.DiffViews | src/main/java/ch/frostnova/test/jackson/test/util/diff/PropertyDiffService.java:37-66 | Every record is a change, addition or removal of the views. Every differing, added and removed path is reported with its texts. Changes precede additions, which precede removals. Each block ascends and no path repeats. |
| PropertyDiffs.DiffViewsBlocks | src/main/java/ch/frostnova/test/jackson/test/util/diff/PropertyDiffService.java:39-65 | The diff is the change block, the addition block and the removal block over any ascending listings of the common, added and removed paths. |
| PropertyDiffs.Diff | src/main/java/ch/frostnova/test/jackson/test/util/diff/PropertyDiffService.java:30-35 | A `null` before or after value fails with `before is required` / `after is required`, checked in that order; otherwise the diff succeeds. |
| PropertyDiffs.DiffRecordsWellFormed | src/main/java/ch/frostnova/test/jackson/test/util/diff/PropertyDiffService.java:54-64 | No record has both values absent, and a record with both values has different texts. |
| PropertyDiffs.DiffViewsSelf | src/main/java/ch/frostnova/test/jackson/test/util/diff/PropertyDiffService.java:51-57 | A view diffed against itself has no records. |
| PropertyDiffs.DiffSelf | src/main/java/ch/frostnova/test/jackson/test/util/diff/PropertyDiffService.java:30-67 | A value diffed against itself gives the empty list. |
| PropertyDiffs.DiffViewsSymmetric | src/main/java/ch/frostnova/test/jackson/test/util/diff/PropertyDiffService.java:51-65 | Swapping before and after reports the same paths with old and new values exchanged. |
| PropertyDiffs.NullFieldNotReported | src/main/java/ch/frostnova/test/jackson/test/util/diff/PropertyDiffService.java:83-85 | Removing a `null` field from an object is not a difference. |
| PropertyDiffs.NotGloballySorted | src/main/java/ch/frostnova/test/jackson/test/util/diff/PropertyDiffService.java:58-65 | An addition at `b` is listed before a removal at `a` although `a` sorts first. |
| DiffExamples.ChangedTitle | src/main/java/ch/frostnova/test/jackson/test/util/diff/PropertyDiffService.java:51-57 | A changed text field is reported with both texts. |
| DiffExamples.AddedTag | src/main/java/ch/frostnova/test/jackson/test/util/diff/PropertyDiffService.java:58-61 | A field present only after is an addition with no old value. |
| DiffExamples.DroppedElement | src/main/java/ch/frostnova/test/jackson/test/util/diff/PropertyDiffService.java:62-65 | A dropped array element is a removal at its indexed path. |
| DiffExamples.AddedNestedField | src/main/java/ch/frostnova/test/jackson/test/util/diff/PropertyDiffService.java:96-101 | A nested field is reported under its dotted path. |
| DiffExamples.NumbersCompareAsText | src/main/java/ch/frostnova/test/jackson/test/util/diff/PropertyDiffService.java:88-89 | Numbers are compared as rendered text, so `1.0` to `1` is a change. |
| DiffExamples.PathsNotInjective | src/main/java/ch/frostnova/test/jackson/test/util/diff/PropertyDiffService.java:100 | A field named `a.b` and a field `b` nested in `a` flatten to the same view. |
| MovieScenario.MovieBeforeView | src/test/java/ch/frostnova/test/jackson/test/diff/PropertyDiffServiceTest.java:50-60 | The movie before the edits flattens to its leaf paths; the `null` synopsis is absent. |
| MovieScenario.MovieAfterView | src/test/java/ch/frostnova/test/jackson/test/diff/PropertyDiffServiceTest.java:53-60 | The edited movie flattens to its leaf paths, with the third actor gone and the metadata entry present. |
| MovieScenario.MovieViewsDiff | src/test/java/ch/frostnova/test/jackson/test/diff/PropertyDiffServiceTest.java:61-75 | The diff of the two views is the three changes, the two additions and the four removals, in block order. |
| MovieScenario.ShouldDetectChanges | src/test/java/ch/frostnova/test/jackson/test/diff/PropertyDiffServiceTest.java:50-76 | The diff of the two movies succeeds with exactly the records the test expects, and the unchanged first names are not reported. |
| DurationCodec.Decompose | src/main/java/ch/frostnova/test/jackson/test/util/converter/DurationConverter.java:61-69 | Division and remainder split a total into weeks and below-next-unit days, hours, minutes and seconds that add back to it. |
| DurationCodec.DecomposeUnique | src/main/java/ch/frostnova/test/jackson/test/util/converter/DurationConverter.java:61-69 | That split is the only normal one: recomposing and splitting again gives the same parts. |
| DurationCodec.Format | src/main/java/ch/frostnova/test/jackson/test/util/converter/DurationConverter.java:57-60 | A `null` duration formats as `0s`. The shape of every other text is stated by `DurationLayout.FormatTree`. |
| DurationLayout.FormatTree | src/main/java/ch/frostnova/test/jackson/test/util/converter/DurationConverter.java:61-86 | The text `format` writes is the text of a parse tree with these properties. Its groups are the non-zero components of the normal breakdown, in w, d, h, m, s order. The seconds group is also present when the whole duration is zero. Each group is the shortest decimal digits of its component, with no gap before the unit letter. A single space precedes every group but the first. There are no other blanks. |
| DurationLayout.PresentComponents | src/main/java/ch/frostnova/test/jackson/test/util/converter/DurationConverter.java:70-84 | A unit's token is written exactly when its component is non-zero. The seconds token is also written when the duration is zero. |
| DurationCodec.FormatZero | src/main/java/ch/frostnova/test/jackson/test/util/converter/DurationConverter.java:70-86 | The text is `0s` exactly for `null` or a duration of zero seconds. |
| DurationCodec.FormatInjective | src/main/java/ch/frostnova/test/jackson/test/util/converter/DurationConverter.java:57-87 | Durations that format alike have the same whole seconds. |
| DurationCodec.Parse | src/main/java/ch/frostnova/test/jackson/test/util/converter/DurationConverter.java:41-55 | Missing or blank text is zero. A rejected text fails with the `Illegal duration format` message that quotes it. A parsed duration has no nanoseconds. |
| DurationCodec.Deserialize | src/main/java/ch/frostnova/test/jackson/test/util/converter/DurationConverter.java:101-111 | Blank or missing text is `null`; any other text deserializes as `parse` reads it, failing exactly when `parse` fails. |
| DurationCodec.ParseRejectsForeign | src/main/java/ch/frostnova/test/jackson/test/util/converter/DurationConverter.java:33-48 | A text holding a visible character that is neither a digit nor a unit letter is rejected with the message. |
| DurationCodec.ScanAlphabet | src/main/java/ch/frostnova/test/jackson/test/util/converter/DurationConverter.java:31-39 | A text the grammar accepts holds only blanks, digits and unit letters. |
| DurationCodec.ParseRendered | src/main/java/ch/frostnova/test/jackson/test/util/converter/DurationConverter.java:31-54 | Tokens in unit order, with one blank-only separator (possibly empty) used for every gap, parse to the sum of their values in seconds. |
| DurationCodec.Scan | src/main/java/ch/frostnova/test/jackson/test/util/converter/DurationConverter.java:31-48 | The regular-expression match from one unit on. A match yields one optional field per remaining unit (the complete grammar is the one of `DurationGrammar`, connected by `DurationGrammar.ParseMatches`). |
| DurationCodec.Token | src/main/java/ch/frostnova/test/jackson/test/util/converter/DurationConverter.java:31 | One group `(\d+)\s*<unit>` at the start of a text. What it leaves is a proper suffix of the text (its parts are stated by `DurationGrammar.TokenParts`). |
| DurationGrammar.ParseTree | src/main/java/ch/frostnova/test/jackson/test/util/converter/DurationConverter.java:31-54 | The text of every parse tree (blanks, then for each unit in order an optional `digits blanks unit` group, then blanks) parses to the sum of its groups' values in seconds. |
| DurationGrammar.ParseMatches | src/main/java/ch/frostnova/test/jackson/test/util/converter/DurationConverter.java:31-54 | A non-blank text parses exactly when it is the text of some parse tree. Otherwise it fails with the message that quotes it. |
| DurationGrammar.TreeUnique | src/main/java/ch/frostnova/test/jackson/test/util/converter/DurationConverter.java:33-39 | Two parse trees of one text have the same groups, so the pattern reads a text one way only. |
| DurationGrammar.SpellScans | src/main/java/ch/frostnova/test/jackson/test/util/converter/DurationConverter.java:33-53 | The scanner reads the text of well-formed pieces back as their group values. |
| DurationGrammar.ScanTree | src/main/java/ch/frostnova/test/jackson/test/util/converter/DurationConverter.java:33-48 | Every text the scanner accepts is the text of well-formed pieces. |
| DurationGrammar.TokenParts | src/main/java/ch/frostnova/test/jackson/test/util/converter/DurationConverter.java:31 | A group the scanner takes is non-empty digits, then blanks, then the unit letter. |
| DurationExamples.MixedGaps | src/main/java/ch/frostnova/test/jackson/test/util/converter/DurationConverter.java:33-54 | `1w 2d\t3h`, with a blank and a tab as gaps, parses as 788400 seconds. |
| DurationExamples.PaddedSeconds | src/main/java/ch/frostnova/test/jackson/test/util/converter/DurationConverter.java:31-54 | `007 s `, with leading zeros, a gap before the unit and a trailing blank, parses as 7 seconds. |
| DurationGrammar.AfterLetter | src/main/java/ch/frostnova/test/jackson/test/util/converter/DurationConverter.java:33-39 | In accepted text, what follows the letter of a unit is accepted by the pattern from the next unit on. |
| DurationGrammar.UnitsInOrder | src/main/java/ch/frostnova/test/jackson/test/util/converter/DurationConverter.java:33-39 | The unit letters of accepted text appear in strictly increasing unit order: none twice, none after a later unit. |
| DurationGrammar.ParseRejectsDisorder | src/main/java/ch/frostnova/test/jackson/test/util/converter/DurationConverter.java:45-48 | A text with a repeated unit letter, or a unit letter after a later unit's, is rejected with the message that quotes it. |
| DurationGrammar.NoTrailingDigit | src/main/java/ch/frostnova/test/jackson/test/util/converter/DurationConverter.java:31-39 | Accepted text never ends in a digit, because each group is closed by its unit letter. |
| DurationGrammar.LeadingDigit | src/main/java/ch/frostnova/test/jackson/test/util/converter/DurationConverter.java:31-39 | Accepted text starts with a digit once its leading blanks are skipped. |
| DurationGrammar.ParseRejectsUnclosed | src/main/java/ch/frostnova/test/jackson/test/util/converter/DurationConverter.java:45-48 | A non-blank text that ends in a digit, or whose first visible character is not a digit, is rejected with the message that quotes it. |
| DurationExamples.RepeatedUnit | src/main/java/ch/frostnova/test/jackson/test/util/converter/DurationConverter.java:33-39 | `1w1w` is rejected. |
| DurationExamples.UnitsOutOfOrder | src/main/java/ch/frostnova/test/jackson/test/util/converter/DurationConverter.java:33-39 | `1s 2m` is rejected. |
| DurationExamples.MissingUnit | src/main/java/ch/frostnova/test/jackson/test/util/converter/DurationConverter.java:31 | `5` is rejected. |
| DurationExamples.MissingDigits | src/main/java/ch/frostnova/test/jackson/test/util/converter/DurationConverter.java:31 | `w` is rejected. |
| DurationCodec.ParseFormat | src/main/java/ch/frostnova/test/jackson/test/util/converter/DurationConverter.java:41-87 | Parsing the formatted text gives the duration back, to the second. |
| DurationCodec.PresentSeconds | src/main/java/ch/frostnova/test/jackson/test/util/converter/DurationConverter.java:70-85 | The tokens `format` writes add up to the duration's seconds. |
| DurationCodec.ScanSkipsSpace | src/main/java/ch/frostnova/test/jackson/test/util/converter/DurationConverter.java:33 | Leading blanks do not change what the grammar reads. |
| DurationExamples.ShortFormat | src/test/java/ch/frostnova/test/jackson/test/DurationConverterTest.java:36 | 12345 seconds formats as `3h 25m 45s`. |
| DurationExamples.FullFormat | src/test/java/ch/frostnova/test/jackson/test/DurationConverterTest.java:37 | 9 days, 3 hours, 4 minutes and 5 seconds format as `1w 2d 3h 4m 5s`. |
| DurationExamples.WeeksFormat | src/test/java/ch/frostnova/test/jackson/test/DurationConverterTest.java:38 | 21 days and 789 minutes format as `3w 13h 9m`. |
| DurationExamples.DayFormat | src/test/java/ch/frostnova/test/jackson/test/DurationConverterTest.java:39 | One second short of a day formats as `23h 59m 59s`. |
| DurationExamples.ZeroInEveryUnit | src/test/java/ch/frostnova/test/jackson/test/DurationConverterTest.java:45-49 | `0w`, `0d`, `0h`, `0m` and `0s` each parse as zero. |
| DurationExamples.ShortParse | src/test/java/ch/frostnova/test/jackson/test/DurationConverterTest.java:51-56 | `3h 25m 45s` and `3h25m45s` parse as 12345 seconds. |
| DurationExamples.FullParse | src/test/java/ch/frostnova/test/jackson/test/DurationConverterTest.java:52-57 | `1w 2d 3h 4m 5s` and `1w2d3h4m5s` parse as 9 days, 3 hours, 4 minutes and 5 seconds. |
| DurationExamples.WeeksParse | src/test/java/ch/frostnova/test/jackson/test/DurationConverterTest.java:53-58 | `3w 13h 9m` and `3w13h9m` parse as 21 days and 789 minutes. |
| DurationExamples.DayParse | src/test/java/ch/frostnova/test/jackson/test/DurationConverterTest.java:54-59 | `23h 59m 59s` and `23h59m59s` parse as one second short of a day. |
| DurationExamples.EmptyText | src/test/java/ch/frostnova/test/jackson/test/DurationConverterTest.java:44 | The empty text deserializes as `null` and parses as zero. |
| DurationExamples.UnknownUnit | src/main/java/ch/frostnova/test/jackson/test/util/converter/DurationConverter.java:45-48 | `1x` is rejected with the message that quotes it. |
| MetadataStore.Get | src/main/java/ch/frostnova/test/jackson/test/util/domain/Metadata.java:32-34 | A `null` key reads empty; a present result is the value stored under the key. |
| MetadataStore.Set | src/main/java/ch/frostnova/test/jackson/test/util/domain/Metadata.java:42-47 | A `null` key fails with `key is required`; otherwise the keys gain exactly the given key. |
| MetadataStore.Remove | src/main/java/ch/frostnova/test/jackson/test/util/domain/Metadata.java:54-59 | A `null` key fails with `key is required`; otherwise the keys lose exactly the given key. |
| MetadataStore.Keys | src/main/java/ch/frostnova/test/jackson/test/util/domain/Metadata.java:66-68 | The keys are listed strictly ascending, each stored key once and nothing else. |
| MetadataStore.GetAfterSet | src/main/java/ch/frostnova/test/jackson/test/util/domain/Metadata.java:32-47 | Reading a key right after setting it gives what was set, empty for `null`. |
| MetadataStore.SetKeepsOthers | src/main/java/ch/frostnova/test/jackson/test/util/domain/Metadata.java:42-47 | Setting a key changes no other key's presence or value. |
| MetadataStore.SetNullKeepsKey | src/main/java/ch/frostnova/test/jackson/test/util/domain/Metadata.java:42-47 | Setting `null` keeps the key listed while reading it gives empty. |
| MetadataStore.SetOverwrites | src/main/java/ch/frostnova/test/jackson/test/util/domain/Metadata.java:42-47 | Of two sets of one key the later wins. |
| MetadataStore.SetIdempotent | src/main/java/ch/frostnova/test/jackson/test/util/domain/Metadata.java:42-47 | Setting the same value twice is setting it once. |
| MetadataStore.RemoveDeletes | src/main/java/ch/frostnova/test/jackson/test/util/domain/Metadata.java:54-59 | A removed key is neither listed nor found. |
| MetadataStore.RemoveKeepsOthers | src/main/java/ch/frostnova/test/jackson/test/util/domain/Metadata.java:54-59 | Removing a key changes no other key's presence or value. |
| MetadataStore.RemoveAbsent | src/main/java/ch/frostnova/test/jackson/test/util/domain/Metadata.java:54-59 | Removing an absent key leaves the store unchanged. |
| MetadataStore.RemoveAfterSet | src/main/java/ch/frostnova/test/jackson/test/util/domain/Metadata.java:42-59 | Set then remove of one key equals the remove alone; for a key that was absent it restores the store. |
| MetadataStore.KeysAfterSet | src/main/java/ch/frostnova/test/jackson/test/util/domain/Metadata.java:42-68 | After a set the key list is the ascending list of the old keys plus the new one. |
| MetadataStore.KeysUnique | src/main/java/ch/frostnova/test/jackson/test/util/domain/Metadata.java:24 | Any strictly ascending listing of exactly the stored keys is the key list. |
| MetadataStore.KeysAscending | src/main/java/ch/frostnova/test/jackson/test/util/domain/Metadata.java:24 | Earlier keys are smaller by `String.compareTo`. |
| Genres.Identifier | src/main/java/ch/frostnova/test/jackson/test/util/domain/Genre.java:19-24 | The identifier each constant is declared with, `Scii-Fi` included. That identifiers are distinct ignoring case is `Genres.IdentifiersDistinct`. |
| Genres.Serialize | src/main/java/ch/frostnova/test/jackson/test/util/domain/Genre.java:26-46 | A genre serializes to its non-empty ASCII identifier, which matches no other genre's identifier ignoring case. |
| Genres.IdentifiersDistinct | src/main/java/ch/frostnova/test/jackson/test/util/domain/Genre.java:19-24 | No two constants' identifiers are equal ignoring case. |
| Genres.FirstMatch | src/main/java/ch/frostnova/test/jackson/test/util/domain/Genre.java:49 | The filter's first hit is a listed genre whose identifier matches; no hit means no listed genre matches. |
| Genres.ByIdentifier | src/main/java/ch/frostnova/test/jackson/test/util/domain/Genre.java:48-51 | The lookup succeeds exactly for a non-null text matching some identifier ignoring case, with that genre; otherwise it fails with `No such value: ` and the text, `null` for a missing one. |
| Genres.ByIdentifierRoundTrip | src/main/java/ch/frostnova/test/jackson/test/util/domain/Genre.java:44-51 | Looking up a genre's identifier gives the genre. |
| Genres.SerializeRoundTrip | src/main/java/ch/frostnova/test/jackson/test/util/domain/Genre.java:26-36 | Deserializing a serialized genre gives the genre. |
| Genres.ByIdentifierIgnoresCase | src/main/java/ch/frostnova/test/jackson/test/util/domain/Genre.java:49 | Texts equal ignoring case find the same genre, or both fail. |
| Genres.ByIdentifierUpperCase | src/main/java/ch/frostnova/test/jackson/test/util/domain/Genre.java:49 | A genre is found from its upper-cased identifier. |
| Genres.NullIdentifier | src/main/java/ch/frostnova/test/jackson/test/util/domain/Genre.java:50 | A missing identifier fails with `No such value: null`. |
| Genres.ThrillerUpper | src/main/java/ch/frostnova/test/jackson/test/util/domain/Genre.java:49 | `THRILLER` finds the thriller genre. |
| Genres.LongS | src/main/java/ch/frostnova/test/jackson/test/util/domain/Genre.java:49 | `Fantaſy`, spelled with a long s, finds fantasy, because `equalsIgnoreCase` folds long s to `s`. |
| Genres.MisspelledSciFi | src/main/java/ch/frostnova/test/jackson/test/util/domain/Genre.java:19 | `Sci-Fi` is not found: the declared identifier is `Scii-Fi`. |
| CollectionUtil.EqualContent | src/test/java/ch/frostnova/test/jackson/test/util/CollectionUtil.java:54-68 | Equal collections have equal content. Equal content means both or neither `null` and the same size. |
| CollectionUtil.EqualContentWithoutRepeats | src/test/java/ch/frostnova/test/jackson/test/util/CollectionUtil.java:54-68 | For collections without repeated elements, such as sets or lists of distinct elements, equal content is exactly equality of the collections. |
| CollectionUtil.EqualContentIgnoresCounts | src/test/java/ch/frostnova/test/jackson/test/util/CollectionUtil.java:61-67 | `[x, x, y]` and `[x, y, y]` have equal content though they differ as lists and as multisets. |
| CollectionUtil.EqualContentSymmetric | src/test/java/ch/frostnova/test/jackson/test/util/CollectionUtil.java:54-68 | Content equality does not depend on argument order. |
| CollectionUtil.SetEquals | src/test/java/ch/frostnova/test/jackson/test/util/CollectionUtil.java:78-80 | `equals(Set, Set)` holds exactly for equal sets, or two `null`s. |
| CollectionUtil.CheckEquals | src/test/java/ch/frostnova/test/jackson/test/util/CollectionUtil.java:152-163 | Dispatch on the runtime kinds: two sets, lists or maps use the matching `equals`, anything else `Objects.equals`. Its meaning is `CollectionUtil.CheckEqualsIsEquality`. |
| CollectionUtil.ListEquals | src/test/java/ch/frostnova/test/jackson/test/util/CollectionUtil.java:90-110 | Both `null`, or the same size and `checkEquals` at every position. Its meaning is `CollectionUtil.ListEqualsIsEquality`. |
| CollectionUtil.MapEquals | src/test/java/ch/frostnova/test/jackson/test/util/CollectionUtil.java:121-143 | Both `null`, or the same size and, for every key of the first, the key present in the second with `checkEquals` values. Its meaning is `CollectionUtil.MapEqualsIsEquality`. |
| CollectionUtil.SetContentEquality | src/test/java/ch/frostnova/test/jackson/test/util/CollectionUtil.java:78-80 | Equal content of two sets taken as collections holds exactly when the sets are equal. |
| CollectionUtil.CheckEqualsIsEquality | src/test/java/ch/frostnova/test/jackson/test/util/CollectionUtil.java:152-163 | `checkEquals` holds exactly for equal values, however deeply sets, lists and maps are nested. |
| CollectionUtil.ListEqualsIsEquality | src/test/java/ch/frostnova/test/jackson/test/util/CollectionUtil.java:90-110 | `equals(List, List)` holds exactly for equal lists, or two `null`s. |
| CollectionUtil.MapEqualsIsEquality | src/test/java/ch/frostnova/test/jackson/test/util/CollectionUtil.java:121-143 | `equals(Map, Map)` holds exactly for equal maps, or two `null`s. |
| CollectionUtil.EqualsReflexive | src/test/java/ch/frostnova/test/jackson/test/util/CollectionUtil.java:55-57 | Every comparison holds for a value and itself, so the same-reference shortcut changes no result. |
| CollectionUtil.NullNeverEqual | src/test/java/ch/frostnova/test/jackson/test/util/CollectionUtil.java:58-60 | A `null` collection never equals a non-null one, in either order. |
| CollectionUtil.ListOrderMatters | src/test/java/ch/frostnova/test/jackson/test/util/CollectionUtil.java:102-109 | Lists with the same elements in another order are not equal, though their content is. |

## Left out

- Jackson itself is not part of this model. This covers reading and writing trees (`ObjectMapper`), the serializer and deserializer plumbing, and the `IOException` wrapped as `could not determine property paths`. The diff takes the JSON tree as given. Number nodes carry the text `String.valueOf` gives their value.
- The movie scenario uses a fixed age text, `62`, for the actor. `Actor.getAge` derives the age from the clock through `LocalDate.now()`. The synopsis text is shortened, and the `created` timestamp and other fields that are equal before and after are omitted.
- `AspectRatio`, `Actor`, `Movie`, the XML/YAML utilities and the schema tests are not part of this model. They are mapping configuration, not logic the core depends on.
- `MetadataConverter` and the `FunctionalSerializer`/`FunctionalDeserializer` adapters are not modelled. They only forward to the members modelled here.
- DurationCodec.Parse: the fields are unbounded naturals here. In Java they are `int`s, with two consequences the model does not reproduce. First, `parseInt` of a group above 2147483647 throws `NumberFormatException` instead of the format error. Second, `7 * weeks + days` is `int` arithmetic and wraps silently before `Duration.ofDays` sees it. For example `306783379w` parses to a negative duration in Java, while the model gives 185542587619200 seconds.
- DurationCodec.Format: negative durations are outside the model (`Duration.seconds` is a natural). The nanoseconds are dropped, as `format` drops them.
- DurationCodec.ParseFormat: the round trip holds to the second, because `format` ignores nanoseconds. In Java it also needs `7 * weeks + days`, the whole days of the duration, to be at most 2147483647. Past that, the parse of the formatted text wraps as described for `DurationCodec.Parse`.
- JsonTree.ElementPath: writes the index with ASCII digits. `String.format("%s[%d]")` uses the default locale, so a locale whose zero digit is not `0` would write other digits. The model assumes a locale with ASCII digits.
- MetadataStore.Keys: returns a snapshot of an immutable store. Java's `keySet()` is a live view: it reflects later `set` and `remove` calls, and removing through it removes the entry.
- Genres.Fold: exact only when one side of the comparison is ASCII, which every identifier is. Full Unicode case mapping between two non-ASCII texts is not modelled.
- CollectionUtil.EqualContent: its contract is the one-way `a == b ==> r`. Content equality ignores counts (`EqualContentIgnoresCounts`), so the converse does not hold in general. `EqualContentWithoutRepeats` shows it does hold for collections without repeated elements.
- CollectionUtil: `asList` and `asSet` are constructors of test data and are left out. Java `equals` of elements is Dafny's structural equality. The reference-identity shortcut is not modelled, and `EqualsReflexive` shows it changes no result. Iteration order of a set or map key set does not matter, because each loop checks every element.
- The `MovieScenario` and `DurationExamples` lemmas restate fixed test inputs only. The general properties are those of `PropertyDiffs` and `DurationCodec`.
