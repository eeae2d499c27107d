# A Dafny model of the jpnlearning vocabulary core

jpnlearning is a browser flash-card application for Japanese vocabulary.
Words carry a written form (kanji), a reading (hiragana), one or more
meanings, a Sino-Vietnamese reading, examples, collocation groups, a star
and a Leitner schedule. Words come in from CSV files or an "add word"
dialog. They are merged into the stored list and studied on flash cards,
in a Leitner review of the words due today, and in three quizzes.

This project models that core in Dafny and proves what it promises. Each
module follows one source file.

- `Optional`, `Strings`, `OrderedMaps`, `Sorting`, `Shuffling`: the
  JavaScript building blocks the code relies on.
  - `Optional` is `undefined` and `??`.
  - `Strings` covers `trim`, `split`, `join`, `includes`, `replaceAll`,
    `filter(Boolean)` and `new Set`.
  - `OrderedMaps` is a `Map` whose values follow first-insertion order.
  - `Sorting` is the stable sort of senses by index.
  - `Shuffling` covers the quizzes' Fisher–Yates `shuffle` and `pickN`.
- `Vocabulary`: the record types of `types/vocabulary.ts` and
  `types/vocab-v2.ts`.
- `MergeVocab`, `ValidateVocabV2`, `Storage`, `ParseVocabV2`: the library
  functions in `lib/`.
  - merging multi-sense words by id;
  - checking a long-form CSV;
  - migrating legacy records;
  - reading long-form rows into multi-sense words.
- `CsvUploader`, `CsvImport`: the CSV importer.
  - header normalisation and alias lookup;
  - the long-form branch, the flexible-header branch and the headerless
    branch;
  - the order in which they are tried.
- `EditWordDialog`, `AddWordDialog`: the two word editors.
  - the conversions between lists and text fields;
  - the form state, with its row editors;
  - the record each editor saves.
- `Leitner`, `LeitnerPanel`: the five-box scheduler and its statistics.
- `IndexPage`: the page's handlers.
  - the key-based smart merge of imports;
  - adding, starring, editing and rescheduling a word;
  - the search filter.
- `ReviewMode`, `StudyMode`: the review and study screens, as classes over
  their session state.
- `QuizSession`, `QuizMode`, `KanjiQuizMode`, `ClozeQuizMode`: the quizzes.
  - the pools of questions;
  - the count drawn;
  - the answer, next and previous handlers;
  - the tally of right and wrong answers.

The code's loops are methods with loop invariants. Each method is proved
equal to a specification function, and the lemmas are stated about those
functions. Randomness (`Math.random`, `crypto.randomUUID`), the clock and
the Unicode folding of `normalize("NFD")` and `toLowerCase` are
parameters, so every property holds whatever they return.

Where the code does not do what it evidently means to (see "## Findings"),
the model follows the code as written, and a lemma exhibits an input that
shows the discrepancy. The intended behaviour is a separate member with its
property proved; the Model table marks it as the corrected half.

## Model

| member | source | states |
|---|---|---|
| Vocabulary.FieldPresent | jpnlearning/src/lib/parseVocabV2.ts:54 | a row has a value for a column exactly when one of its cells is keyed by that column |
| Sorting.Insert | jpnlearning/src/lib/parseVocabV2.ts:82 | inserting a sense adds exactly that sense to the list |
| Sorting.InsertSorted | jpnlearning/src/lib/parseVocabV2.ts:82 | inserting into a list sorted by index keeps it sorted |
| Sorting.SortByIndex | jpnlearning/src/lib/parseVocabV2.ts:82 | the sort by `a.index - b.index` returns the same senses, sorted by index |
| Sorting.InsertStrict | jpnlearning/src/lib/mergeVocab.ts:34 | inserting a sense with a new index into a strictly increasing list keeps it strictly increasing |
| Sorting.SortStrict | jpnlearning/src/lib/mergeVocab.ts:34 | senses with pairwise different indices sort into strictly increasing order |
| Sorting.WithIndex | jpnlearning/src/lib/parseVocabV2.ts:82 | the senses selected for an index all carry that index |
| Sorting.WithIndexAppend | jpnlearning/src/lib/parseVocabV2.ts:82 | selecting by index distributes over concatenation |
| Sorting.WithIndexNone | jpnlearning/src/lib/parseVocabV2.ts:82 | a list with no sense of an index selects nothing for it |
| Sorting.InsertWithIndex | jpnlearning/src/lib/parseVocabV2.ts:82 | insertion places a sense after every sense with its index |
| Sorting.InsertFrontWithIndex | jpnlearning/src/lib/parseVocabV2.ts:82 | a sense placed at the front of a sorted list comes after no sense with its own index |
| Sorting.InsertLaterWithIndex | jpnlearning/src/lib/parseVocabV2.ts:82 | insertion past the head keeps the senses of each index in order |
| Sorting.WithIndexCons | jpnlearning/src/lib/parseVocabV2.ts:82 | selecting by index on a list with a head keeps the head exactly when it has that index |
| Sorting.SortStable | jpnlearning/src/lib/parseVocabV2.ts:82 | the sort is stable: the senses of each index keep their input order |
| OrderedMaps.Empty | jpnlearning/src/lib/parseVocabV2.ts:52 | `new Map()` is well formed and has no keys |
| OrderedMaps.Put | jpnlearning/src/lib/mergeVocab.ts:11 | `Map.set` keeps a key's position, appends a new key at the end, and stores the value |
| OrderedMaps.ValuesOf | jpnlearning/src/lib/mergeVocab.ts:26 | the values listed along a key order are one per key, in that order |
| OrderedMaps.Values | jpnlearning/src/lib/mergeVocab.ts:26 | `Array.from(map.values())` lists one value per key, in key-insertion order |
| OrderedMaps.PutKeys | jpnlearning/src/lib/mergeVocab.ts:11 | a map whose keys are the distinct keys of a stream, after one more set, has the distinct keys of the longer stream |
| OrderedMaps.KeysOf | jpnlearning/src/lib/mergeVocab.ts:7 | one key per element, in order |
| OrderedMaps.LastWith | jpnlearning/src/lib/mergeVocab.ts:33 | the last element with a key is an element of the list and has that key |
| OrderedMaps.LastWithAppend | jpnlearning/src/lib/mergeVocab.ts:33 | the last element with a key in a + b is the last in b, or else the last in a |
| OrderedMaps.FromList | jpnlearning/src/lib/mergeVocab.ts:7 | `new Map(xs.map(x => [key(x), x]))` is well formed |
| OrderedMaps.FromListKeyed | jpnlearning/src/lib/mergeVocab.ts:7 | every value sits under its own key |
| OrderedMaps.FromListKeys | jpnlearning/src/lib/mergeVocab.ts:7 | the keys are the distinct keys of the list, first occurrence first |
| OrderedMaps.FromListKeysStep | jpnlearning/src/lib/mergeVocab.ts:7 | the key order for one more element extends the shorter list's key order |
| OrderedMaps.FromListLast | jpnlearning/src/lib/mergeVocab.ts:30-33 | a key is present exactly when some element has it, and its value is the last such element |
| OrderedMaps.KeysOfInit | jpnlearning/src/lib/mergeVocab.ts:7 | the keys of a non-empty list are the keys of all but the last element, then the last one's |
| OrderedMaps.PutAll | jpnlearning/src/lib/mergeVocab.ts:33 | setting every element of a list in turn keeps the map well formed |
| OrderedMaps.PutAllFromList | jpnlearning/src/lib/mergeVocab.ts:30-33 | seeding from a and then setting every element of b is building the map from a + b |
| OrderedMaps.FromListValues | jpnlearning/src/lib/mergeVocab.ts:30-34 | an element is among the values exactly when it is the last element with its key |
| OrderedMaps.FromListValuesKeys | jpnlearning/src/lib/mergeVocab.ts:26 | the values' keys are the map's key order, and they are distinct |
| Shuffling.Swap | jpnlearning/src/components/QuizMode.tsx:38 | the swap exchanges positions i and j and leaves every other position alone |
| Shuffling.SwapPerm | jpnlearning/src/components/QuizMode.tsx:38 | a swap is a permutation |
| Shuffling.ShuffleFrom | jpnlearning/src/components/QuizMode.tsx:36-39 | the swap loop from position i down keeps the length |
| Shuffling.ShuffleFromPerm | jpnlearning/src/components/QuizMode.tsx:36-39 | the swap loop from position i down is a permutation |
| Shuffling.Shuffled | jpnlearning/src/components/QuizMode.tsx:34-41 | the Fisher-Yates shuffle keeps the length |
| Shuffling.ShuffledPerm | jpnlearning/src/components/QuizMode.tsx:34-41 | the shuffle is a permutation of its input: same multiset, same members |
| Shuffling.ShuffleStep | jpnlearning/src/components/QuizMode.tsx:36-39 | one loop step swaps position i with the drawn j in [0, i], then continues at i - 1 |
| Shuffling.SwapInPlace | jpnlearning/src/components/QuizMode.tsx:38 | the destructuring swap on the copied array exchanges two cells |
| Shuffling.Shuffle | jpnlearning/src/components/QuizMode.tsx:34-41 | the in-place loop on a copy of the input computes the shuffle specification |
| Shuffling.PickNSub | jpnlearning/src/components/QuizMode.tsx:42-44 | `pickN` returns min(n, length) elements, none more often than it occurs in the input |
| Shuffling.DistinctCounts | jpnlearning/src/components/KanjiQuizMode.tsx:86 | a list without repeats holds each element at most once |
| Shuffling.PickNDistinct | jpnlearning/src/components/KanjiQuizMode.tsx:86 | a pick from a list without repeats has no repeats |
| Strings.LeadingWhite | jpnlearning/src/lib/parseVocabV2.ts:10 | counts exactly the whitespace characters `trim` removes at the front |
| Strings.TrailingWhite | jpnlearning/src/lib/parseVocabV2.ts:10 | counts exactly the whitespace characters `trim` removes at the back |
| Strings.Trim | jpnlearning/src/lib/parseVocabV2.ts:10 | `trim()` returns a string with no whitespace at either end, no longer than its input |
| Strings.TrimSpec | jpnlearning/src/lib/parseVocabV2.ts:10 | a trim is empty exactly when the input is all whitespace, leaves a trimmed string alone, and only keeps characters of the input |
| Strings.TrimTrimmed | jpnlearning/src/lib/parseVocabV2.ts:10 | trimming the start and then the end gives a trimmed string, and is the identity on trimmed strings |
| Strings.TrimBlank | jpnlearning/src/lib/parseVocabV2.ts:10 | a trim is empty exactly when the input is all whitespace |
| Strings.TrimChars | jpnlearning/src/lib/parseVocabV2.ts:10 | a trim is no longer than the input and only keeps its characters |
| Strings.IndexOfFrom | jpnlearning/src/components/ClozeQuizMode.tsx:36 | the search returns the first position at or after the start where the text occurs, and none when there is no such position |
| Strings.Split | jpnlearning/src/lib/parseVocabV2.ts:14 | `split` on a non-empty separator returns at least one piece |
| Strings.JoinSplit | jpnlearning/src/components/ClozeQuizMode.tsx:37 | joining the pieces of a split with the same separator restores the string |
| Strings.SplitWithout | jpnlearning/src/lib/parseVocabV2.ts:14 | a string without the separator's first character splits into itself |
| Strings.SplitAfter | jpnlearning/src/lib/parseVocabV2.ts:14 | a leading piece without the separator is split off first |
| Strings.SplitJoin | jpnlearning/src/components/EditWordDialog.tsx:35-46 | splitting a join of separator-free pieces gives the pieces back |
| Strings.SplitChars | jpnlearning/src/components/ReviewMode.tsx:21-28 | a regular-expression split on a character class gives at least one piece, each made of input characters outside the class |
| Strings.SplitCharsWithout | jpnlearning/src/components/ReviewMode.tsx:21-28 | a string without any separator character splits into itself |
| Strings.SplitCharsAfter | jpnlearning/src/components/ReviewMode.tsx:21-28 | a leading separator-free piece is split off first |
| Strings.SplitCharsJoin | jpnlearning/src/components/EditWordDialog.tsx:18-25 | splitting a newline join of separator-free pieces gives the pieces back |
| Strings.CharPiecesSpec | jpnlearning/src/components/AddWordDialog.tsx:11-15 | every piece of split-trim-drop-empty is non-empty, trimmed and free of separators |
| Strings.CharPiecesBlank | jpnlearning/src/components/AddWordDialog.tsx:11-15 | a blank input gives no pieces |
| Strings.TrimAllTrimmed | jpnlearning/src/components/AddWordDialog.tsx:13 | trimming each of a list of trimmed strings changes nothing |
| Strings.CharPiecesJoin | jpnlearning/src/components/AddWordDialog.tsx:11-15 | split-trim-drop-empty inverts a join of non-empty, trimmed, separator-free pieces |
| Strings.JoinEnds | jpnlearning/src/components/EditWordDialog.tsx:35-36 | a join of non-empty pieces starts with the first piece's first character and ends with the last piece's last character |
| Strings.Compact | jpnlearning/src/lib/parseVocabV2.ts:16 | `filter(Boolean)` keeps exactly the non-empty strings, in order |
| Strings.CompactAppend | jpnlearning/src/lib/parseVocabV2.ts:16 | dropping empty strings distributes over concatenation |
| Strings.TrimAll | jpnlearning/src/lib/parseVocabV2.ts:15 | `map(x => x.trim())` trims each string in place |
| Strings.Filter | jpnlearning/src/pages/index.tsx:163-172 | `filter` keeps exactly the elements satisfying the predicate; FilterAppend and FilterOne fix their order and multiplicity |
| Strings.FilterAppend | jpnlearning/src/pages/index.tsx:163-172 | filtering a concatenation is filtering each part, in order |
| Strings.FilterOne | jpnlearning/src/pages/index.tsx:163-172 | one element is kept, once, exactly when it passes |
| Strings.FilterAll | jpnlearning/src/pages/index.tsx:163-172 | a filter that every element passes changes nothing |
| Strings.CompactNonEmpty | jpnlearning/src/lib/parseVocabV2.ts:16 | dropping empty strings from a list without any changes nothing |
| Strings.CompactEmpty | jpnlearning/src/lib/parseVocabV2.ts:16 | a list of empty strings compacts to nothing |
| Strings.TrimPadded | jpnlearning/src/components/EditWordDialog.tsx:41 | trimming a trimmed, non-empty text with whitespace around it gives the text back |
| Strings.PiecesJoin | jpnlearning/src/components/EditWordDialog.tsx:35-42 | split-trim-drop-empty on a separator inverts the join with the padded separator, for non-empty, trimmed, separator-free pieces |
| Strings.PiecesJoinAfter | jpnlearning/src/components/EditWordDialog.tsx:35-42 | the same holds after leading whitespace |
| Strings.PiecesBlank | jpnlearning/src/components/EditWordDialog.tsx:39-42 | a blank separator-free text has no pieces |
| Strings.PiecesJoinOne | jpnlearning/src/components/EditWordDialog.tsx:39-42 | a single piece after whitespace reads back as itself |
| Strings.PiecesJoinNext | jpnlearning/src/components/EditWordDialog.tsx:39-42 | a piece followed by the padded separator is split off before the pieces of the rest |
| Strings.PiecesHead | jpnlearning/src/lib/parseVocabV2.ts:14-16 | the text before the first separator, trimmed and non-empty, is the first piece |
| Strings.Pieces | jpnlearning/src/lib/parseVocabV2.ts:14-16 | split, trim and drop-empty gives non-empty, trimmed pieces |
| Strings.Dedup | jpnlearning/src/lib/mergeVocab.ts:38 | `Array.from(new Set(xs))` has exactly the members of the input |
| Strings.DedupSnoc | jpnlearning/src/lib/mergeVocab.ts:38 | one more element is appended exactly when it has not been seen |
| Strings.DedupIsDistinct | jpnlearning/src/lib/mergeVocab.ts:38 | the set's elements are distinct |
| Strings.DedupDistinct | jpnlearning/src/lib/mergeVocab.ts:38 | a list without repeats goes through the set unchanged |
| Strings.DedupPrefix | jpnlearning/src/lib/mergeVocab.ts:38 | the distinct elements of a prefix come first, in order |
| Strings.ReplaceAllIsSplitJoin | jpnlearning/src/components/ClozeQuizMode.tsx:37 | `replaceAll` of a non-empty text is splitting on it and joining with the replacement |
| MergeVocab.Unique | jpnlearning/src/lib/mergeVocab.ts:37-39 | the tags come out distinct, and a tag is kept exactly when it is a non-empty tag of the input |
| MergeVocab.UniquePrefix | jpnlearning/src/lib/mergeVocab.ts:20 | the stored word's tags keep their place at the front of the merged tag list |
| MergeVocab.IndexedValuesUnique | jpnlearning/src/lib/mergeVocab.ts:30-33 | the senses of the index-keyed map have pairwise different indices |
| MergeVocab.IndexedValuesLast | jpnlearning/src/lib/mergeVocab.ts:30-34 | a sense is in the map's sorted values exactly when it is the last sense given for its index |
| MergeVocab.MergeSensesSorted | jpnlearning/src/lib/mergeVocab.ts:29-35 | merged senses have strictly increasing indices, and each is the last sense given for its index in the stored then incoming senses |
| MergeVocab.IncomingSenseWins | jpnlearning/src/lib/mergeVocab.ts:33 | an incoming sense replaces the stored sense with its index; a stored index the incoming word lacks keeps its stored sense |
| MergeVocab.MergeSenses | jpnlearning/src/lib/mergeVocab.ts:29-35 | the loop-and-sort result equals the merged-senses specification |
| MergeVocab.IndexSenses | jpnlearning/src/lib/mergeVocab.ts:30-33 | the map after the loop is the map seeded from the stored senses with every incoming sense put under its index |
| MergeVocab.MergeInto | jpnlearning/src/lib/mergeVocab.ts:14-23 | merging keeps the stored word's id and its Leitner record |
| MergeVocab.MergeIntoFields | jpnlearning/src/lib/mergeVocab.ts:15-23 | a non-empty incoming kanji, a present reading and a present level win; tags are the non-empty tags of either word; senses are merged by index |
| MergeVocab.MergeStep | jpnlearning/src/lib/mergeVocab.ts:9-24 | one loop step keeps every entry under its own id, appends a new id at the end, inserts an unknown word as is, and merges a known one |
| MergeVocab.MergeFold | jpnlearning/src/lib/mergeVocab.ts:7-25 | the loop keeps every entry of the map under its own id |
| MergeVocab.MergeVocabulary | jpnlearning/src/lib/mergeVocab.ts:3-27 | the loop over the incoming words computes the merge specification (the id-keyed map seeded from the stored words, updated word by word) |
| MergeVocab.MergeFoldKeys | jpnlearning/src/lib/mergeVocab.ts:7-11 | the keys after the loop are the distinct ids of the stored words then of the incoming words, first occurrence first |
| MergeVocab.MergeFoldKeysStep | jpnlearning/src/lib/mergeVocab.ts:8-11 | the key order after one more incoming word extends the key order before it |
| MergeVocab.MergeIds | jpnlearning/src/lib/mergeVocab.ts:26 | the result has one word per distinct id of either list: the stored ids first, in order, then new ids in arrival order |
| MergeVocab.StoredWordKept | jpnlearning/src/lib/mergeVocab.ts:22 | a stored word stays, keeps its Leitner record through every merge, and is unchanged when no incoming word names it |
| MergeVocab.MergeStepKeeps | jpnlearning/src/lib/mergeVocab.ts:9-23 | one step keeps the entry under any stored key and its Leitner record, and touches only the entry of the incoming word's id |
| MergeVocab.NewWordInserted | jpnlearning/src/lib/mergeVocab.ts:10-11 | an incoming word whose id appears nowhere else comes out exactly as it came in |
| MergeVocab.NotYetKeyed | jpnlearning/src/lib/mergeVocab.ts:7-11 | an id neither stored nor incoming gets no entry |
| ValidateVocabV2.MissingErrors | jpnlearning/src/lib/validateVocabV2.ts:7-9 | a row gets at most one missing-column error per checked column |
| ValidateVocabV2.MissingSnoc | jpnlearning/src/lib/validateVocabV2.ts:7-9 | checking one more column appends exactly that column's error when the column is blank after trimming, and nothing otherwise |
| ValidateVocabV2.Validate | jpnlearning/src/lib/validateVocabV2.ts:3-18 | the loop over the rows returns the errors of every row, row after row |
| ValidateVocabV2.CheckRow | jpnlearning/src/lib/validateVocabV2.ts:6-16 | the per-row callback appends that row's missing-column errors and then its count error |
| ValidateVocabV2.CheckColumns | jpnlearning/src/lib/validateVocabV2.ts:7-9 | the column loop appends one error per blank required column, in column order |
| ValidateVocabV2.MissingExactly | jpnlearning/src/lib/validateVocabV2.ts:7-9 | a missing-column error for a column is reported, with the row's spreadsheet number i + 2, exactly when that column is listed and blank |
| ValidateVocabV2.RowErrorsShape | jpnlearning/src/lib/validateVocabV2.ts:5-15 | a row gets at most five errors, all numbered i + 2; one per blank required column, then a count error exactly when both example counts are non-zero and differ |
| ValidateVocabV2.RowErrorsNumbered | jpnlearning/src/lib/validateVocabV2.ts:6-16 | every row check numbers its errors with the row and gives at most five |
| ValidateVocabV2.FoldRowsInRange | jpnlearning/src/lib/validateVocabV2.ts:6-17 | every error names a row from 2 to the row count + 1, and there are at most five per row |
| ValidateVocabV2.FoldOrdered | jpnlearning/src/lib/validateVocabV2.ts:6-17 | errors come out ordered by row number |
| ValidateVocabV2.FoldMembers | jpnlearning/src/lib/validateVocabV2.ts:6-17 | an error is reported exactly when some row's own check reports it |
| ValidateVocabV2.ValidateErrors | jpnlearning/src/lib/validateVocabV2.ts:3-18 | the validation result is numbered 2 to the row count + 1, at most five per row, ordered by row, and is exactly the union of the rows' errors |
| ValidateVocabV2.NoneMissing | jpnlearning/src/lib/validateVocabV2.ts:7-9 | a row whose listed columns are all filled gets no missing-column error |
| ValidateVocabV2.CleanRowsPass | jpnlearning/src/lib/validateVocabV2.ts:3-18 | a table whose rows fill the four required columns and have equal example counts gets no errors |
| ValidateVocabV2.RowErrors | jpnlearning/src/lib/validateVocabV2.ts:6-16 | all errors of one row; CheckRow, RowErrorsShape and ValidateErrors state its properties |
| Storage.MakeExamplesShape | jpnlearning/src/lib/storage.ts:68-79 | one example per position of the longer side; a missing sentence becomes "", a missing or empty translation becomes absent |
| Storage.MakeExamplesAsParsed | jpnlearning/src/lib/storage.ts:68-79 | on lists without empty entries the migration pairs sentences and translations exactly as the long-form reader does |
| Storage.TagsFromString | jpnlearning/src/lib/storage.ts:41-47 | trimmed, comma-free tags joined into one comma string read back as the same list |
| Storage.MigrateV1toV2 | jpnlearning/src/lib/storage.ts:32-34 | a decoded value that is not an array migrates to nothing; an array migrates record by record, keeping the count |
| Storage.MigratedRecords | jpnlearning/src/lib/storage.ts:34-65 | each migrated record keeps its id, spelling, reading, level and schedule, and gets exactly one sense numbered 1 carrying the old meaning (or ""), the `makeExamples` pairing of its sentences and translations and its collocations (or none); its tags are the array as is or the trimmed comma pieces |
| Storage.MigrateLegacy | jpnlearning/src/lib/storage.ts:34-65 | migration inverts the old-format view of a record with one sense numbered 1, tags present and no empty translation |
| Storage.MakeExamples | jpnlearning/src/lib/storage.ts:68-79 | `makeExamples`: the i-th sentence beside the i-th translation; MakeExamplesShape and MakeExamplesAsParsed state its properties |
| Storage.MigrateOne | jpnlearning/src/lib/storage.ts:35-63 | one migrated record: one sense with index 1; MigrateLegacy proves the legacy form of a one-sense record migrates back to it |
| ParseVocabV2.SplitListPieces | jpnlearning/src/lib/parseVocabV2.ts:10-17 | every piece of `splitList` is non-empty and trimmed, and a blank input gives no pieces |
| ParseVocabV2.SplitListSingle | jpnlearning/src/lib/parseVocabV2.ts:11-17 | a trimmed, non-empty text without a bar is its own single piece |
| ParseVocabV2.PairOfPlain | jpnlearning/src/lib/parseVocabV2.ts:21-22 | a trimmed piece without a colon becomes a pair with that text and no translation |
| ParseVocabV2.PairOfJoined | jpnlearning/src/lib/parseVocabV2.ts:21-22 | `jp::vi` of two trimmed, colon-free texts reads back as jp with vi, or with no translation when vi is empty |
| ParseVocabV2.PairsOf | jpnlearning/src/lib/parseVocabV2.ts:20-23 | one pair per piece, in order |
| ParseVocabV2.SplitPairsKept | jpnlearning/src/lib/parseVocabV2.ts:18-24 | `splitPairs` keeps exactly the pairs of the pieces whose Japanese side is non-empty, and every kept Japanese side is trimmed |
| ParseVocabV2.Zipped | jpnlearning/src/lib/parseVocabV2.ts:31-36 | the loop over positions 0..n-1 collects at most n examples |
| ParseVocabV2.ZippedFull | jpnlearning/src/lib/parseVocabV2.ts:29-36 | when neither list holds an empty entry no position is skipped: the i-th example pairs the i-th sentence ("" if missing) with the i-th translation (absent if missing) |
| ParseVocabV2.ZipExamples | jpnlearning/src/lib/parseVocabV2.ts:29-37 | the push loop computes the zipped examples of the two lists |
| ParseVocabV2.BuildExamples | jpnlearning/src/lib/parseVocabV2.ts:26-38 | `buildExamples` gives exactly max(jp count, vi count) examples, the i-th pairing the i-th sentence ("" if missing) with the i-th translation (absent if missing) |
| ParseVocabV2.BuildCollocs | jpnlearning/src/lib/parseVocabV2.ts:39-49 | all seven groups are always present, each the `splitPairs` of its column |
| ParseVocabV2.ParseStep | jpnlearning/src/lib/parseVocabV2.ts:53-79 | one row step keeps the id-keyed map well formed |
| ParseVocabV2.ParseFold | jpnlearning/src/lib/parseVocabV2.ts:52-79 | the row loop keeps the id-keyed map well formed |
| ParseVocabV2.SortSenses | jpnlearning/src/lib/parseVocabV2.ts:80-83 | sorting changes only the senses, and leaves them sorted by index |
| ParseVocabV2.SortEach | jpnlearning/src/lib/parseVocabV2.ts:80-83 | every word comes out, in order, with its senses sorted |
| ParseVocabV2.NewSense | jpnlearning/src/lib/parseVocabV2.ts:71-76 | the sense a row adds: index `sense_index` read as a number, or the senses so far + 1 when blank, with the row's meaning, examples and collocations |
| ParseVocabV2.AddRow | jpnlearning/src/lib/parseVocabV2.ts:54-78 | the loop body computes one row step of the specification |
| ParseVocabV2.ParseVocabV2 | jpnlearning/src/lib/parseVocabV2.ts:51-84 | the parser computes the map fold over the rows followed by the per-word sense sort |
| ParseVocabV2.RowsOf | jpnlearning/src/lib/parseVocabV2.ts:53-57 | the rows of one word are among the input rows |
| ParseVocabV2.SensesOf | jpnlearning/src/lib/parseVocabV2.ts:71-77 | each row of a word adds exactly one sense |
| ParseVocabV2.ParseFoldKeys | jpnlearning/src/lib/parseVocabV2.ts:52-55 | the word order is the distinct non-blank `word_id`s in first-appearance order |
| ParseVocabV2.ParseStepKeys | jpnlearning/src/lib/parseVocabV2.ts:54-78 | a row with a blank or known id adds no key; a row with a new id appends it |
| ParseVocabV2.ParseFoldEntry | jpnlearning/src/lib/parseVocabV2.ts:53-79 | a word exists exactly for a non-blank id with rows; its id is that id and its senses are one per row, in row order |
| ParseVocabV2.ParseFoldEntryStep | jpnlearning/src/lib/parseVocabV2.ts:53-79 | the per-word entry fact survives one more row |
| ParseVocabV2.ParseStepEntry | jpnlearning/src/lib/parseVocabV2.ts:54-78 | a row touches only its own word's entry, creating it from the row when new and appending one sense |
| ParseVocabV2.FirstRowFields | jpnlearning/src/lib/parseVocabV2.ts:56-69 | kanji, reading, level and comma-split trimmed tags come from the first row of each word |
| ParseVocabV2.StepKeepsFields | jpnlearning/src/lib/parseVocabV2.ts:56-57 | a later row of a word changes only its senses |
| ParseVocabV2.NoRowsNoEntry | jpnlearning/src/lib/parseVocabV2.ts:53-55 | an id that no row carries gets no word |
| ParseVocabV2.ParsedWords | jpnlearning/src/lib/parseVocabV2.ts:51-84 | one word per distinct non-blank `word_id`, in first-appearance order, each with its rows' senses sorted by index |
| ParseVocabV2.ParsedIds | jpnlearning/src/lib/parseVocabV2.ts:51-84 | the output ids are distinct and are exactly the non-blank `word_id`s of the rows |
| ParseVocabV2.SensesStable | jpnlearning/src/lib/parseVocabV2.ts:82 | senses sharing an index are all kept, in row order |
| ParseVocabV2.SensesOfRows | jpnlearning/src/lib/parseVocabV2.ts:71-77 | the i-th sense of a word is the one its i-th row adds as sense number i + 1 |
| ParseVocabV2.DefaultIndices | jpnlearning/src/lib/parseVocabV2.ts:72 | when no row gives a `sense_index`, the senses are numbered 1, 2, 3, ... |
| ParseVocabV2.SplitList | jpnlearning/src/lib/parseVocabV2.ts:11-16 | `splitList`: the trimmed non-empty `\|\|`-pieces; SplitListPieces and SplitListSingle state its properties |
| ParseVocabV2.PairOf | jpnlearning/src/lib/parseVocabV2.ts:18-24 | one `jp::vi` piece as a pair; PairOfPlain, PairOfJoined and PairsOf state its properties |
| ParseVocabV2.SplitPairs | jpnlearning/src/lib/parseVocabV2.ts:18-24 | `splitPairs`: the pairs of the pieces with a non-empty jp; SplitPairsKept states its properties |
| EditWordDialog.ExampleLines | jpnlearning/src/components/EditWordDialog.tsx:18-21 | one text line per example, in order |
| EditWordDialog.ParseExampleLines | jpnlearning/src/components/EditWordDialog.tsx:23-33 | one example per non-blank line |
| EditWordDialog.ExampleParts | jpnlearning/src/components/EditWordDialog.tsx:29 | a `jp || vi` line splits on the bars into the two sides with their margins |
| EditWordDialog.ExampleOfJoined | jpnlearning/src/components/EditWordDialog.tsx:28-32 | a `jp || vi` line of trimmed, bar-free, non-empty sides reads back as that example |
| EditWordDialog.ExampleLineShape | jpnlearning/src/components/EditWordDialog.tsx:20 | the line written for a safe example is non-empty, trimmed and has no line break |
| EditWordDialog.ExampleLineRoundTrip | jpnlearning/src/components/EditWordDialog.tsx:18-33 | reading back the line written for a safe example gives the example |
| EditWordDialog.ExamplesRoundTrip | jpnlearning/src/components/EditWordDialog.tsx:18-33 | `parseExampleLines(toExampleLines(xs)) == xs` when every sentence is non-empty and trimmed, every translation is absent or non-empty and trimmed, and no field holds a bar or a line break |
| EditWordDialog.PairTexts | jpnlearning/src/components/EditWordDialog.tsx:36 | one `jp::vi` text per pair, in order |
| EditWordDialog.ParsePairsString | jpnlearning/src/components/EditWordDialog.tsx:38-46 | one pair per trimmed non-blank piece, a piece with an empty Japanese side included |
| EditWordDialog.PairTextRoundTrip | jpnlearning/src/components/EditWordDialog.tsx:36-45 | the text written for a safe pair is non-empty, trimmed, bar-free, and reads back as the pair |
| EditWordDialog.PairsRoundTrip | jpnlearning/src/components/EditWordDialog.tsx:35-46 | `parsePairsString(toPairsString(xs)) == xs` when every side is trimmed, the Japanese side is non-empty, a translation is absent or non-empty, and no field holds a bar or a colon |
| EditWordDialog.ParseMeanings | jpnlearning/src/components/EditWordDialog.tsx:131-135 | a stored meanings list is never empty |
| EditWordDialog.MeaningsRoundTrip | jpnlearning/src/components/EditWordDialog.tsx:68-70 | the " \| "-joined meanings split back on the bar into the same list, and an empty list becomes absent |
| EditWordDialog.SaveKeeps | jpnlearning/src/components/EditWordDialog.tsx:121-139 | saving keeps every field the dialog does not edit (id, star, schedule, legacy fields), trims kanji, reading and meaning, and stores no empty sino-Vietnamese reading, meanings list or example list |
| EditWordDialog.SaveCollocations | jpnlearning/src/components/EditWordDialog.tsx:142-157 | collocations are absent exactly when all seven fields are blank; otherwise the five base groups are present and 慣/名 are present exactly when their text is non-empty |
| EditWordDialog.PairsStringBlank | jpnlearning/src/components/EditWordDialog.tsx:35-36 | the text of a safe group is blank, and is empty, exactly when the group is absent or empty |
| EditWordDialog.JoinHead | jpnlearning/src/components/EditWordDialog.tsx:36 | a join starts with its first piece |
| EditWordDialog.CollocationsRoundTrip | jpnlearning/src/components/EditWordDialog.tsx:78-99 | opening the dialog on safe collocations and saving gives them back unchanged |
| EditWordDialog.SaveUnedited | jpnlearning/src/components/EditWordDialog.tsx:64-160 | saving the dialog untouched on an already-trimmed, safe record returns the record unchanged |
| EditWordDialog.ToExampleLines | jpnlearning/src/components/EditWordDialog.tsx:18-21 | `toExampleLines`: one `jp \|\| vi` line per example; ExamplesRoundTrip proves parsing the lines back gives the examples |
| EditWordDialog.ToPairsString | jpnlearning/src/components/EditWordDialog.tsx:35-36 | `toPairsString`: the pairs as `jp::vi` joined with ` \|\| `; PairsRoundTrip and PairsStringBlank prove the round trip and the empty case |
| EditWordDialog.FormOf | jpnlearning/src/components/EditWordDialog.tsx:102-118 | the fields the dialog fills from a record when it opens; CollocationsRoundTrip and SaveUnedited prove saving them unedited keeps the record |
| EditWordDialog.HandleSave | jpnlearning/src/components/EditWordDialog.tsx:121-160 | `handleSave`: the record with the edited fields replaced; SaveKeeps, SaveCollocations and SaveUnedited state what changes and what does not |
| AddWordDialog.SplitLinesPieces | jpnlearning/src/components/AddWordDialog.tsx:11-15 | every piece of `splitLines` is non-empty, trimmed, and holds no comma or line break |
| AddWordDialog.SplitLinesBlank | jpnlearning/src/components/AddWordDialog.tsx:11-15 | a blank input gives no pieces |
| AddWordDialog.SplitLinesJoin | jpnlearning/src/components/AddWordDialog.tsx:11-15 | `splitLines` inverts a comma or newline join of non-empty, trimmed, separator-free pieces |
| AddWordDialog.WithRows | jpnlearning/src/components/AddWordDialog.tsx:60-82 | replacing one group's rows changes that group only, and putting the old rows back restores the form |
| AddWordDialog.Updated | jpnlearning/src/components/AddWordDialog.tsx:70-71 | `next[i] = { ...next[i], [key]: val }` changes only the chosen side of row i |
| AddWordDialog.Removed | jpnlearning/src/components/AddWordDialog.tsx:79-80 | `splice(i, 1)` drops row i and shifts the later rows down; an index past the end changes nothing |
| AddWordDialog.ExampleList | jpnlearning/src/components/AddWordDialog.tsx:92-94 | the kept examples are no more than the rows |
| AddWordDialog.SubmitGuard | jpnlearning/src/components/AddWordDialog.tsx:85-88 | a record is saved exactly when the reading and one of the two meaning fields are non-empty as typed |
| AddWordDialog.SubmitText | jpnlearning/src/components/AddWordDialog.tsx:103-113 | the saved record has the given id, the trimmed reading, the trimmed writing (the reading when no writing is typed), the star as set, a sino-Vietnamese reading exactly when one is typed, and no schedule or legacy example |
| AddWordDialog.SubmitMeanings | jpnlearning/src/components/AddWordDialog.tsx:90-91 | the meaning is the first non-empty entry of the meaning then the extra meanings; the list is stored exactly when it has more than one entry, and starts with the meaning |
| AddWordDialog.SubmitExamples | jpnlearning/src/components/AddWordDialog.tsx:92-94 | examples are absent exactly when every row's sentence is blank; otherwise they are the kept rows, cleaned |
| AddWordDialog.ExampleListSpec | jpnlearning/src/components/AddWordDialog.tsx:92-94 | every kept example has a non-empty trimmed sentence and a non-empty trimmed translation if any; none are kept exactly when every sentence is blank |
| AddWordDialog.ExampleListClean | jpnlearning/src/components/AddWordDialog.tsx:92-94 | clean rows are kept as they are, so cleaning twice is cleaning once |
| AddWordDialog.CollocationsSpec | jpnlearning/src/components/AddWordDialog.tsx:96-112 | collocations are present exactly when some group has rows; a group is present exactly when it has rows, holding its rows with a non-blank sentence; 慣 and 名 are never set |
| AddWordDialog.BlankReadingSaved | jpnlearning/src/components/AddWordDialog.tsx:85-106 | a reading of only spaces passes the guard and is saved as the empty reading |
| AddWordDialog.BlankWritingSaved | jpnlearning/src/components/AddWordDialog.tsx:85-105 | a writing of only spaces is not replaced by the reading and is saved empty |
| AddWordDialog.BlankMeaningSaved | jpnlearning/src/components/AddWordDialog.tsx:85-107 | extra meanings of only spaces pass the guard and the record is saved with an empty meaning |
| AddWordDialog.SubmitCheckedSound | jpnlearning/src/components/AddWordDialog.tsx:85-113 | corrected half of the guard finding: the trimmed-text submit saves exactly when the reading and some meaning are not blank, and then the reading, writing and meaning are non-empty and the meaning trimmed |
| AddWordDialog.CheckedMeaningsSpec | jpnlearning/src/components/AddWordDialog.tsx:90-91 | with the meaning trimmed first, the meaning list is non-empty exactly when some meaning is not blank, and its head is non-empty and trimmed |
| AddWordDialog.Dialog.constructor | jpnlearning/src/components/AddWordDialog.tsx:18-37 | the dialog starts with the blank form (one empty example row, no collocation rows, no star) |
| AddWordDialog.Dialog.AddRow | jpnlearning/src/components/AddWordDialog.tsx:60-62 | appends one empty row to the chosen group and changes nothing else |
| AddWordDialog.Dialog.UpdateRow | jpnlearning/src/components/AddWordDialog.tsx:63-73 | sets one side of one row of the chosen group and changes nothing else |
| AddWordDialog.Dialog.RemoveRow | jpnlearning/src/components/AddWordDialog.tsx:74-82 | removes one row of the chosen group and changes nothing else |
| AddWordDialog.Dialog.AddExample | jpnlearning/src/components/AddWordDialog.tsx:259 | appends one empty example row |
| AddWordDialog.Dialog.UpdateExample | jpnlearning/src/components/AddWordDialog.tsx:227-242 | sets one side of one example row |
| AddWordDialog.Dialog.RemoveExample | jpnlearning/src/components/AddWordDialog.tsx:246-250 | removes one example row, leaving one empty row when none remain |
| AddWordDialog.Dialog.Close | jpnlearning/src/components/AddWordDialog.tsx:39-56 | closing resets the form to blank and hides the advanced section |
| AddWordDialog.Dialog.Submit | jpnlearning/src/components/AddWordDialog.tsx:84-133 | returns the record handed to `onSave`, with the guard applied to the text as typed; when nothing is saved the state is unchanged; after a save the form is blank, and the dialog stays open only for "save and continue" |
| AddWordDialog.SplitLines | jpnlearning/src/components/AddWordDialog.tsx:11-15 | `splitLines`: the trimmed non-empty pieces between line breaks and commas; proved in SplitLinesPieces, SplitLinesBlank and SplitLinesJoin |
| AddWordDialog.Build | jpnlearning/src/components/AddWordDialog.tsx:90-113 | the record `onSubmit` builds from the form, a new id and the meaning list (as written); its fields are proved in SubmitText and SubmitExamples |
| AddWordDialog.NewRecord | jpnlearning/src/components/AddWordDialog.tsx:84-113 | `onSubmit` as written: nothing when the untrimmed guard fails, otherwise the built record; SubmitGuard, SubmitText, SubmitExamples and BlankReadingSaved state what is saved |
| AddWordDialog.SubmitChecked | jpnlearning/src/components/AddWordDialog.tsx:84-113 | corrected half of the AddWordDialog.tsx:85-88 finding: `onSubmit` with the inputs trimmed before the guard; SubmitCheckedSound proves every saved record has a reading, a writing and a meaning |
| CsvUploader.ConsCollapsed | jpnlearning/src/components/CSVUploader.tsx:19 | a character in front of a collapsed string keeps it collapsed unless it makes a second space or is other whitespace |
| CsvUploader.CollapseShape | jpnlearning/src/components/CSVUploader.tsx:19 | `replace(/\s+/g, " ")` leaves single plain spaces only, is empty exactly when the input is, and starts with whitespace exactly when the input does |
| CsvUploader.CollapseFixed | jpnlearning/src/components/CSVUploader.tsx:19 | collapsing an already collapsed string changes nothing |
| CsvUploader.CollapseSpec | jpnlearning/src/components/CSVUploader.tsx:19 | whitespace collapsing: the result is collapsed, fixes collapsed strings, is empty exactly when the input is, and keeps leading whitespace |
| CsvUploader.CollapseTwice | jpnlearning/src/components/CSVUploader.tsx:19 | collapsing twice is collapsing once |
| CsvUploader.NormalizeRow | jpnlearning/src/components/CSVUploader.tsx:293-294 | every header is replaced by its `norm` form, values and column order kept |
| CsvUploader.FirstFilled | jpnlearning/src/components/CSVUploader.tsx:21-27 | the picked value is trimmed |
| CsvUploader.PickByKeys | jpnlearning/src/components/CSVUploader.tsx:21-27 | the loop with early return computes the first-filled-alias specification |
| CsvUploader.FilledSpec | jpnlearning/src/components/CSVUploader.tsx:24 | a cell counts as filled exactly when it is not blank |
| CsvUploader.FirstFilledAt | jpnlearning/src/components/CSVUploader.tsx:22-25 | the position of the first filled alias is within the alias list |
| CsvUploader.FirstFilledSpec | jpnlearning/src/components/CSVUploader.tsx:21-27 | `pickByKeys` returns the trimmed value of the first alias, in list order, whose cell is not blank; every earlier alias is blank; "" exactly when none is filled |
| CsvUploader.SplitListSpec | jpnlearning/src/components/CSVUploader.tsx:129-135 | the pieces are non-empty and trimmed, and a blank cell gives no pieces and no pairs |
| CsvUploader.SplitPairsSpec | jpnlearning/src/components/CSVUploader.tsx:136-142 | the pairs kept are those of the pieces with a non-empty Japanese side; each is trimmed and has no empty translation |
| CsvUploader.UniqueBy | jpnlearning/src/components/CSVUploader.tsx:144-148 | the map-filling loop computes the values of the key-indexed map built from the list |
| CsvUploader.UniqueByKeeps | jpnlearning/src/components/CSVUploader.tsx:144-148 | the output keys are the distinct keys in first-occurrence order; an element is kept exactly when it is the last with its key |
| CsvUploader.LastWithOnly | jpnlearning/src/components/CSVUploader.tsx:146 | the only element with its key is the last with that key |
| CsvUploader.PairKeyTextCollides | jpnlearning/src/components/CSVUploader.tsx:253 | the text key `${jp}__${vi ?? ""}` maps two different pairs to one key, so deduplication drops one of them |
| CsvUploader.CollidingPairsMerged | jpnlearning/src/components/CSVUploader.tsx:256-267 | as written, a collocation cell holding the two colliding pairs keeps only the second |
| CsvUploader.KeyTextFirst | jpnlearning/src/components/CSVUploader.tsx:253 | when the Japanese text has no `_`, the first `_` of the text key comes right after it |
| CsvUploader.PairKeyTextInjective | jpnlearning/src/components/CSVUploader.tsx:253 | on pairs without `_` in the Japanese text and without an empty translation, two pairs share a text key exactly when they are equal |
| CsvUploader.UniqueByExact | jpnlearning/src/components/CSVUploader.tsx:144-148 | under a key that tells the elements apart, `uniqueBy` keeps every element exactly once and invents none |
| CsvUploader.UniqueTextExact | jpnlearning/src/components/CSVUploader.tsx:253 | the source's text-key deduplication keeps every distinct pair exactly once on pairs without `_` in the Japanese text |
| CsvUploader.UniquePairsExact | jpnlearning/src/components/CSVUploader.tsx:253 | corrected half of the `uniqueBy` finding: deduplication keyed on the (jp, vi) pair itself keeps every distinct pair exactly once and invents none |
| CsvUploader.LongStep | jpnlearning/src/components/CSVUploader.tsx:200-281 | one row step keeps the word map well formed |
| CsvUploader.LongFold | jpnlearning/src/components/CSVUploader.tsx:198-281 | the row loop keeps the word map well formed |
| CsvUploader.MergeCol | jpnlearning/src/components/CSVUploader.tsx:256-267 | `mergeCol` as written computes the group merge: no change for an empty list, otherwise the old then new pairs deduplicated by the text key `${jp}__${vi ?? ""}` |
| CsvUploader.MergeCols | jpnlearning/src/components/CSVUploader.tsx:268-275 | the seven `mergeCol` calls, each deduplicating by the text key, merge every group |
| CsvUploader.AbsorbInto | jpnlearning/src/components/CSVUploader.tsx:243-278 | the in-place field updates of a kept row, with examples and collocations deduplicated by the text key, compute the row-absorption specification |
| CsvUploader.FillById | jpnlearning/src/components/CSVUploader.tsx:198-281 | the long-form loop, whose row updates are those of the source (text-key deduplication), computes the fold of row steps over the rows |
| CsvUploader.LongForm | jpnlearning/src/components/CSVUploader.tsx:197-289 | the long-form branch as written returns the values of the folded map that pass the retention filter |
| CsvUploader.RowsFor | jpnlearning/src/components/CSVUploader.tsx:201-209 | the rows gathered for a word are kept rows carrying that id |
| CsvUploader.LongFoldKeys | jpnlearning/src/components/CSVUploader.tsx:198-202 | words are keyed by the distinct ids of the kept rows, in first-appearance order |
| CsvUploader.LongFoldEntryStep | jpnlearning/src/components/CSVUploader.tsx:228-280 | the per-word fact survives one more row |
| CsvUploader.LongFoldEntry | jpnlearning/src/components/CSVUploader.tsx:198-281 | a word exists exactly for an id with kept rows, and it is the fold of those rows |
| CsvUploader.FirstSino | jpnlearning/src/components/CSVUploader.tsx:243-245 | the kept sino-Vietnamese reading is never empty |
| CsvUploader.WordIdentity | jpnlearning/src/components/CSVUploader.tsx:228-241 | a word's id is the fresh id, its meaning the first kept row's, unstarred, and its writing the first row's kanji or else its reading |
| CsvUploader.MeaningsNonEmpty | jpnlearning/src/components/CSVUploader.tsx:209 | every kept row has a non-empty meaning |
| CsvUploader.WordMeanings | jpnlearning/src/components/CSVUploader.tsx:248-249 | a word's meanings are its rows' distinct meanings, in first-appearance order |
| CsvUploader.GatherStep | jpnlearning/src/components/CSVUploader.tsx:248-249 | the concat, filter and set of one more meaning is the distinct meanings of the longer list |
| CsvUploader.WordSino | jpnlearning/src/components/CSVUploader.tsx:243-245 | a word's sino-Vietnamese reading is the first non-empty one among its rows |
| CsvUploader.WordHira | jpnlearning/src/components/CSVUploader.tsx:278 | a word's reading is the first non-empty reading among its rows |
| CsvUploader.WordExamples | jpnlearning/src/components/CSVUploader.tsx:251-253 | when no example has a `_` in its Japanese text (so the text key cannot confuse two of them), a word's examples are distinct and are exactly the examples of its rows |
| CsvUploader.AllExamplesClean | jpnlearning/src/components/CSVUploader.tsx:214-217 | when every row's examples are free of `_` in the Japanese text and of empty translations, so are all the gathered ones |
| CsvUploader.ExamplesStep | jpnlearning/src/components/CSVUploader.tsx:252-253 | deduplicating the old examples plus a row's by the text key gives each of them exactly once, when none has a `_` in its Japanese text |
| CsvUploader.WordRetained | jpnlearning/src/components/CSVUploader.tsx:283-288 | a word survives the retention filter exactly when one of its rows has a reading |
| CsvUploader.FirstHiraSpec | jpnlearning/src/components/CSVUploader.tsx:278 | the first reading is empty exactly when no row has one |
| CsvUploader.LongWords | jpnlearning/src/components/CSVUploader.tsx:198-283 | one word per distinct kept id, in first-appearance order, each the fold of its own rows |
| CsvUploader.ZippedClean | jpnlearning/src/components/CSVUploader.tsx:213-217 | the zipped examples never carry an empty translation |
| CsvUploader.ReadLongClean | jpnlearning/src/components/CSVUploader.tsx:211-217 | a row's examples never carry an empty translation |
| CsvUploader.MergeGroupSpec | jpnlearning/src/components/CSVUploader.tsx:256-267 | an empty list leaves a group alone; otherwise, when no pair has a `_` in its Japanese text, the group is present, distinct, and holds exactly the old and new pairs |
| CsvUploader.Norm | jpnlearning/src/components/CSVUploader.tsx:14-19 | `norm`: folded, byte-order mark dropped, trimmed, whitespace collapsed; NormalizeRow states its use on a row's keys |
| CsvUploader.Absorb | jpnlearning/src/components/CSVUploader.tsx:243-279 | what a kept long-form row does to its word's record, with the text-key deduplication as written; AbsorbInto states its properties |
| CsvUploader.LongSpec | jpnlearning/src/components/CSVUploader.tsx:197-289 | the long-form branch as a value; LongForm proves the method computes it |
| CsvImport.FlexItems | jpnlearning/src/components/CSVUploader.tsx:292-376 | one record per row, in order |
| CsvImport.FlexFields | jpnlearning/src/components/CSVUploader.tsx:316-326 | a flexible row's record has its own id, trimmed text, no star and no schedule, and its writing falls back to its reading |
| CsvImport.FlexKeptIff | jpnlearning/src/components/CSVUploader.tsx:378-380 | a flexible record is kept exactly when its meaning and reading are non-empty |
| CsvImport.FlexExamples | jpnlearning/src/components/CSVUploader.tsx:333-334 | a non-empty decoded JSON example array wins; otherwise a legacy sentence gives one example with its translation; otherwise there are none; a stored list is never empty |
| CsvImport.FlexMeanings | jpnlearning/src/components/CSVUploader.tsx:330-331 | meanings are set exactly when the JSON cell decodes to a non-empty array, and are that array; a malformed cell counts as absent |
| CsvImport.FlexCollocations | jpnlearning/src/components/CSVUploader.tsx:336-365 | collocations are set exactly when some decoded group is non-empty, and then hold all seven decoded groups |
| CsvImport.FlexLegacy | jpnlearning/src/components/CSVUploader.tsx:367-373 | the legacy example fields are set only from non-empty cells, and both are absent when both cells are empty |
| CsvImport.FlexibleKept | jpnlearning/src/components/CSVUploader.tsx:292-380 | every record the flexible branch returns has a non-empty meaning, reading and writing, and there are no more records than rows |
| CsvImport.Col | jpnlearning/src/components/CSVUploader.tsx:386-392 | a positional cell is the trimmed column value, or "" past the row's end |
| CsvImport.PlainColumns | jpnlearning/src/components/CSVUploader.tsx:384-407 | a headerless row is kept exactly when columns 1 and 2 are not blank; it has an example exactly when column 4 is not blank, with column 5 as translation; columns 0-3 are the writing (or the reading), reading, meaning and sino-Vietnamese reading |
| CsvImport.HeaderlessKept | jpnlearning/src/components/CSVUploader.tsx:384-412 | every headerless record returned has a non-empty meaning, reading and writing |
| CsvImport.FirstRowKeys | jpnlearning/src/components/CSVUploader.tsx:423 | a file without rows has no header keys |
| CsvImport.Dispatch | jpnlearning/src/components/CSVUploader.tsx:425-441 | the header result is used when non-empty, else the headerless result when non-empty; the error is raised exactly when both are empty; an import is never empty |
| CsvImport.NoIdsNoWords | jpnlearning/src/components/CSVUploader.tsx:201-202 | a file without any `word_id` yields nothing in the long-form branch |
| CsvImport.NoKeptIds | jpnlearning/src/components/CSVUploader.tsx:201-202 | a file without any `word_id` keeps no row in the long-form branch |
| CsvImport.StaleHeaders | jpnlearning/src/components/CSVUploader.tsx:419-424 | with the long-form headers of an earlier file still in `detected`, a flexible-header file without `word_id` gets nothing from the header branch and falls through to the headerless branch |
| CsvImport.OwnHeaders | jpnlearning/src/components/CSVUploader.tsx:188-197 | deciding on the file's own first-row keys, a file without the long-form columns gets the flexible branch's records whenever there are any |
| CsvImport.HeaderLineKept | jpnlearning/src/components/CSVUploader.tsx:384-411 | in the headerless fallback a header line with non-blank second and third cells is itself imported as a word |
| CsvImport.FlexItem | jpnlearning/src/components/CSVUploader.tsx:292-378 | the record one flexible-header row becomes (as written); its fields, the keep filter, the example, meaning and collocation rules and the legacy fields are proved in FlexFields, FlexKeptIff, FlexExamples, FlexMeanings, FlexCollocations and FlexLegacy |
| CsvImport.Flexible | jpnlearning/src/components/CSVUploader.tsx:291-382 | the flexible-header branch as written: one record per row, only the kept ones; proved in FlexibleKept |
| CsvImport.PlainItem | jpnlearning/src/components/CSVUploader.tsx:385-405 | the record one positional row becomes (as written); its columns and keep rule are proved in PlainColumns and HeaderLineKept |
| CsvImport.Headerless | jpnlearning/src/components/CSVUploader.tsx:384-412 | the headerless branch as written: the kept positional records in order; proved in HeaderlessKept |
| CsvImport.FromHeaderRows | jpnlearning/src/components/CSVUploader.tsx:192-382 | `buildItemsFromHeaderRows` as written: the long-form branch when every long-form column is among the headers, the flexible one otherwise |
| CsvImport.HandleParsed | jpnlearning/src/components/CSVUploader.tsx:415-444 | `handleParsed` as written, deciding the branch from the stale `detected` headers (line 420); StaleHeaders exhibits the header line imported as a word |
| CsvImport.HandleImport | jpnlearning/src/components/CSVUploader.tsx:415-444 | corrected half of the CSVUploader.tsx:420 finding: `handleParsed` deciding the branch from the file's own first row; OwnHeaders proves an ordinary file is read by the flexible branch |
| Leitner.IntervalDays | jpnlearning/src/hooks/use-leitner.ts:4-10 | every box waits at least one day, and a box outside 1..5 falls back to one day |
| Leitner.IntervalTable | jpnlearning/src/hooks/use-leitner.ts:4-10 | boxes 1 to 5 wait 1, 2, 7, 14 and 30 days, so a higher box never comes back sooner |
| Leitner.StartOfDay | jpnlearning/src/hooks/use-leitner.ts:13-17 | midnight keeps the day and clears the time of day |
| Leitner.ReviveDates | jpnlearning/src/hooks/use-leitner.ts:19-31 | the list keeps its length; a record without Leitner data is untouched, one with it gets a next review date (now when it had none) and nothing else changes |
| Leitner.InitializeLeitnerData | jpnlearning/src/hooks/use-leitner.ts:33-46 | a record that already has Leitner data is returned as it is; otherwise it enters box 1, due at the start of today, with no reviews and no streak, and only the Leitner field changes |
| Leitner.InitializeIdempotent | jpnlearning/src/hooks/use-leitner.ts:33-46 | initialising twice, at any two instants, is initialising once |
| Leitner.DueAfterInitialize | jpnlearning/src/hooks/use-leitner.ts:48-54 | after lazy initialisation a record is due today exactly when it has no schedule or its next review day is not after today |
| Leitner.GetDueWords | jpnlearning/src/hooks/use-leitner.ts:56-57 | the due list is no longer than the vocabulary, holds only initialised records due today, and holds every record that is due, initialised; GetDueWordsAppend and GetDueWordsOne fix input order and multiplicity |
| Leitner.GetDueWordsAppend | jpnlearning/src/hooks/use-leitner.ts:56-57 | the due list of a concatenation is each part's due list, in input order |
| Leitner.GetDueWordsOne | jpnlearning/src/hooks/use-leitner.ts:56-57 | one record yields its initialised form, once, exactly when it is due |
| Leitner.UpdateLeitnerData | jpnlearning/src/hooks/use-leitner.ts:59-83 | a right answer moves the word up one box (at most box 5), a wrong one back to box 1; the box stays within 1..5; the streak grows by one or resets; reviews grow by one; the next review is the interval of the new box after the start of today; nothing but the Leitner field changes |
| Leitner.WrongThenRight | jpnlearning/src/hooks/use-leitner.ts:59-83 | a wrong answer then a right one always leaves the word in box 2 with a streak of one |
| Leitner.CountInBox | jpnlearning/src/hooks/use-leitner.ts:93-105 | a box never holds more records than the list |
| Leitner.BoxCountsSum | jpnlearning/src/hooks/use-leitner.ts:93-105 | when every box is within 1..5, the five box counts add up to the list's length |
| Leitner.BoxTallyCounts | jpnlearning/src/hooks/use-leitner.ts:95-103 | the tally has keys 1..5 plus every box in use, each holding the number of records in that box |
| Leitner.GetLeitnerStats | jpnlearning/src/hooks/use-leitner.ts:93-105 | the loop's tally is the box count of every box, the total is the list length and the due count is the length of the due list |
| Leitner.DueOn | jpnlearning/src/hooks/use-leitner.ts:48-54 | the due rule at day granularity: no schedule, no next review, or a next review on or before the day |
| Leitner.IsDueToday | jpnlearning/src/hooks/use-leitner.ts:48-54 | `isDueToday`: the due rule on today's date; GetDueWords and DueAfterInitialize state its properties |
| LeitnerPanel.Count | jpnlearning/src/components/LeitnerPanel.tsx:26-42 | a counter never exceeds the number of records |
| LeitnerPanel.CountCons | jpnlearning/src/components/LeitnerPanel.tsx:26-42 | counting a list with one more record in front adds one exactly when that record qualifies |
| LeitnerPanel.CountStep | jpnlearning/src/components/LeitnerPanel.tsx:26-42 | each step of the loop adds one to a counter exactly when the current record qualifies |
| LeitnerPanel.CountAll | jpnlearning/src/components/LeitnerPanel.tsx:20-42 | the single loop yields the box tally and the numbers of new, mastered, learning and due records, each equal to its own count over the vocabulary |
| LeitnerPanel.ComputeStats | jpnlearning/src/components/LeitnerPanel.tsx:13-42 | the panel's figures: the per-box counts (boxes 1..5 plus any box in use), newcomers, mastered, learning and due today |
| LeitnerPanel.CategoriesCover | jpnlearning/src/components/LeitnerPanel.tsx:30-33 | with boxes at most 5 and no negative review count, every record is new, learning or mastered, and no record is learning and also new or mastered; hence the three counters cover the list and learning plus either other counter fits in it |
| LeitnerPanel.DueTodayIsDueWords | jpnlearning/src/components/LeitnerPanel.tsx:35-41 | the panel's due-today count equals the length of the hook's due list |
| LeitnerPanel.PanelBoxesSum | jpnlearning/src/components/LeitnerPanel.tsx:24-28 | when every box is within 1..5, the five box counts add up to the vocabulary's size |
| IndexPage.KeyOnNames | jpnlearning/src/pages/index.tsx:40-41 | the import key depends on the kanji and the reading and on nothing else of a record |
| IndexPage.KeyInjective | jpnlearning/src/pages/index.tsx:33-41 | two records share a key exactly when their folded kanji agree and their folded readings agree, as long as the folded kanji holds no `\|` |
| IndexPage.SeparatedInjective | jpnlearning/src/pages/index.tsx:40-41 | joining two texts with `\|` can be undone when the first part holds no `\|` |
| IndexPage.PageOpts | jpnlearning/src/pages/index.tsx:119-125 | the page merges with a key that looks only at kanji and reading |
| IndexPage.Replacement | jpnlearning/src/pages/index.tsx:56-69 | on a key match the stored record takes every field of the incoming one but keeps the stored id; with "keep progress" the star is the old or new star (false when neither) and the schedule is the old one when present, else the new one; without it both come from the incoming record |
| IndexPage.Inserted | jpnlearning/src/pages/index.tsx:70-77 | an unmatched incoming record is stored unchanged but for its id, which is its own when non-empty and a generated one otherwise |
| IndexPage.SmartMerge | jpnlearning/src/pages/index.tsx:44-81 | the loop (load the map from the stored list, then one update per incoming record) yields exactly the values of the specified fold |
| IndexPage.LoadByKey | jpnlearning/src/pages/index.tsx:50-51 | loading the stored list gives the keyed map of that list, later records overwriting earlier ones under the same key |
| IndexPage.SmartFoldAppend | jpnlearning/src/pages/index.tsx:53-78 | importing `a + b` is importing `a` and then `b` |
| IndexPage.SmartFoldKeyed | jpnlearning/src/pages/index.tsx:50-78 | every stored record sits under its own key before and after an import |
| IndexPage.SmartFoldKeys | jpnlearning/src/pages/index.tsx:53-78 | the map's key order after the import is the stored keys followed by the new incoming keys in arrival order, each once |
| IndexPage.SmartMergeKeys | jpnlearning/src/pages/index.tsx:44-81 | the merged list has pairwise distinct keys, one per distinct key of the stored and incoming lists, the stored ones first in their old order and new ones appended in arrival order |
| IndexPage.SmartStepKeeps | jpnlearning/src/pages/index.tsx:56-69 | one update never removes a key or changes the id under it, and leaves the records under other keys alone |
| IndexPage.SmartFoldKeeps | jpnlearning/src/pages/index.tsx:53-78 | after the import every stored key is still present with its stored id, and its record is untouched when no incoming record has its key |
| IndexPage.ExistingKept | jpnlearning/src/pages/index.tsx:50-78 | no stored word is lost or renumbered by an import |
| IndexPage.LaterDuplicateKeepsId | jpnlearning/src/pages/index.tsx:56-61 | a later incoming record with an earlier one's key replaces it but inherits the id the earlier one was stored with |
| IndexPage.LastIncomingWins | jpnlearning/src/pages/index.tsx:56-68 | the last incoming record with a key decides every field but the id (and, with "keep progress", the star and the schedule) |
| IndexPage.NewKeyInserted | jpnlearning/src/pages/index.tsx:70-77 | an incoming record whose key is new and not repeated is stored as it came, with a generated id only when its own is empty |
| IndexPage.KeyAbsent | jpnlearning/src/pages/index.tsx:50-78 | a key neither stored nor incoming is not in the result |
| IndexPage.SmartFoldScheduled | jpnlearning/src/pages/index.tsx:53-78 | when every stored and incoming record has a schedule, every record after the import has one |
| IndexPage.InitializeAll | jpnlearning/src/pages/index.tsx:121 | every incoming record is lazily initialised, one for one |
| IndexPage.ImportScheduled | jpnlearning/src/pages/index.tsx:119-125 | importing into a fully scheduled list leaves every record with a schedule |
| IndexPage.AddWord | jpnlearning/src/pages/index.tsx:129-131 | adding puts the initialised word in front of the unchanged list |
| IndexPage.AddedWordDue | jpnlearning/src/pages/index.tsx:129-131 | a newly added unscheduled word heads the due list, and the rest of the due list is unchanged |
| IndexPage.ToggleStar | jpnlearning/src/pages/index.tsx:133-137 | only the records with the given id change, and only in their star, which flips |
| IndexPage.ToggleTwice | jpnlearning/src/pages/index.tsx:133-137 | toggling twice leaves every record starred exactly as before, nothing else changed |
| IndexPage.UpdateWord | jpnlearning/src/pages/index.tsx:140-155 | records with the edited id take the edit's fields but keep their id and schedule, and their star unless the edit sets one; other records are unchanged |
| IndexPage.UpdateIdempotent | jpnlearning/src/pages/index.tsx:140-155 | saving the same edit twice is saving it once |
| IndexPage.LeitnerUpdate | jpnlearning/src/pages/index.tsx:209-213 | the records with the answered id are rescheduled by the answer; the others are unchanged |
| IndexPage.AnsweredNotDue | jpnlearning/src/pages/index.tsx:209-213 | an answer keeps every id, and a word just answered is not in that day's due list |
| IndexPage.FilteredList | jpnlearning/src/pages/index.tsx:162-172 | with an empty folded query on the all-words tab the list is shown whole; FilteredAppend and FilteredOne give the order |
| IndexPage.FilteredAppend | jpnlearning/src/pages/index.tsx:162-172 | the list shown for a concatenation is the list shown for each part, in input order |
| IndexPage.FilteredOne | jpnlearning/src/pages/index.tsx:162-172 | one record is shown, once, exactly when it is in the tab and matches a non-empty folded query |
| IndexPage.FilteredMembership | jpnlearning/src/pages/index.tsx:162-172 | a record is shown exactly when it is in the list, starred on the starred tab, and (for a non-empty folded query) one of its kanji, reading, meaning or Sino-Vietnamese reading contains the folded query |
| IndexPage.NormalizeSearch | jpnlearning/src/pages/index.tsx:26-30 | `normalizeSearch`: folded, not trimmed; FilteredList states the search filter built on it |
| IndexPage.NormKey | jpnlearning/src/pages/index.tsx:33-38 | `normKey`: folded and trimmed; KeyInjective states when two keys coincide |
| IndexPage.KeyFromItem | jpnlearning/src/pages/index.tsx:40-41 | `keyFromItem`: the folded kanji and reading joined by `\|`; KeyInjective proves equal keys mean equal folded kanji and reading |
| IndexPage.SmartStep | jpnlearning/src/pages/index.tsx:54-79 | one iteration of the smart-merge loop: replace the record under an existing key keeping its id, or add a new one; SmartStepKeeps states what it keeps |
| IndexPage.SmartFold | jpnlearning/src/pages/index.tsx:53-80 | the map after the smart-merge loop; SmartFoldKeysStep and ExistingKept state its keys and what it keeps of the existing list |
| IndexPage.VocabularyImported | jpnlearning/src/pages/index.tsx:119-124 | `handleVocabularyImported`: the incoming words scheduled by `initializeLeitnerData`, then smart-merged into the list; InitializeAll and ImportScheduled state its properties, and SmartMergeKeys and ExistingKept those of the merge |
| ReviewMode.SplitMeaningsPieces | jpnlearning/src/components/ReviewMode.tsx:21-28 | every piece is non-empty, trimmed and free of separators, and blank text gives no pieces |
| ReviewMode.SplitMeaningsJoin | jpnlearning/src/components/ReviewMode.tsx:21-28 | splitting meanings joined by any one separator gives the meanings back (the split undoes the join) |
| ReviewMode.GetMeanings | jpnlearning/src/components/ReviewMode.tsx:30-35 | a non-empty `meanings` list is used as it is; otherwise the meanings are the split of `meaning` |
| ReviewMode.GetExamples | jpnlearning/src/components/ReviewMode.tsx:37-43 | a non-empty `examples` list is used as it is; otherwise the legacy sentence gives one example when it is non-empty, and there are none when it is not |
| ReviewMode.ExamplesLegacy | jpnlearning/src/components/ReviewMode.tsx:37-43 | the card has no examples exactly when the record has no examples list and no legacy sentence |
| ReviewMode.AllMeaningsEmpty | jpnlearning/src/components/ReviewMode.tsx:192-196 | the back of the card is empty exactly when the record has no meanings list and an empty meaning |
| ReviewMode.AllMeaningsShown | jpnlearning/src/components/ReviewMode.tsx:192-196 | a non-blank meaning always shows, split into pieces or whole |
| ReviewMode.LabelAt | jpnlearning/src/components/ReviewMode.tsx:61-67 | each of the seven display positions has its own group label |
| ReviewMode.EntriesFrom | jpnlearning/src/components/ReviewMode.tsx:61-67 | the pushes from a position on give exactly the listed groups from there, each with its own entries, in display order |
| ReviewMode.GetCollocations | jpnlearning/src/components/ReviewMode.tsx:45-69 | the card lists exactly the non-empty collocation groups, each with its entries, in the fixed order 連 合 類 関 対 慣 名, each once |
| ReviewMode.NoCollocationsShown | jpnlearning/src/components/ReviewMode.tsx:45-69 | a record without collocations, or with no group set, shows none |
| ReviewMode.NewBox | jpnlearning/src/components/ReviewMode.tsx:185-186 | a right answer announces the next box up (at most box 5), a wrong one box 1 |
| ReviewMode.AnnouncementAgrees | jpnlearning/src/components/ReviewMode.tsx:230-250 | the box and the waiting days the toast announces are the box and the schedule the update actually records; a wrong answer announces one day |
| ReviewMode.Review.constructor | jpnlearning/src/components/ReviewMode.tsx:163-168 | a review starts on the first due card, face up, with no answers and the session invariant holding |
| ReviewMode.Review.Flip | jpnlearning/src/components/ReviewMode.tsx:206 | flipping turns the card over and changes nothing else |
| ReviewMode.Review.Mark | jpnlearning/src/components/ReviewMode.tsx:230-254 | an answer adds one to the right or wrong count, reports the card on screen with the answer, turns the card face down and moves on unless it is the last, keeping the session invariant |
| ReviewMode.DoneWhenAllAnswered | jpnlearning/src/components/ReviewMode.tsx:226 | the session is done exactly when there have been as many answers as cards, and the card shown is always a real card |
| ReviewMode.ReportedInOrder | jpnlearning/src/components/ReviewMode.tsx:226-254 | until the session is done, each card was reported once, in list order |
| ReviewMode.SplitMeanings | jpnlearning/src/components/ReviewMode.tsx:21-28 | `splitMeanings`: the trimmed non-empty pieces of a meaning text; SplitMeaningsPieces and SplitMeaningsJoin state its properties |
| ReviewMode.AllMeanings | jpnlearning/src/components/ReviewMode.tsx:192-196 | `allMeanings`: the meanings to show, falling back to the raw text; AllMeaningsEmpty and AllMeaningsShown state its properties |
| StudyMode.ReplaceById | jpnlearning/src/components/StudyMode.tsx:220-223 | the list keeps its length; every record with the saved id becomes the saved record and every other record stays |
| StudyMode.ReplaceKeepsIds | jpnlearning/src/components/StudyMode.tsx:220-223 | saving keeps the ids and their order, saving twice is saving once, and saving an id not in the list changes nothing |
| StudyMode.ReplaceWithSame | jpnlearning/src/components/StudyMode.tsx:220-223 | saving a record already in the list under an id no other record has changes nothing |
| StudyMode.Study.Current | jpnlearning/src/components/StudyMode.tsx:186-197 | there is a card on screen exactly when the position is within the list |
| StudyMode.Study.constructor | jpnlearning/src/components/StudyMode.tsx:175-184 | a session starts on the first card of the given words, face up, with no dialog open |
| StudyMode.Study.Reload | jpnlearning/src/components/StudyMode.tsx:178 | a new vocabulary from the page replaces the words and keeps the position, the side and the dialog |
| StudyMode.Study.Next | jpnlearning/src/components/StudyMode.tsx:211-214 | one card on, stopping at the last, face down; a card stays on screen |
| StudyMode.Study.Prev | jpnlearning/src/components/StudyMode.tsx:215-218 | one card back, stopping at the first, face down; a card stays on screen |
| StudyMode.Study.Flip | jpnlearning/src/components/StudyMode.tsx:182 | flipping turns the card over and changes nothing else |
| StudyMode.Study.StartEdit | jpnlearning/src/components/StudyMode.tsx:286 | the edit dialog opens on the card on screen |
| StudyMode.Study.SaveEdit | jpnlearning/src/components/StudyMode.tsx:220-226 | the dialog's saved record, which keeps the edited id, replaces the records with that id, the ids and their order are kept, the dialog closes and the record is handed to the page |
| StudyMode.SaveUntouched | jpnlearning/src/components/StudyMode.tsx:220-226 | opening the dialog on a trimmed card with its own id and saving without edits leaves the words as they were |
| QuizSession.QuestionCount | jpnlearning/src/components/QuizMode.tsx:109-110 | "test all" (-1) asks the whole pool; any other choice asks that many questions, at most the pool |
| QuizSession.DrawSpec | jpnlearning/src/components/QuizMode.tsx:108-111 | a run asks the chosen number of questions, each from the pool and none more often than the pool holds it; "test all" asks every pool question once |
| QuizSession.DistractorsSpec | jpnlearning/src/components/QuizMode.tsx:90 | the distractors are three (or all, when fewer) different texts of the candidates |
| QuizSession.OptionsPerm | jpnlearning/src/components/QuizMode.tsx:91 | the options are the answer and the distractors, reordered |
| QuizSession.OptionsContents | jpnlearning/src/components/QuizMode.tsx:84-92 | the answer is offered; there is one option more than distractors; every option is the answer or a candidate |
| QuizSession.OptionsCounts | jpnlearning/src/components/QuizMode.tsx:90-91 | no distractor is offered twice, and the answer is offered once when no candidate equals it |
| QuizSession.OptionsSpec | jpnlearning/src/components/QuizMode.tsx:84-92 | the options offer the answer among at most four texts, each the answer or a candidate, no distractor twice |
| QuizSession.AnswerOfferedTwice | jpnlearning/src/components/QuizMode.tsx:86-91 | when the only candidate equals the answer, the answer is offered twice, whatever the draws |
| QuizSession.CheckedOptionsSpec | jpnlearning/src/components/QuizMode.tsx:84-92 | with candidates equal to the answer left out, the answer is offered and every option exactly once |
| QuizSession.CountTrue | jpnlearning/src/components/QuizMode.tsx:290 | the number of answered flags is at most the number of questions |
| QuizSession.CountTrueSet | jpnlearning/src/components/QuizMode.tsx:153-157 | setting an unset flag adds one to the number of answered questions |
| QuizSession.CountTrueAll | jpnlearning/src/components/QuizMode.tsx:290 | every question is answered exactly when the number of answered flags is the number of questions |
| QuizSession.CountTrueNone | jpnlearning/src/components/QuizMode.tsx:117 | a fresh run has no answered question |
| QuizSession.Session.constructor | jpnlearning/src/components/QuizMode.tsx:97-106 | a screen starts in setup with no questions, no answers and score 0 |
| QuizSession.Session.Start | jpnlearning/src/components/QuizMode.tsx:108-122 | starting sets the drawn questions, the first one on screen, no selection, score 0, every question unanswered and empty id lists |
| QuizSession.Session.Select | jpnlearning/src/components/QuizMode.tsx:139-158 | a selection is ignored while the result shows or once the question was answered; otherwise the answer is recorded (score and right ids, or wrong ids), the question flagged and its id and verdict reported; the one-answer-per-question invariant is kept |
| QuizSession.Session.Record | jpnlearning/src/components/QuizMode.tsx:141-157 | recording an answer adds its id to the right or wrong list (and one to the score when right), flags the question, shows the result and reports the id with the verdict |
| QuizSession.Session.SelectUnguarded | jpnlearning/src/components/KanjiQuizMode.tsx:254-271 | the kanji quiz ignores a selection only while the result shows; otherwise it records the answer even for a question answered before |
| QuizSession.Session.Next | jpnlearning/src/components/QuizMode.tsx:160-169 | the Next button, enabled only while the result shows (line 434), moves to the next question with nothing selected, or ends the run on the last one; answers are kept |
| QuizSession.Session.NextChecked | jpnlearning/src/components/QuizMode.tsx:160-169 | corrected half of the QuizMode.tsx:434 finding: Next enabled on any answered question takes the same step |
| QuizSession.Session.Prev | jpnlearning/src/components/QuizMode.tsx:171-178 | moves back one question with nothing selected, or stays on the first; answers are kept |
| QuizSession.Session.Finish | jpnlearning/src/components/QuizMode.tsx:398-409 | once every question is answered the run can be closed, keeping the answers |
| QuizSession.ScoreBounded | jpnlearning/src/components/QuizMode.tsx:139-158 | in a run with one answer per question the score plus the wrong answers never exceed the number of questions, and the run is complete exactly when every question has an answer |
| QuizSession.ReanswerOvercounts | jpnlearning/src/components/KanjiQuizMode.tsx:254-289 | in the kanji quiz, two questions, both answered right, then one answered again after going back give a score of 3 out of 2 |
| QuizSession.BackIsDeadEnd | jpnlearning/src/components/QuizMode.tsx:139-178 | as written: after answering the first of two questions, Next then Prev, no result shows on the first question, a selection is ignored, and the run is not complete, so neither Next, Prev nor the results button is available |
| QuizSession.ForwardWithChecked | jpnlearning/src/components/QuizMode.tsx:139-169 | corrected half of the QuizMode.tsx:434 finding: with Next enabled on an answered question, an incomplete run always either accepts an answer or can move to a later question |
| QuizSession.ReanswerIgnored | jpnlearning/src/components/QuizMode.tsx:139-178 | with the answered-question guard and Next enabled on an answered question, the clicks of ReanswerOvercounts ignore the repeat answer and complete the run with a score of 2 out of 2 |
| Shuffling.PickN | jpnlearning/src/components/QuizMode.tsx:42-44 | `pickN`: the first n elements of a shuffle; PickNSub proves it has min(n, length) elements drawn from the input, PickNDistinct that a distinct input gives a distinct draw |
| QuizSession.Draw | jpnlearning/src/components/QuizMode.tsx:108-112 | `pickN(pool, count)` when a run starts; DrawSpec proves it has the chosen count of questions, drawn from the pool, and the whole pool for "all" |
| QuizSession.Options | jpnlearning/src/components/QuizMode.tsx:86-91 | `shuffle([correct, ...pickN(Array.from(new Set(others)), 3)])` as written; OptionsSpec, OptionsContents, OptionsCounts and AnswerOfferedTwice state its properties |
| QuizSession.CheckedOptions | jpnlearning/src/components/QuizMode.tsx:86-91 | corrected half of the two distractor findings: the candidates equal to the answer are left out first; CheckedOptionsSpec proves every option is offered once |
| QuizMode.MeaningsOf | jpnlearning/src/components/QuizMode.tsx:88 | one meaning per word, in order |
| QuizMode.OthersOf | jpnlearning/src/components/QuizMode.tsx:86-89 | the candidate distractors are exactly the non-empty meanings of the words with another id |
| QuizMode.QuestionSpec | jpnlearning/src/components/QuizMode.tsx:84-92 | each question asks for its word's meaning among at most four options, the others meanings of other words, no distractor twice (the question as written) |
| QuizMode.Built | jpnlearning/src/components/QuizMode.tsx:84-93 | one question per eligible word, in the order of the words, built as written (the answer not left out of the distractors) |
| QuizMode.PoolSize | jpnlearning/src/components/QuizMode.tsx:80-95 | the pool has one question per word with a meaning and a written form or reading |
| QuizMode.PoolQuestions | jpnlearning/src/components/QuizMode.tsx:80-95 | every pool question asks about an eligible word of the vocabulary, is well formed, and offers no distractor twice (the answer itself may come twice) |
| QuizMode.PoolCovers | jpnlearning/src/components/QuizMode.tsx:80-95 | every eligible word has a question in the pool |
| QuizMode.AsksOf | jpnlearning/src/components/QuizMode.tsx:141-152 | the session sees each question's word id and right answer |
| QuizMode.SharedMeaningTwice | jpnlearning/src/components/QuizMode.tsx:84-91 | when two words share a meaning, the first one's question offers that meaning twice |
| QuizMode.CheckedQuestionSpec | jpnlearning/src/components/QuizMode.tsx:84-92 | corrected half of the distractor finding: with the answer left out of the distractors, the question is well formed and every option differs |
| QuizMode.MakeQuestion | jpnlearning/src/components/QuizMode.tsx:84-92 | the question built for one eligible word, as written (the answer not left out of the distractors); QuestionSpec and SharedMeaningTwice state its properties |
| QuizMode.Pool | jpnlearning/src/components/QuizMode.tsx:80-95 | `poolQuestions` as written: the questions of the eligible words, shuffled; PoolSize, PoolQuestions and PoolCovers state its properties |
| QuizMode.MakeCheckedQuestion | jpnlearning/src/components/QuizMode.tsx:84-92 | corrected half of the QuizMode.tsx:84-91 finding: the distractors leave out the answer; CheckedQuestionSpec proves every option is offered once |
| KanjiQuizMode.Texts | jpnlearning/src/components/KanjiQuizMode.tsx:85 | the written forms or the readings of the words, one for one |
| KanjiQuizMode.Unshuffled | jpnlearning/src/components/KanjiQuizMode.tsx:80-140 | the questions in the order they are pushed, each built as written, as many as the pool size |
| KanjiQuizMode.FullQuestionsSize | jpnlearning/src/components/KanjiQuizMode.tsx:79-142 | the pool has one question per word with both forms, or three per word when there are two to five of them |
| KanjiQuizMode.MakeSpec | jpnlearning/src/components/KanjiQuizMode.tsx:84-109 | a pushed question shows one side of an eligible word, asks for the other, offers the answer among at most four options, no distractor twice, the others texts of the other words |
| KanjiQuizMode.SharedKanjiTwice | jpnlearning/src/components/KanjiQuizMode.tsx:84-108 | as written, two words with the same written form: the question asking for the first one's written form offers it twice |
| KanjiQuizMode.CheckedMakeSpec | jpnlearning/src/components/KanjiQuizMode.tsx:84-108 | corrected half of the distractor finding: with the answer left out, the question is well formed and offers every option exactly once |
| KanjiQuizMode.PushedExtra | jpnlearning/src/components/KanjiQuizMode.tsx:113-140 | the extras ask word j in both directions, first for the written form, then for the reading |
| KanjiQuizMode.PushedWellFormed | jpnlearning/src/components/KanjiQuizMode.tsx:83-140 | every pushed question is well formed: the answer present, at most four options, no distractor twice |
| KanjiQuizMode.FullQuestionsWellFormed | jpnlearning/src/components/KanjiQuizMode.tsx:79-142 | every pool question is well formed: the answer present, at most four options, no distractor twice |
| KanjiQuizMode.FullQuestionsCover | jpnlearning/src/components/KanjiQuizMode.tsx:83-111 | every word with both forms is asked about at least once |
| KanjiQuizMode.PushMain | jpnlearning/src/components/KanjiQuizMode.tsx:83-111 | the first loop pushes one question per word, in the direction of its coin, built as written |
| KanjiQuizMode.PushExtras | jpnlearning/src/components/KanjiQuizMode.tsx:113-140 | the second loop pushes both directions for each of the first five words, built as written, completing the pool |
| KanjiQuizMode.BuildFullQuestions | jpnlearning/src/components/KanjiQuizMode.tsx:79-142 | the loops and the final shuffle give exactly the specified pool of questions built as written |
| KanjiQuizMode.AsksOf | jpnlearning/src/components/KanjiQuizMode.tsx:254-270 | the session sees each question's word id and right answer |
| KanjiQuizMode.Make | jpnlearning/src/components/KanjiQuizMode.tsx:84-108 | `makeReadingToKanji` / `makeKanjiToReading` as written (the answer not left out of the distractors); MakeSpec and SharedKanjiTwice state its properties |
| KanjiQuizMode.FullQuestions | jpnlearning/src/components/KanjiQuizMode.tsx:79-142 | `fullQuestions`: every pushed question, shuffled; FullQuestionsWellFormed and BuildFullQuestions state its properties |
| KanjiQuizMode.CheckedMake | jpnlearning/src/components/KanjiQuizMode.tsx:84-108 | corrected half of the KanjiQuizMode.tsx:84-108 finding: the distractors leave out the answer; CheckedMakeSpec proves every option is offered once |
| ClozeQuizMode.ExampleOf | jpnlearning/src/components/ClozeQuizMode.tsx:78-82 | a word has an example to blank exactly when it has a non-empty examples list or a legacy sentence |
| ClozeQuizMode.ReplaceAllShowsBlank | jpnlearning/src/components/ClozeQuizMode.tsx:35-36 | replacing every occurrence of a word that occurs in the sentence leaves a blank in it |
| ClozeQuizMode.BuildClozeSpec | jpnlearning/src/components/ClozeQuizMode.tsx:33-39 | when the target occurs, every occurrence becomes the blank (the sentence split at the target and joined with the blank); otherwise the first three characters become the blank; a non-empty sentence always shows a blank |
| ClozeQuizMode.Labels | jpnlearning/src/components/ClozeQuizMode.tsx:73 | one label per word, in order |
| ClozeQuizMode.CollectOneMore | jpnlearning/src/components/ClozeQuizMode.tsx:75-98 | each turn of the loop appends the word's question, or nothing when the word is skipped |
| ClozeQuizMode.QuestionOf | jpnlearning/src/components/ClozeQuizMode.tsx:76-97 | the loop body skips a word without a label or without an example sentence and otherwise builds its question |
| ClozeQuizMode.PushOne | jpnlearning/src/components/ClozeQuizMode.tsx:75-98 | one turn of the loop extends the list built so far by the next word's question |
| ClozeQuizMode.PushAll | jpnlearning/src/components/ClozeQuizMode.tsx:74-99 | the loop over the source words builds the questions of all of them, in order |
| ClozeQuizMode.BuildPool | jpnlearning/src/components/ClozeQuizMode.tsx:66-100 | the pool built from the vocabulary is exactly the specified pool |
| ClozeQuizMode.DistractorsLeaveOutAnswer | jpnlearning/src/components/ClozeQuizMode.tsx:86-89 | the distractors are at most three labels of the vocabulary, never the answer |
| ClozeQuizMode.BaseChoicesSpec | jpnlearning/src/components/ClozeQuizMode.tsx:73 | the base choices are exactly the non-empty labels of the vocabulary |
| ClozeQuizMode.ChoicesSpec | jpnlearning/src/components/ClozeQuizMode.tsx:86-96 | the choices offer the answer exactly once among at most four texts, the others base choices |
| ClozeQuizMode.QuestionForSpec | jpnlearning/src/components/ClozeQuizMode.tsx:75-97 | a word gives a question exactly when it has an example, a label and a non-empty example sentence, and that question is well formed |
| ClozeQuizMode.CollectSize | jpnlearning/src/components/ClozeQuizMode.tsx:74-98 | the loop pushes at most one question per word |
| ClozeQuizMode.CollectFrom | jpnlearning/src/components/ClozeQuizMode.tsx:74-98 | every question in the list comes from one of the words looked at |
| ClozeQuizMode.CollectCovers | jpnlearning/src/components/ClozeQuizMode.tsx:74-98 | every word looked at that gives a question has it in the list |
| ClozeQuizMode.PoolSize | jpnlearning/src/components/ClozeQuizMode.tsx:66-100 | the pool has at most one question per word with an example |
| ClozeQuizMode.PoolQuestions | jpnlearning/src/components/ClozeQuizMode.tsx:72-100 | every pool question is about a word of the vocabulary and is well formed |
| ClozeQuizMode.PoolCovers | jpnlearning/src/components/ClozeQuizMode.tsx:72-100 | every word that qualifies has a question in the pool |
| ClozeQuizMode.TallyPick | jpnlearning/src/components/ClozeQuizMode.tsx:228-237 | recording a pick keeps the tally invariant, adding the question's id to the right or to the wrong list |
| ClozeQuizMode.Run.constructor | jpnlearning/src/components/ClozeQuizMode.tsx:103-114 | a run starts in setup with empty id lists and the meaning hidden |
| ClozeQuizMode.Run.Start | jpnlearning/src/components/ClozeQuizMode.tsx:116-128 | starting draws the chosen number of questions from the pool and resets the position, score, pick, meaning and id lists |
| ClozeQuizMode.Run.ShowMeaning | jpnlearning/src/components/ClozeQuizMode.tsx:305 | showing the meaning changes nothing else |
| ClozeQuizMode.Run.Pick | jpnlearning/src/components/ClozeQuizMode.tsx:228-237 | a pick is ignored once a choice is made; otherwise it is recorded, with the score and right ids growing on the right label and the wrong ids otherwise |
| ClozeQuizMode.Run.Next | jpnlearning/src/components/ClozeQuizMode.tsx:239-247 | moves to the next question with nothing picked and the meaning hidden, or ends the run after the last |
| ClozeQuizMode.ResultTally | jpnlearning/src/components/ClozeQuizMode.tsx:228-247 | at the end every question has exactly one recorded answer: the right and wrong ids together are the ids of the questions asked, and the score is at most the number of questions |
| ClozeQuizMode.MakeLabel | jpnlearning/src/components/ClozeQuizMode.tsx:30-31 | `makeLabel`: the trimmed written form, else the trimmed reading; Labels and BaseChoicesSpec state its properties |
| ClozeQuizMode.BuildCloze | jpnlearning/src/components/ClozeQuizMode.tsx:33-39 | `buildClozeSentence`: every occurrence of the word blanked, else the first three characters; BuildClozeSpec states its properties |
| ClozeQuizMode.Choices | jpnlearning/src/components/ClozeQuizMode.tsx:86-96 | the answer and up to three other labels, shuffled; ChoicesSpec states its properties |
| ClozeQuizMode.Pool | jpnlearning/src/components/ClozeQuizMode.tsx:72-100 | `pool`: the questions of the source words that have a label and a sentence; PoolSize, PoolQuestions, PoolCovers and BuildPool state its properties |

## Left out

- CSV decoding and file input.
  - Papa Parse's decoding is not modelled, nor is the file picker or
    drag-and-drop.
  - Rows enter the model already decoded: as ordered (header, cell) lists,
    or as lists of cells.
- Persistence is not modelled.
  - This covers `localStorage`, `loadVocabulary`/`saveVocabulary` in
    `lib/storage.ts`, and the page's load and save effects.
  - It also covers `saveScore` and the save-on-finish effects of all three
    quizzes.
  - `JSON.parse` is a decoder parameter that returns no value for
    malformed text, and the model reads no value either for JSON of the
    wrong shape (see CsvImport.FlexCollocations below).
  - The ISO date strings that `reviveDates` reads are not modelled.
- Unicode folding is a parameter (`TextFold`).
  - It stands for `normalize("NFD")`, the removal of U+0300–U+036F and
    `toLowerCase`.
  - Properties that need more of it say so in their requires.
- Randomness is modelled through parameters.
  - `Math.random` is a per-call sequence of draws.
  - `crypto.randomUUID` and the `imp-`/`row-` id fallbacks are id
    parameters.
  - The smart merge's id generator is asked once per new key, which is
    when the source calls it.
- Dates are whole days plus milliseconds (`Instant`). There are no time
  zones, no calendar and no invalid dates.
- `Number(sense_index)` is a conversion parameter, so `NaN` is not
  modelled.
- Regular-expression splits are modelled as splits on character sets.
  - `/\r?\n/` and `/\r?\n|;|,|\/+/` split on single characters.
  - They give the same pieces after the trim and the dropping of empty
    pieces that always follow.
- StudyMode.ReplaceById: `{ ...x, ...nextWord }` is modelled as
  replacement by `nextWord`.
  - This assumes `nextWord` carries every key of `x`, as the records from
    `handleSave` do.
  - A key missing from `nextWord` would keep `x`'s value in the source.
- IndexPage.UpdateWord: `{ ...v, ...next, id, leitner, starred }` is
  modelled as replacement by `next` for the other keys.
  - This assumes `next` carries every key of `v`, as the records from
    `handleSave` do.
  - A key missing from `next` would keep `v`'s value in the source.
- CsvImport.FlexCollocations: a collocation cell that parses to JSON other
  than an array of pairs counts as absent.
  - The source stores whatever `JSON.parse` returns: a cell `"abc"` counts
    3 towards the total and is stored as the group.
  - The meaning and example cells are read the same way. There the
    source's `Array.isArray` tests also drop non-array JSON, but an array
    whose elements have the wrong shape is stored by the source and not
    read by the model.
- ClozeQuizMode.Run.Pick: requires a non-empty choice.
  - The choices are labels, which are never empty.
  - The source's `if (picked)` would not block a second pick after an
    empty one.
- ClozeQuizMode.Run.Start: requires a non-empty pool and a count of 10, 20,
  30 or all. The start button is disabled on an empty pool, and the count
  selector offers only those values.
- User interface is not modelled. This covers rendering and CSS, toasts
  and their timers, speech synthesis, and keyboard listeners (apart from
  the actions they trigger).
  - It also covers progress bars and percentages, the furigana and meaning
    toggles, and the cloze choice letters.
  - It also covers `LeitnerStats.tsx`, `VocabularyList.tsx`,
    `VocabularyDetailModal.tsx`, `QuizPicker.tsx` and
    `RelatedTermsSection.tsx`.
- AddWordDialog text setters: the one-field setters of the form are not
  modelled. The row editors for examples and collocations are.
- React effects re-running on prop changes are modelled as explicit
  `Reload` steps where they matter (`StudyMode`). Otherwise a screen's
  state is its fields.

## Findings

| source | as written | input that shows it | evidently intended | confidence | as-written member | corrected member |
|---|---|---|---|---|---|---|
| jpnlearning/src/components/CSVUploader.tsx:253 | examples and collocations are deduplicated by the text key `jp + "__" + (vi ?? "")` | the pairs (jp `a__b`, no translation) and (jp `a`, translation `b__`) share the key `a__b__`, so merging them keeps only the second | deduplicate by the pair (jp, vi ?? "") itself | not executed | CsvUploader.CollidingPairsMerged | CsvUploader.UniquePairsExact |
| jpnlearning/src/components/CSVUploader.tsx:420 | `handleParsed` chooses the header branch from the `detected` state of the last render, not from the file being read | after a long-form import, an ordinary file with headers kanji, hiragana, meaning is read as long form, yields nothing, and falls through to the headerless branch, which imports its header line as a word | decide from the headers of the file being read | not executed | CsvImport.StaleHeaders | CsvImport.OwnHeaders |
| jpnlearning/src/components/AddWordDialog.tsx:85-88 | the guard tests the reading and meanings as typed, before trimming | reading `"  "` with meaning `"x"` is saved with an empty reading and writing; meaning `""` with extra meanings `"  "` is saved with an empty meaning | test the trimmed text | not executed | AddWordDialog.BlankReadingSaved | AddWordDialog.SubmitCheckedSound |
| jpnlearning/src/components/KanjiQuizMode.tsx:254-271 | `handleSelect` checks only `showResult`, which `prev` clears | two questions answered right, then back one and answered again: a score of 3 out of 2, with `onLeitnerUpdate` called twice for one question | also ignore a question already answered, as QuizMode.tsx:140 does, together with the QuizMode.tsx:434 correction so that a revisited question can be left | not executed | QuizSession.ReanswerOvercounts | QuizSession.ScoreBounded |
| jpnlearning/src/components/QuizMode.tsx:84-91 | the distractors are the other words' meanings without the answer left out | two words with the same meaning: the first one's question offers that meaning twice | leave the answer out, as ClozeQuizMode.tsx:87 does | not executed | QuizMode.SharedMeaningTwice | QuizMode.CheckedQuestionSpec |
| jpnlearning/src/components/KanjiQuizMode.tsx:84-108 | the distractors are the other words' written forms or readings without the answer left out | a candidate equal to the answer: the answer is offered twice | leave the answer out | not executed | KanjiQuizMode.SharedKanjiTwice | KanjiQuizMode.CheckedMakeSpec |
| jpnlearning/src/components/QuizMode.tsx:434 | Next is enabled only while a result shows, and a question answered before ignores a new selection (line 140), so its result never shows again | two questions: answer the first, Next, Prev; selection is ignored, Next is disabled, Prev is disabled on the first question (line 420) and the results button needs every answer (lines 290, 398), so the run cannot finish | enable Next on an answered question | not executed | QuizSession.BackIsDeadEnd | QuizSession.ForwardWithChecked |
