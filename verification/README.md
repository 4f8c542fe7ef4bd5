# CampusCompanion data pipeline, in Dafny

CampusCompanion is a chat relay for students. Its `index.js` does four
things:

- at start-up, it streams a mental-health survey dataset and keeps only
  the rows whose `Occupation` mentions "student";
- when the stream ends, it counts, in one pass over the rows it kept, how
  often each value of seven survey columns occurs (`analyzeStudentData`);
- on every chat message (index.js:189), it ranks four of those frequency
  tables and renders their top entries into a system prompt for the
  language model (`getEnhancedSystemPrompt`);
- it relays the chat message to the model with that prompt.

This project models the first three steps as pure functions over immutable
data, and proves what they compute.

Modules:

- `Strings`: the JavaScript string operations the pipeline uses:
  ASCII `toLowerCase`, `indexOf`/`includes`, `join`, and `split` as the
  inverse of `join`.
- `Rows`: a row as a map from header to cell; JavaScript truthiness of
  a cell; the student filter; the loader loop.
- `Tables`: an insight table as an association list of (key, count)
  entries in creation order. `Bump` is the `t[v] = (t[v] || 0) + 1`
  update.
- `Tally`: one column counted over the records, and its independent
  descriptions:
  - the truthy values in row order (`Values`);
  - their first-seen order (`Dedup`);
  - the number of rows carrying a given value (`CountRows`).
- `Analysis`: the eight-table `studentInsights` object. `Step` is one
  `forEach` callback. `AnalyzeStudentData` is the pass itself.
- `Sorting`: a stable sort by descending score, with a proof that a
  stable descending order is unique. Any stable sort, such as
  `Array.prototype.sort`, therefore returns the same sequence.
- `PropertyOrder`: the order in which `Object.entries` lists a plain
  object's keys. Array-index keys ("0", "17", …) come first, ascending.
  Every other key follows in creation order.
- `Ranking`: `Object.entries(t).sort((a, b) => b[1] - a[1]).slice(0, n).map(e => e[0]).join(", ")`
  and its properties:
  - selection bounds;
  - the selected keys are the most frequent ones;
  - ties keep enumeration order;
  - the joined list splits back into the selected keys.
- `Prompt`: the prompt template. It has four slots, filled with the top 5
  challenges, top 3 stressors, top 2 isolation patterns and top 3 social
  issues. A parser reads the slots back, and the round trip
  `ParsePrompt(Render(l)) == l` is proved.
- `Scenarios`: worked examples proved on small inputs:
  - the {A:5, B:5, C:3} tie;
  - an array-index key;
  - the filter on a few occupations;
  - a three-record dataset carried through to the stressors line.

## Model

| member | source | states |
|---|---|---|
| Rows.IsStudentSpec | index.js:162 | A row passes the filter exactly when its `Occupation` is present, non-empty, and contains "student" in any mix of ASCII upper and lower case. |
| Rows.Students | index.js:161-165 | A row is kept iff it was streamed and passes the filter. Never more rows are kept than were streamed. |
| Rows.StudentsMultiplicity | index.js:161-165 | Each student row is kept exactly as many times as it was streamed. Every other row is kept zero times. |
| Rows.StudentsAppend | index.js:161-165 | Filtering commutes with concatenation, so kept rows stay in their streaming order. |
| Rows.StudentsIdempotent | index.js:162 | Filtering the kept rows again removes nothing. |
| Rows.LoadStudents | index.js:161-165 | The `data` handler applied to every streamed row pushes exactly the filtered sequence. A row is in the result iff it was streamed and is a student row. |
| Tables.BumpCounts | index.js:73-74 | One increment raises the count of the incremented key by one and leaves every other key's count unchanged. |
| Tables.BumpKeys | index.js:73-74 | An increment keeps the key order and appends the key at the end only when it is new. |
| Tables.BumpTotal | index.js:73-74 | An increment raises the sum of all counts by exactly one. |
| Tables.BumpWellFormed | index.js:73-74 | An increment keeps keys distinct and counts at least one. |
| Tables.BumpLength | index.js:73-74 | An existing key's increment keeps the length. A new key's increment appends `(key, 1)` at the end. |
| Tables.BumpEntries | index.js:73-74 | An increment leaves the entries of other keys unchanged, keeps every entry's key in place, and lowers no count. |
| Tables.PresentIffCounted | index.js:57-66 | In a well-formed table a key is present iff its count is at least one. |
| Tally.TallyCounts | index.js:70-75 | After the pass, a column's table gives each non-empty value the number of rows holding exactly that value. The empty value is never counted. |
| Tally.TallyKeys | index.js:70-75 | A table's keys are the column's truthy values, in the order they first appear, each once. The empty string is never a key. |
| Tally.TallyWellFormed | index.js:70-75 | Every table produced by the pass has distinct keys and counts of at least one. |
| Tally.TallyTotal | index.js:70-75 | A table's counts sum to the number of rows with a truthy value in its column. This is at most the number of rows. |
| Tally.DedupFirstSeen | index.js:70-75 | The keys of a table are ordered by the position at which each value first occurs. |
| Tally.TallyDependsOnColumnOnly | index.js:70-75 | Two record sequences that agree on a column give that column the same table, whatever the other columns hold. |
| Analysis.StepCounts | index.js:70-111 | One record raises each tracked table's bucket for its own column value by one, only when that value is truthy. Nothing else changes, and `copingStrategies` is untouched. |
| Analysis.AnalyzeByColumn | index.js:69-113 | After the pass, each of the seven tracked tables equals its column counted alone. `copingStrategies` stays empty. |
| Analysis.AnalyzeCounts | index.js:69-113 | In every tracked table a key's count is the number of records whose column holds exactly that key. The empty value counts zero. |
| Analysis.AnalyzeWellFormed | index.js:57-66 | Every tracked table meets these conditions: keys distinct, counts ≥ 1, first-seen order, no empty key, sum equal to the number of truthy cells and at most the number of records. |
| Analysis.AnalyzeFieldIndependence | index.js:69-113 | A tracked table depends on its own column only. |
| Analysis.AnalyzeStudentData | index.js:69-113 | The `forEach` loop computes the fold of the record step. Every tracked table equals its own column's tally, and `copingStrategies` is left empty. |
| Sorting.SortPermutes | index.js:118 | Sorting returns the same entries, a permutation. |
| Sorting.SortDescending | index.js:118 | Sorted counts never increase left to right. |
| Sorting.SortStable | index.js:118 | For every count, the entries with that count keep their relative order (stability). |
| Sorting.SortSorted | index.js:118 | Sorting a table whose counts already descend leaves it unchanged. |
| Sorting.SortUnique | index.js:118 | Two descending sequences that agree, count by count, on the order of equal-count entries are equal. Every stable sort therefore produces the same result. |
| PropertyOrder.EntriesPermutes | index.js:117 | Enumeration lists each entry of the table exactly once. It keeps distinct keys and well-formedness. |
| PropertyOrder.EntriesIndicesFirst | index.js:117 | Array-index keys are enumerated before all others, in ascending numeric order. |
| PropertyOrder.EntriesNamedInOrder | index.js:117 | Keys that are not array indices are enumerated in creation order. |
| PropertyOrder.EntriesInsertionOrder | index.js:117 | When no key is an array index, enumeration is exactly creation order. |
| PropertyOrder.EntriesCounts | index.js:117 | Enumeration preserves what a lookup of any key returns. |
| Tables.SameEntriesSameCounts | index.js:117-120 | Two orderings of the same distinct-key entries give every key the same count and the same presence. |
| Ranking.RankedFacts | index.js:117-118 | The ranked entries are the table's entries: distinct, in descending count order, with their table counts. |
| Ranking.TopKeysBounds | index.js:117-121 | Top-N yields min(n, size of table) keys, each a key of the table, with no repeats. |
| Ranking.TopKeysOrdered | index.js:117-121 | The selected keys are listed in non-increasing count order. |
| Ranking.TopKeysAreTop | index.js:117-121 | A key whose count is strictly greater than a selected key's count is itself selected. |
| Ranking.TopKeysTies | index.js:117-121 | Equal-count selected keys keep enumeration order. When a tie is cut at position n, the key kept is enumerated before the key dropped. |
| Ranking.TopKeysTiesInsertionOrder | index.js:117-121 | When no key is an array index, ties are broken by creation order. |
| Ranking.RankedIsTheStableOrder | index.js:117-118 | Any descending order of the enumerated entries that keeps equal counts in enumeration order is the ranked order. |
| Ranking.TopListEmpty | index.js:117-121 | The rendered list is empty iff n is 0 or the table is empty, for tables without an empty key. |
| Ranking.TopListRoundTrip | index.js:121 | Splitting the rendered list on ", " gives back the selected keys, when n ≥ 1, the table is non-empty and no key contains a comma. |
| Strings.SplitJoin | index.js:121 | `split` undoes `join` on a non-empty list when no element contains the separator's first character. The empty list joins to "", which splits to `[""]`. |
| Strings.JoinChars | index.js:121 | Joining introduces no character absent from the elements and the separator. |
| Prompt.ParseRender | index.js:144-155 | The rendered template reads back as the four lists written into it, when each list is a single line. |
| Prompt.PromptShowsTopLists | index.js:115-156 | The prompt is the persona followed by the template: it begins with the persona text and the header. Its four slots hold the joined top 5 challenges, top 3 stressors, top 2 isolation patterns and top 3 social issues. |
| Prompt.PromptIgnoresUnshownTables | index.js:115-156 | Two insight objects that agree on the challenges, stressors, isolation and social tables give the same prompt: the habit, mood, work-interest and coping tables never reach it. |
| Prompt.EmptyInsightsPrompt | index.js:115-156 | With every table empty, all four slots are empty and the prompt is the persona followed by the bare template. |
| Tally.TallyKeysAvoid | index.js:70-75 | A character that no cell of a column contains appears in no key of that column's table. |
| Prompt.StudentTableSingleLine | index.js:161-165 | A tracked table built from the student rows is its column counted over those rows, with distinct keys. Its keys are single lines when the column's cells are. |
| Prompt.PromptFromRowsShows | index.js:115-165 | From streamed rows to prompt: its four slots hold the top 5, 3, 2 and 3 keys of the challenges, stressors, isolation and social columns, each counted over the student rows only. |
| Scenarios.TieKeepsInsertionOrder | index.js:117-121 | With counts A:5, B:5, C:3 created in that order, the top two are A then B. |
| Scenarios.IndexKeyEnumeratesFirst | index.js:117-121 | With equal counts, a key "1" created after "b" is still ranked first. |
| Scenarios.StudentFilterKeeps | index.js:162 | Occupations "Student" and "PhD STUDENT" pass the filter. |
| Scenarios.StudentFilterRejects | index.js:162 | The row is rejected in each of these cases: the occupation is "Housewife", the occupation is empty, or the column is missing. |
| Scenarios.LoadScenario | index.js:161-165 | In a stream of four rows, the loader drops the housewife row and keeps the other three in order. |
| Scenarios.StressorsRanking | index.js:69-75 | Two "Yes" records and one "No" record give the stressors list "Yes, No". |

## Left out

- Reading the CSV file (`fs.createReadStream(...).pipe(csv())`): the model starts from the sequence of parsed rows, each a map from header to cell text.
- The Express routes, the Socket.io connection handling, the chat handler and the inference client (index.js:173-213): these are network and I/O plumbing.
  - `services/aiService.js` and `public/script.js` are not part of this model.
- The `console.log` calls and the load's completion timing.
  - The model treats loading and analysis as one sequential step, which is what the `end` handler does.
- `MENTAL_HEALTH_PROMPT` (index.js:29-53) is a parameter `persona`. Its text is not reproduced; the template around it is.
- Strings.Lower: folds only ASCII `A`–`Z`. JavaScript's `toLowerCase` also folds non-ASCII letters, so the two differ on non-ASCII text. The filter's verdict does not change: the only non-ASCII characters that lower-case to ASCII letters are U+0130 (to "i" plus U+0307) and the Kelvin sign U+212A (to "k"), and neither letter occurs in "student".
- Keys that name `Object.prototype` members, such as `"constructor"` or `"__proto__"`, are not modelled.
  - On a plain object, `(t[k] || 0) + 1` with such a key reads the inherited member and does not produce a count.
  - Tables here are association lists with no inherited members.
- Counts are unbounded integers. JavaScript numbers are exact up to 2^53, far beyond any dataset size.
- Prompt.PromptShowsTopLists: requires that no table key contains a line break, so the four slots can be read back unambiguously. Keys with line breaks still render the same text; only the read-back is not claimed for them.
- Prompt.PromptFromRowsShows: requires that no cell of the four rendered columns contains a line break, for the same reason as above.
- Ranking.TopListRoundTrip: requires that no key contains a comma, because `", "` inside a key is indistinguishable from the separator. It also requires n ≥ 1 and a non-empty table: an empty selection renders as "", and splitting "" gives `[""]`, not the empty list.

## Behaviour of `index.js` worth noting

- Seven columns are counted. `Work_Interest` is counted into `workInterest`.
- `Coping_Struggles` is counted into `commonChallenges`, and that table is rendered as the "challenges" list.
- `copingStrategies` is declared but never written, so it stays empty (`Analysis.AnalyzeByColumn`).
- The habit-change, mood and work-interest tables are computed but never rendered. `Prompt` reads only the other four (`Prompt.PromptIgnoresUnshownTables`).
- Ties among equal counts follow `Object.entries` order, which is not plain creation order. A key that is a canonical array index (such as "3") is enumerated before every other key, so it wins ties. `Scenarios.IndexKeyEnumeratesFirst` shows this on two keys.
  - For survey values such as "Yes", "No" or "1-14 days", the two orders coincide (`Ranking.TopKeysTiesInsertionOrder`).
