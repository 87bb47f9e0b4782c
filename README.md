# pacertracker: feed ingestion and court loading in Dafny

pacertracker follows the federal courts' PACER/CM-ECF RSS feeds. It keeps a table of
courts, and for each court a table of cases and docket entries. This project models three
management commands of that system and proves properties of the model:

- `trackcases`, the current ingestion command. It reads every court feed flagged
  `has_feed`. For each court whose build date is newer than the court's watermark
  `last_updated`, it classifies each item:
  - an old item (filed no later than the watermark);
  - a broken item (a missing date, case, case type or entry fields);
  - an item whose date cannot be parsed, which ends the whole run;
  - an accepted candidate.

  The accepted candidates go to `save_everything` in batches of 500, and the rest of a
  court's candidates go when its feed ends. `save_everything` then:
  1. drops repeated entry ids;
  2. drops the entries the court has already flushed in this run (`last_entries_saved`);
  3. drops the entries already stored;
  4. updates the titles of stored cases;
  5. creates the missing cases and the new entries.

  The watermark then moves to the feed's build date.
- `trackcases_old`, the legacy version of the same command. Its rules differ:
  - a two-character case-code pattern and a smaller code table;
  - a case key without the `0` separator;
  - batches of 150 tuples;
  - the results of `set()` come out in an arbitrary order;
  - a stored-entry check that compares four fields with five and so never matches;
  - an uncaught error when a link has no case-key digits;
  - the feed time is taken from the first item.
- `loadcourts`, which builds court records from the rows of the PACER court list. From
  each row it derives:
  - the court's type and display name;
  - its base ECF URL, info-page URL, feed URL and public website;
  - from the downloaded feed and info page, whether it has a feed, whether the feed
    publishes every filing, and which filing types it carries.

Module layout:

- `Wrappers`: the `Option` type.
- `Text`: the models of Python's string operations on `seq<char>`:
  - `in`, `startswith`, `endswith`;
  - `strip`, `replace`, `partition`, ASCII `lower`.
- `Decimal`: `str` and `int` on natural numbers, and their round trips.
- `Patterns`: the leftmost-match semantics of the regular expressions the commands use.
  These are lookbehind plus a bounded run plus lookahead, `[0-9]+(?=(&|$))`, and the
  greedy `.+` between two literals.
- `Courts`: the court and case type codes, and the `Court` record whose watermark a run
  advances.
- `Track`, `Batch`, `Ingest`: `trackcases`. Respectively they model:
  - per-item extraction;
  - `save_everything` against a database modelled by the class `Batch.Store`;
  - the item loop, the per-court logic and `Command.handle`.
- `LegacyTrack`, `LegacyBatch`, `LegacyIngest`: the same three layers of `trackcases_old`.
  The database is modelled by the class `LegacyBatch.LegacyStore`, whose tables are
  sequences in table order.
- `LoadCourts`: `get_type`, `get_name`, `check_feed` and `update_court` of `loadcourts`.

The loops and the database writes are imperative: classes with `modifies` clauses, and
methods with loop invariants. Each such method is proved against a functional
specification, for example:

- `Batch.Flush`, `Ingest.IngestFeed` and `Ingest.Run` for the current command;
- `LegacyBatch.LegacyFlush` and `LegacyIngest.LegacyRun` for the legacy command.

The lemmas state what those specifications promise.

Model choices:

- Times are integers.
- The md5/uuid entry id is a parameter `hash: string -> nat`.
- Downloads and HTTP responses are inputs, as data or as functions of the requested URL.
- The downloaded courts come in the order they are given.

## Model

| member | source | states |
|---|---|---|
| Text.Strip | pacertracker/management/commands/trackcases.py:393 | `str.strip()`: the result has no leading or trailing whitespace, and the input is exactly that result with a whitespace run before and after it |
| Text.StripTrimmed | pacertracker/management/commands/loadcourts.py:53 | stripping an already trimmed string changes nothing |
| Text.Replace | pacertracker/management/commands/trackcases.py:126 | `str.replace` with a non-empty pattern: deleting never lengthens the string, and deleting a one-character pattern leaves no occurrence of that character |
| Text.ReplaceAbsent | pacertracker/management/commands/trackcases.py:126 | a string without the pattern is returned unchanged |
| Text.ReplaceAtFirst | pacertracker/management/commands/loadcourts.py:195 | replacement works left to right: the part before the first occurrence is kept, the occurrence is replaced, then the rest is processed the same way |
| Text.ReplaceLeading | pacertracker/management/commands/loadcourts.py:195 | a pattern that starts the string and occurs nowhere else is replaced once |
| Text.Partition | pacertracker/management/commands/trackcases.py:397 | `str.partition(' ')`: the head has no separator; if the separator occurs, head + separator + tail is the input; otherwise the result is (input, '', '') |
| Text.Lower | pacertracker/management/commands/loadcourts.py:103 | `str.lower()` on ASCII: same length, each character lowered |
| Text.IndexOf | pacertracker/management/commands/trackcases.py:397 | the index of the first occurrence of a character, or none exactly when the character is absent |
| Text.ContainsWitness | pacertracker/management/commands/trackcases.py:128 | a substring test that succeeds has an index where the literal occurs |
| Text.ContainsAt | pacertracker/management/commands/trackcases.py:128 | an occurrence at some index makes the substring test succeed |
| Text.LineEnd | pacertracker/management/commands/trackcases.py:134 | where a regex `.` run must stop: the first newline at or after the start, or the end of the string |
| Decimal.Show | pacertracker/management/commands/trackcases.py:396 | `str(n)`: a non-empty digit string, with no leading zero for n > 0 |
| Decimal.ParseShow | pacertracker/management/commands/trackcases.py:396 | `int(str(n)) == n` |
| Decimal.ShowParse | pacertracker/management/commands/trackcases.py:396 | `str(int(s)) == s` for a digit string without a leading zero |
| Decimal.ParseInjective | pacertracker/management/commands/trackcases.py:396 | distinct digit strings without leading zeros have distinct values |
| Decimal.ParsePositive | pacertracker/management/commands/trackcases.py:396 | a digit string with a non-zero first digit has a value of at least one |
| Patterns.Run | pacertracker/management/commands/trackcases.py:89 | the longest run of word or digit characters from a position: in the string, all in the class, and ended by the string's end or a character outside the class |
| Patterns.RunMatchIsRun | pacertracker/management/commands/trackcases.py:89 | a lookahead that starts outside the class pins the match length to the whole run |
| Patterns.RunHitIff | pacertracker/management/commands/trackcases.py:89 | the per-position test matches exactly when the pattern `(?<=L)C{lo,hi}(?=R)` matches there, with the run's length |
| Patterns.SearchRunFinds | pacertracker/management/commands/trackcases.py:89 | `re.search` for `(?<=L)C{lo,hi}(?=R)` returns the leftmost match with its only possible length, and nothing when no position matches |
| Patterns.LinkDigits | pacertracker/management/commands/trackcases.py:396 | `re.search('[0-9]+(?=(&\|$))', s)`: the leftmost match, which is a whole maximal run of digits followed by `&`, the end, or a final newline |
| Patterns.SearchDot | pacertracker/management/commands/trackcases.py:134 | a greedy `(?<=L).+(?=R)` search: the leftmost start, and the longest match from it within the line |
| Patterns.LastLiteral | pacertracker/management/commands/trackcases.py:134 | the last occurrence of the lookahead literal within a bound, or none when there is none |
| Patterns.DotMatchWithinLine | pacertracker/management/commands/trackcases.py:134 | a `.+` match never crosses a newline |
| Track.ClassifyCode | pacertracker/management/commands/trackcases.py:91-117 | a code in the civil table is civil; one not civil but criminal is criminal; then the vaccine codes and the congressional-record code in that order; none (the `AttributeError`) exactly for a code in no table |
| Track.DistrictCodeSpan | pacertracker/management/commands/trackcases.py:89 | `(?<=-)\w{1,4}(?=-)`: the leftmost run of 1 to 4 word characters between two hyphens |
| Track.DistrictCode | pacertracker/management/commands/trackcases.py:89 | `.group()` of the search: the text of the match `DistrictCodeSpan` finds, and none exactly when it finds none; 1 to 4 word characters |
| Track.DistrictCodeOfFirstMatch | pacertracker/management/commands/trackcases.py:89 | a match with no hyphen before it is the leftmost one, so the code found is its text |
| Track.DistrictCodeOfDocketNumber | pacertracker/management/commands/trackcases.py:89 | on a docket number `office-code-serial` whose office part has no hyphen, the code found is exactly `code` |
| Track.GetCaseType | pacertracker/management/commands/trackcases.py:78-118 | bankruptcy courts give bankruptcy cases, appeals and Supreme Court give appeals, multidistrict gives multidistrict; any other court gets exactly `ClassifyCode` of the code found, and none when no code is found or it is unlisted |
| Track.CaseTypeOfDocketNumber | pacertracker/management/commands/trackcases.py:78-118 | a district-style court classifies a docket number `office-code-serial` by `code` through the table |
| Track.TildeCodeUnreachable | pacertracker/management/commands/trackcases.py:109 | the table entry `~gr` can never be found, since `\w` does not match `~` |
| Track.CaseDigits | pacertracker/management/commands/trackcases.py:396 | the text of the leftmost `[0-9]+(?=(&\|$))` match in the link with its hyphens deleted, none exactly when that search finds nothing; a non-empty digit string |
| Track.CaseIdOf | pacertracker/management/commands/trackcases.py:396 | `int(str(court.id) + '0' + digits)`, defined without a contract; its decimal form, injectivity within a court and collisions across courts are the three lemmas below |
| Track.CaseIdDecimalForm | pacertracker/management/commands/trackcases.py:396 | the case id of a real court is the integer whose decimal form is `str(court.id) + '0' + digits` |
| Track.CaseIdInjectiveWithinCourt | pacertracker/management/commands/trackcases.py:396 | within one court, distinct digit strings give distinct case ids |
| Track.CaseIdCollidesAcrossCourts | pacertracker/management/commands/trackcases.py:396 | across courts case ids collide: court 1 with `05` and court 10 with `5` both give 1005 |
| Track.GetCaseIdentity | pacertracker/management/commands/trackcases.py:392-404 | fails exactly on a missing title or link, or a link without digits; otherwise the stripped title and link, the case id of the link's digits, and the partition of the title into number and stripped name |
| Track.SummaryText | pacertracker/management/commands/trackcases.py:126 | `entry_summary`: the unescaped summary with every `'` replaced by `"`, defined without a contract; `Text.ReplaceAbsent` gives a summary without `'` unchanged |
| Track.DescriptionSpan | pacertracker/management/commands/trackcases.py:128-131 | the description search after its opener (`Trustee: ` when the summary contains it, else `[`): the leftmost position after the opener from which `.+` reaches a `]` within the line, with the longest such stretch there; none exactly when no position matches |
| Track.Description | pacertracker/management/commands/trackcases.py:128-131 | none (the `AttributeError`) exactly when `DescriptionSpan` finds nothing; with `Trustee: ` in the summary, `Trustee: ` + the matched text + `]`; otherwise the matched text; never empty |
| Track.DocNumberSpan | pacertracker/management/commands/trackcases.py:133 | `(?<=">)\d+(?=</a>)`: the leftmost match, a digit run between the two literals; none means no position matches |
| Track.DocNumber | pacertracker/management/commands/trackcases.py:137 | `int(number.group())`: the value of the matched digits, none exactly when there is no match |
| Track.DocWebsiteSpan | pacertracker/management/commands/trackcases.py:134 | `(?<=a href=").+(?=">)`: the leftmost match between the literals, and from there the longest one within the line; none means no position matches |
| Track.GetEntryInfo | pacertracker/management/commands/trackcases.py:121-141 | on the summary text: fails, the caught `AttributeError`, exactly without a summary or a description. The description is `Description`'s; the number is `DocNumber`'s, kept only when a website is found; the website is the text of `DocWebsiteSpan`'s match, none when there is none |
| Track.IsDateFiled | pacertracker/management/commands/trackcases.py:430-433 | a predicate without a contract: `is_date_filed` holds exactly for document number 1 |
| Track.OptionalNumberText | pacertracker/management/commands/trackcases.py:436 | `str` of an optional number: `None`, or digits that parse back to the number |
| Track.EntryKey | pacertracker/management/commands/trackcases.py:436 | the hashed key is exactly case website + description + `str(doc_number)` + `str(doc_website)` + `str(time_filed)`, with no separator |
| Track.EntryKeyCollides | pacertracker/management/commands/trackcases.py:436 | the key has no separators, so two different entries can share an entry id |
| Track.ExtractItem | pacertracker/management/commands/trackcases.py:371-440 | one item: an unparseable date ends the run, a missing date is broken, a date at or before the watermark is old. Each later step (case identity, case type, entry fields) is broken exactly when it fails after the earlier ones succeeded, and the item is accepted exactly when all succeed. An accepted candidate is newer than the watermark and carries the case identity, the case type, the entry fields, `is_date_filed` exactly for document 1, and the hash of its key |
| Track.SameItemSameEntry | pacertracker/management/commands/trackcases.py:436-437 | equal items of one court are accepted with the same entry and case ids |
| Batch.FirstOf | pacertracker/management/commands/trackcases.py:150-153 | the candidates kept by the repeated-id filter are a sub-list with the same entry ids |
| Batch.FirstOfKeepsFirst | pacertracker/management/commands/trackcases.py:150-153 | the first candidate of each entry id is the one kept |
| Batch.FirstOfSnoc | pacertracker/management/commands/trackcases.py:151 | one more candidate is kept exactly when its entry id has not been seen |
| Batch.WithoutIds | pacertracker/management/commands/trackcases.py:158 | a candidate remains exactly when it was there and its entry id is not in the given set |
| Batch.WithoutIdsSnoc | pacertracker/management/commands/trackcases.py:158 | the filter keeps the batch order: one more candidate is appended at the end exactly when its entry id is not in the set |
| Batch.WithoutIdsDistinct | pacertracker/management/commands/trackcases.py:171-172 | filtering distinct entry ids keeps them distinct |
| Batch.LastPerCase | pacertracker/management/commands/trackcases.py:179-180 | one candidate per case id, with the same case ids as the batch |
| Batch.LastPerCaseKeepsLast | pacertracker/management/commands/trackcases.py:180 | the last candidate of each case is kept |
| Batch.LastPerCaseOnlyLast | pacertracker/management/commands/trackcases.py:180 | only last occurrences are kept |
| Batch.UpdateTitlesEffect | pacertracker/management/commands/trackcases.py:188-195 | every stored case of the batch ends with its candidate's title and keeps its name; it takes the candidate's number exactly when its title changed; other cases are untouched |
| Batch.NewCases | pacertracker/management/commands/trackcases.py:199-203 | the per-case candidates whose case is not stored |
| Batch.NewCasesDistinct | pacertracker/management/commands/trackcases.py:199-203 | the new cases have distinct ids |
| Batch.EntryRowsOf | pacertracker/management/commands/trackcases.py:220-223 | one entry row per candidate id, each naming a case of the batch |
| Batch.Survivors | pacertracker/management/commands/trackcases.py:150-173 | the written candidates are exactly the first of each id that is neither flushed before nor stored, with distinct ids |
| Batch.SurvivorsSnoc | pacertracker/management/commands/trackcases.py:150-173 | the survivors keep the batch order: one more candidate joins them at the end exactly when its entry id is new to the batch, to `last_entries_saved` and to the store |
| Batch.Flush | pacertracker/management/commands/trackcases.py:144-240 | duplicates plus created entries account for the whole batch |
| Batch.FlushWritesFresh | pacertracker/management/commands/trackcases.py:150-226 | a first occurrence that is neither flushed before nor stored is written with its fields |
| Batch.FlushKeepsStored | pacertracker/management/commands/trackcases.py:165-175 | no stored entry is written again; one new entry per survivor; `last_entries_saved` grows by exactly the survivors' ids |
| Batch.WrittenCasesKeys | pacertracker/management/commands/trackcases.py:199-206 | the case table grows by exactly the batch's new case ids, one created case each |
| Batch.WrittenCasesCreated | pacertracker/management/commands/trackcases.py:201-204 | a new case is created from the last candidate of that case |
| Batch.WrittenCasesUpdated | pacertracker/management/commands/trackcases.py:188-195 | a stored case takes the last candidate's title, and its number when the title changed; the name is not written |
| Batch.WrittenCasesUntouched | pacertracker/management/commands/trackcases.py:188-204 | cases the batch does not mention are unchanged |
| Batch.FlushIntegral | pacertracker/management/commands/trackcases.py:220-225 | every stored entry stays attached to a stored case |
| Batch.FlushRecordsStored | pacertracker/management/commands/trackcases.py:174-175 | `last_entries_saved` only names stored entries |
| Batch.FlushStoresAll | pacertracker/management/commands/trackcases.py:144-240 | after a flush every entry id of the batch is stored |
| Batch.FlushReplay | pacertracker/management/commands/trackcases.py:165-173 | flushing the same batch again writes nothing |
| Batch.FlushStoredBatch | pacertracker/management/commands/trackcases.py:165-173 | a batch whose entries are all stored writes nothing and counts every candidate as a duplicate |
| Batch.Store.StoredEntryIds | pacertracker/management/commands/trackcases.py:167-168 | the queried ids that are stored, and only those |
| Batch.Store.StoredCaseIds | pacertracker/management/commands/trackcases.py:184 | the queried case ids that are stored, and only those |
| Batch.Store.UpdateCase | pacertracker/management/commands/trackcases.py:192-195 | only the title and number of that case change |
| Batch.Store.BulkCreateCases | pacertracker/management/commands/trackcases.py:204 | the case table grows by exactly the given rows |
| Batch.Store.BulkCreateEntries | pacertracker/management/commands/trackcases.py:225 | the entry table grows by exactly the given rows |
| Batch.DropRepeatedIds | pacertracker/management/commands/trackcases.py:150-153 | the loop computes `FirstOf` |
| Batch.KeepIfNew | pacertracker/management/commands/trackcases.py:151-153 | one step of the repeated-id loop keeps the kept list and the seen ids in step with `FirstOf` |
| Batch.DropIds | pacertracker/management/commands/trackcases.py:158 | the loop computes `WithoutIds` |
| Batch.KeepLastPerCase | pacertracker/management/commands/trackcases.py:179-180 | the loop computes `LastPerCase` |
| Batch.DropStoredCases | pacertracker/management/commands/trackcases.py:201-203 | the loop computes `NewCases` |
| Batch.UpdateStoredTitles | pacertracker/management/commands/trackcases.py:188-195 | the case table becomes `UpdateTitles` of the old one; entries unchanged |
| Batch.WriteSurvivors | pacertracker/management/commands/trackcases.py:177-226 | the store ends with the written cases and the old entries plus the survivors' rows, still valid |
| Batch.DropStored | pacertracker/management/commands/trackcases.py:165-173 | keeps exactly the candidates whose entry id is not stored |
| Batch.RecordSaved | pacertracker/management/commands/trackcases.py:174-175 | `last_entries_saved` grows by the survivors' ids in order |
| Batch.SaveEverything | pacertracker/management/commands/trackcases.py:144-240 | the store, `last_entries_saved` and the counters end as `Flush` says |
| Ingest.StepOn | pacertracker/management/commands/trackcases.py:371-455 | the loop body once an item's outcome is known, defined without a contract: nothing after the run has ended; an unparseable date ends it; old and broken items are counted; an accepted candidate is appended, and the 500th is flushed with the 499 before it. `Ingest.ItemsAccounted` and `Ingest.ItemsAfterFatal` state what it does over a feed |
| Ingest.Items | pacertracker/management/commands/trackcases.py:371-455 | the item loop over a feed in feed order, defined without a contract; `Ingest.ItemsAccounted`, `Ingest.FeedBatches` and `Ingest.FatalFeedBatches` state its result |
| Ingest.Outcomes | pacertracker/management/commands/trackcases.py:371-455 | the outcomes the loop looks at: all of them, or those up to and including the first fatal one |
| Ingest.OutcomesPartition | pacertracker/management/commands/trackcases.py:371-427 | every outcome looked at is accepted, old, broken, or the one fatal outcome |
| Ingest.ItemsAfterFatal | pacertracker/management/commands/trackcases.py:376 | once the loop has stopped, later items change nothing |
| Ingest.ItemsAccounted | pacertracker/management/commands/trackcases.py:371-455 | every accepted candidate, in feed order and once, is flushed in a batch of exactly 500 or left pending (fewer than 500); old and broken items are counted once each |
| Ingest.FeedBatches | pacertracker/management/commands/trackcases.py:371-465 | a feed whose items are all looked at flushes all its candidates in order, in batches of at most 500 with all but the last of exactly 500 |
| Ingest.FatalFeedBatches | pacertracker/management/commands/trackcases.py:371-455 | a feed cut short by an unparseable date flushed only full batches, holding the earlier candidates in order except fewer than 500 |
| Ingest.SaveAll | pacertracker/management/commands/trackcases.py:448-465 | the successive `save_everything` calls of one court with their counters summed, defined without a contract; the four lemmas below state its properties |
| Ingest.SaveAllCountsFlush | pacertracker/management/commands/trackcases.py:448-465 | across a court's calls to `save_everything`, each flushed candidate is counted once, as a duplicate or as an entry created |
| Ingest.SaveAllSound | pacertracker/management/commands/trackcases.py:448-465 | the flushes keep the store sound and never drop a stored entry |
| Ingest.SaveAllStoresAll | pacertracker/management/commands/trackcases.py:448-465 | every flushed candidate is stored afterwards |
| Ingest.SaveAllStored | pacertracker/management/commands/trackcases.py:448-465 | batches whose entries are already stored change nothing |
| Ingest.Settle | pacertracker/management/commands/trackcases.py:448-471 | the flushes of a court taken in, the counters, and the watermark (kept after an uncaught error, else the build date), defined without a contract; `Ingest.SettleLast` and `Ingest.TakeCourt` state it |
| Ingest.IngestFeed | pacertracker/management/commands/trackcases.py:322-472 | the per-court logic, defined without a contract: skip an error feed, count a feed without a usable build date broken, skip a court without a watermark, count a feed no newer than the watermark old, else run the item loop and `Settle`. `Ingest.SkippedFeed`, `Ingest.WatermarkAdvances`, `Ingest.CourtSound` and `Ingest.ReingestWritesNothing` state its properties |
| Ingest.SettleLast | pacertracker/management/commands/trackcases.py:448-471 | the full flushes, then the remainder unless the run ended, then the watermark |
| Ingest.SkippedFeed | pacertracker/management/commands/trackcases.py:335-364 | a feed not taken in leaves the store and watermark alone. `courts_broken` rises exactly for a missing or bad build date, and `courts_old` exactly for a feed no newer than the watermark |
| Ingest.WatermarkAdvances | pacertracker/management/commands/trackcases.py:362-471 | the watermark only moves forward, to the build date, and exactly when the feed was taken in with no unparseable item date; the run ends exactly on such an item |
| Ingest.CourtSound | pacertracker/management/commands/trackcases.py:322-472 | every court keeps the store sound |
| Ingest.ReingestWritesNothing | pacertracker/management/commands/trackcases.py:156-175 | ingesting the same feed again from the same watermark writes no case and no entry |
| Ingest.Visit | pacertracker/management/commands/trackcases.py:322-472 | one court of the run, defined without a contract: a failed download leaves everything as it was, a downloaded one goes through `IngestFeed` |
| Ingest.Process | pacertracker/management/commands/trackcases.py:322-472 | one watermark per court |
| Ingest.ProcessAfterFatal | pacertracker/management/commands/trackcases.py:376 | after an uncaught error, later courts keep their watermarks and the store is left alone |
| Ingest.ProcessSound | pacertracker/management/commands/trackcases.py:322-472 | every court of the run keeps the store sound, and watermarks only move forward |
| Ingest.Run | pacertracker/management/commands/trackcases.py:247-472 | `Command.handle` as a function, defined without a contract: the failed downloads are counted broken, then the courts are processed in order; `Ingest.RunSound` and `Ingest.Handle` state it |
| Ingest.RunSound | pacertracker/management/commands/trackcases.py:247-472 | the whole run keeps the store sound and moves watermarks only forward |
| Ingest.CountFailed | pacertracker/management/commands/trackcases.py:287-300 | failed downloads are counted as broken courts |
| Ingest.TakeItems | pacertracker/management/commands/trackcases.py:371-455 | the loop leaves the store, pending list and counters that `Items` and `SaveAll` prescribe |
| Ingest.TakeCourt | pacertracker/management/commands/trackcases.py:371-472 | the item loop, the last flush and the new watermark, as `Settle` says |
| Ingest.IngestCourt | pacertracker/management/commands/trackcases.py:322-472 | one downloaded court ends as `IngestFeed` says, watermark included |
| Ingest.VisitCourt | pacertracker/management/commands/trackcases.py:322-472 | one court of the run, downloaded or not, ends as `Visit` says |
| Ingest.TakeCourts | pacertracker/management/commands/trackcases.py:322-472 | the court loop ends as `Process` says, watermarks included |
| Ingest.Handle | pacertracker/management/commands/trackcases.py:247-472 | `Command.handle` ends in the state `Run` prescribes: store, counters and every court's watermark |
| LegacyTrack.LegacyClassifyCode | pacertracker/management/commands/trackcases_old.py:56-75 | a code in the legacy civil table is civil; one not civil but criminal is criminal; then the vaccine and congressional-record codes in that order; none exactly for a code in no table |
| LegacyTrack.CivilCodesAgree | pacertracker/management/commands/trackcases.py:91-103 | every legacy civil code is civil in the current table too |
| LegacyTrack.LegacyCodeSpan | pacertracker/management/commands/trackcases_old.py:54 | `(?<=-)\w{2}(?=-)`: the leftmost two word characters between two hyphens |
| LegacyTrack.LegacyCode | pacertracker/management/commands/trackcases_old.py:54 | `.group()` of the search: the text of the match `LegacyCodeSpan` finds, and none exactly when it finds none; two word characters |
| LegacyTrack.LegacyCodeOfFirstMatch | pacertracker/management/commands/trackcases_old.py:54 | a match with no hyphen before it is the leftmost one, so the code found is its text |
| LegacyTrack.UnreachableLegacyCodes | pacertracker/management/commands/trackcases_old.py:56-67 | the table entries not two characters long can never be found |
| LegacyTrack.LegacyCodeAgrees | pacertracker/management/commands/trackcases_old.py:54 | where the current pattern finds a two-character code, the legacy pattern finds the same one |
| LegacyTrack.LegacyGetCaseType | pacertracker/management/commands/trackcases_old.py:40-76 | the pinned court types as in the current rule; any other court gets exactly `LegacyClassifyCode` of the two-character code found, and none when no code is found or it is unlisted |
| LegacyTrack.LegacyCaseTypeOfDocketNumber | pacertracker/management/commands/trackcases_old.py:40-76 | a district-style court classifies a docket number `office-code-serial` with a two-character code by that code through the legacy table |
| LegacyTrack.CaseTypesAgree | pacertracker/management/commands/trackcases_old.py:40-76 | a case the legacy rule pins or calls civil, with a two-character current code, gets the same type from both rules |
| LegacyTrack.CaseKeyOf | pacertracker/management/commands/trackcases_old.py:347 | `int(str(court.id) + digits)`, defined without a contract; the three lemmas below state how it relates to the current case id, where it collides, and that it is injective within a court |
| LegacyTrack.CaseIdIsKeyOfPadded | pacertracker/management/commands/trackcases_old.py:347 | the current case id is the legacy key of `'0' + digits` |
| LegacyTrack.CaseKeyCollides | pacertracker/management/commands/trackcases_old.py:347 | without the separator, court 1 with `23` and court 12 with `3` collide |
| LegacyTrack.CaseKeyInjectiveWithinCourt | pacertracker/management/commands/trackcases_old.py:347 | within one court the key separates digit strings |
| LegacyTrack.LegacyGetEntryInfo | pacertracker/management/commands/trackcases_old.py:79-99 | on the raw summary: fails exactly without a summary or a description. The description is `Description`'s; the number is `DocNumber`'s, kept only when a website is found; the website is the matched text, `''` when there is none |
| LegacyTrack.EntryInfoAgrees | pacertracker/management/commands/trackcases_old.py:79-99 | on a summary without `'`, both versions find the same fields; only the missing link differs (`''` against None) |
| LegacyTrack.LegacyExtractItem | pacertracker/management/commands/trackcases_old.py:322-389 | a missing or bad date, a missing title or link, or a bad case type or entry fields drop the item; an old date is stale; a link without key digits is fatal; a taken tuple carries the item's title, link, key, type and entry fields |
| LegacyBatch.FirstOccurrences | pacertracker/management/commands/trackcases_old.py:111 | one valid order of `list(set(...))`: the distinct tuples of the batch |
| LegacyBatch.ArrangementNoLonger | pacertracker/management/commands/trackcases_old.py:111 | the set never has more tuples than the batch |
| LegacyBatch.Unsaved | pacertracker/management/commands/trackcases_old.py:113 | the tuples not in `last_entries_saved` |
| LegacyBatch.Returned | pacertracker/management/commands/trackcases_old.py:118-129 | the stored entries equal to some tuple, as five-field rows |
| LegacyBatch.WithoutReturned | pacertracker/management/commands/trackcases_old.py:132-133 | a tuple remains exactly when it was there and its four-field slice is not among the returned rows |
| LegacyBatch.NothingReturned | pacertracker/management/commands/trackcases_old.py:132-133 | a four-field slice never equals a five-field row, so the stored-entry check removes nothing |
| LegacyBatch.LastPerWebsite | pacertracker/management/commands/trackcases_old.py:140-141 | a sub-list with the same websites, each once |
| LegacyBatch.LastPerWebsiteFinds | pacertracker/management/commands/trackcases_old.py:141 | the tuple kept for a website is the batch's last tuple with it |
| LegacyBatch.LastWithWebsite | pacertracker/management/commands/trackcases_old.py:144 | the dictionary keeps the last case with a website in table order, or none |
| LegacyBatch.FirstWithWebsite | pacertracker/management/commands/trackcases_old.py:176 | `websites.index` finds the first case with a website, or none |
| LegacyBatch.Retitle | pacertracker/management/commands/trackcases_old.py:146-152 | the title loop changes titles and numbers only |
| LegacyBatch.RetitleEffect | pacertracker/management/commands/trackcases_old.py:146-152 | each stored case with a tuple for its website and another title takes that tuple's title and number; the others keep theirs |
| LegacyBatch.NewSites | pacertracker/management/commands/trackcases_old.py:157-159 | the tuples whose website is not stored |
| LegacyBatch.Write | pacertracker/management/commands/trackcases_old.py:138-181 | the writes once the tuples to keep are known (retitle stored cases, create one case per new website, one entry per tuple), defined without a contract; `LegacyBatch.WriteRetitles`, `LegacyBatch.WriteCreates`, `LegacyBatch.WriteSites`, `LegacyBatch.WriteUnique` and `LegacyBatch.WriteEntries` state its properties |
| LegacyBatch.WriteRetitles | pacertracker/management/commands/trackcases_old.py:146-152 | stored cases are retitled from the last tuple of their website |
| LegacyBatch.WriteCreates | pacertracker/management/commands/trackcases_old.py:154-168 | one new case per unstored website, written from its last tuple |
| LegacyBatch.WriteSites | pacertracker/management/commands/trackcases_old.py:138-172 | the stored websites grow by exactly the batch's websites |
| LegacyBatch.WriteUnique | pacertracker/management/commands/trackcases_old.py:157-166 | each website stays stored once |
| LegacyBatch.WriteEntries | pacertracker/management/commands/trackcases_old.py:170-181 | one new entry per tuple, attached to a case with its website and carrying its fields |
| LegacyBatch.LegacyFlush | pacertracker/management/commands/trackcases_old.py:102-189 | one legacy `save_everything` for a given set order, defined without a contract; the lemmas below state its counts and writes |
| LegacyBatch.LegacyFlushCounts | pacertracker/management/commands/trackcases_old.py:102-189 | duplicates plus created entries account for the whole batch |
| LegacyBatch.LegacyFlushWritesUnsaved | pacertracker/management/commands/trackcases_old.py:108-136 | every distinct tuple not yet saved by the court is written and remembered, even when an equal entry is stored |
| LegacyBatch.LegacyFlushEntries | pacertracker/management/commands/trackcases_old.py:174-181 | the entry table grows by one row per written tuple |
| LegacyBatch.LegacyFlushCases | pacertracker/management/commands/trackcases_old.py:140-168 | stored cases keep their place and are retitled; one case is added per new website; websites stay unique |
| LegacyBatch.LegacyFlushNoNewCases | pacertracker/management/commands/trackcases_old.py:156-168 | a batch whose websites are all stored creates no case |
| LegacyBatch.ResavingDuplicates | pacertracker/management/commands/trackcases_old.py:280 | were the debugging block of trackcases_old.py:205-207 removed, a second flush of the same batch with an empty `last_entries_saved` writes every entry again, though no new case |
| LegacyBatch.LegacyStore.MatchingEntries | pacertracker/management/commands/trackcases_old.py:118-129 | the query returns `Returned` |
| LegacyBatch.LegacyStore.LastCaseWith | pacertracker/management/commands/trackcases_old.py:144 | the lookup returns `LastWithWebsite` |
| LegacyBatch.LegacyStore.StoredWebsites | pacertracker/management/commands/trackcases_old.py:157 | the stored cases' websites |
| LegacyBatch.LegacyStore.FirstCaseWith | pacertracker/management/commands/trackcases_old.py:176 | the index of the first case with a website |
| LegacyBatch.LegacyStore.SetTitle | pacertracker/management/commands/trackcases_old.py:149-152 | only that case's title and number change |
| LegacyBatch.LegacyStore.AddCases | pacertracker/management/commands/trackcases_old.py:160 | the case table grows by exactly the rows |
| LegacyBatch.LegacyStore.AddEntries | pacertracker/management/commands/trackcases_old.py:180 | the entry table grows by exactly the rows |
| LegacyBatch.DropSavedTuples | pacertracker/management/commands/trackcases_old.py:113 | the loop computes `Unsaved` |
| LegacyBatch.DropReturned | pacertracker/management/commands/trackcases_old.py:132-133 | the loop computes `WithoutReturned` |
| LegacyBatch.KeepLastPerWebsite | pacertracker/management/commands/trackcases_old.py:140-141 | the loop computes `LastPerWebsite` |
| LegacyBatch.UpdateTitles | pacertracker/management/commands/trackcases_old.py:144-152 | the case table becomes `Retitle` of the old one |
| LegacyBatch.DropStoredSites | pacertracker/management/commands/trackcases_old.py:157-159 | the tuples whose website is not stored |
| LegacyBatch.EntryRowsFor | pacertracker/management/commands/trackcases_old.py:174-178 | the entry rows, each attached through `websites.index` |
| LegacyBatch.WriteKept | pacertracker/management/commands/trackcases_old.py:138-181 | the tables and the case counter end as `Write` says |
| LegacyBatch.SaveEverything | pacertracker/management/commands/trackcases_old.py:102-189 | the store, `last_entries_saved` and counters end as `LegacyFlush` says for the given set order |
| LegacyIngest.LegacyStepOn | pacertracker/management/commands/trackcases_old.py:322-403 | the legacy loop body once an item's outcome is known, defined without a contract: as the current one, with batches of 150; `LegacyIngest.LegacyItemsAccounted` states what it does over a feed |
| LegacyIngest.LegacyItems | pacertracker/management/commands/trackcases_old.py:322-404 | the legacy item loop in feed order, defined without a contract; `LegacyIngest.LegacyItemsAccounted`, `LegacyIngest.LegacyFeedBatches` and `LegacyIngest.LegacyFatalFeedBatches` state its result |
| LegacyIngest.LegacyOutcomesPartition | pacertracker/management/commands/trackcases_old.py:322-389 | every outcome looked at is taken, stale, dropped, or the one fatal outcome |
| LegacyIngest.LegacyItemsAccounted | pacertracker/management/commands/trackcases_old.py:322-403 | every taken tuple, in order and once, is flushed in a batch of exactly 150 or left pending (fewer than 150); old and broken items are counted once each |
| LegacyIngest.LegacyFeedBatches | pacertracker/management/commands/trackcases_old.py:322-413 | a feed whose items are all looked at flushes all its tuples in order, in batches of at most 150 with all but the last of exactly 150 |
| LegacyIngest.LegacyFatalFeedBatches | pacertracker/management/commands/trackcases_old.py:347 | a feed cut short by a link without key digits flushed only full batches |
| LegacyIngest.SaveAllLegacyOnce | pacertracker/management/commands/trackcases_old.py:113-136 | within a court, `last_entries_saved` lists each flushed distinct tuple once, and one entry was created per tuple added to it |
| LegacyIngest.CourtWritesEachOnce | pacertracker/management/commands/trackcases_old.py:280-413 | a court's flushes create one entry per distinct tuple handed to them |
| LegacyIngest.SaveAllLegacySound | pacertracker/management/commands/trackcases_old.py:397-413 | flushes keep the store sound, keep stored entries and websites, and store a case for every flushed website |
| LegacyIngest.LegacySettleFatal | pacertracker/management/commands/trackcases_old.py:347 | after the run has ended, only the full flushes happened and the watermark stays |
| LegacyIngest.FeedTime | pacertracker/management/commands/trackcases_old.py:297-310 | the feed's time is its first entry's date, defined without a contract |
| LegacyIngest.LegacyIngestFeed | pacertracker/management/commands/trackcases_old.py:273-421 | the legacy per-court logic, defined without a contract: skip a feed without a channel or entries, count a feed whose first entry has no usable date broken, end the run on a court without a watermark, count a feed no newer than the watermark old, else run the item loop, flush and move the watermark. `LegacyIngest.LegacySkippedFeed`, `LegacyIngest.LegacyWatermarkAdvances`, `LegacyIngest.LegacyCourtSound` and `LegacyIngest.LegacyCourtAccounts` state its properties |
| LegacyIngest.LegacySkippedFeed | pacertracker/management/commands/trackcases_old.py:287-315 | a feed not taken in leaves the store alone and changes at most one court counter, or ends the run |
| LegacyIngest.LegacyWatermarkAdvances | pacertracker/management/commands/trackcases_old.py:313-420 | the watermark moves only forward, to the first item's time, and only for a feed taken in without an uncaught error |
| LegacyIngest.LegacyCourtSound | pacertracker/management/commands/trackcases_old.py:273-421 | every court keeps the store sound and the stored entries |
| LegacyIngest.LegacyCourtAccounts | pacertracker/management/commands/trackcases_old.py:322-415 | a court taken in creates one entry per distinct tuple, and counts every item once: created, duplicate, old or broken |
| LegacyIngest.LegacyProcessAfterFatal | pacertracker/management/commands/trackcases_old.py:347 | after an uncaught error, later courts keep their watermarks and the store is untouched |
| LegacyIngest.LegacyRun | pacertracker/management/commands/trackcases_old.py:196-421 | the legacy `Command.handle` as a function over the courts in order, defined without a contract; `LegacyIngest.LegacyRunSound` and `LegacyIngest.LegacyHandle` state it |
| LegacyIngest.LegacyRunSound | pacertracker/management/commands/trackcases_old.py:196-421 | the whole legacy run keeps the store sound and stored entries, and watermarks only move forward |
| LegacyIngest.TakeLegacyItems | pacertracker/management/commands/trackcases_old.py:322-404 | the loop leaves the store, pending list and counters that `LegacyItems` and `SaveAllLegacy` prescribe |
| LegacyIngest.TakeLegacyCourt | pacertracker/management/commands/trackcases_old.py:322-421 | the item loop, the last flush and the new watermark |
| LegacyIngest.IngestLegacyCourt | pacertracker/management/commands/trackcases_old.py:273-421 | one court ends as `LegacyIngestFeed` says |
| LegacyIngest.LegacyHandle | pacertracker/management/commands/trackcases_old.py:196-421 | `Command.handle` ends in the state `LegacyRun` prescribes |
| LoadCourts.GetType | pacertracker/management/commands/loadcourts.py:18-48 | Supreme exactly for a Supreme Court name; excluded names give none. Appeals, Multidistrict, FederalClaims and InternationalTrade follow their URL markers; District exactly for `d.usc` and Bankruptcy for `b.usc` without `d.usc`, each when no earlier test decides |
| LoadCourts.GetTypeNameFirst | pacertracker/management/commands/loadcourts.py:19-28 | a Supreme Court or excluded name decides whatever the URL |
| LoadCourts.DistrictBeatsBankruptcy | pacertracker/management/commands/loadcourts.py:29-44 | a URL with both `d.usc` and `b.usc` (and no earlier marker) gives a district court |
| LoadCourts.DeleteAll | pacertracker/management/commands/loadcourts.py:51-53 | deleting the literals one after the other never lengthens the name |
| LoadCourts.GetName | pacertracker/management/commands/loadcourts.py:50-55 | the display name is trimmed and no longer than the raw name |
| LoadCourts.GetNameUntouched | pacertracker/management/commands/loadcourts.py:50-55 | a name without any of the six literals is only trimmed |
| LoadCourts.GetNameAppeals | pacertracker/management/commands/loadcourts.py:51 | `U.S. Court of Appeals, <circuit>` is displayed as the stripped circuit |
| LoadCourts.WithSlash | pacertracker/management/commands/loadcourts.py:162-163 | the link with a trailing `/`, added only when missing |
| LoadCourts.WithSlashIdempotent | pacertracker/management/commands/loadcourts.py:162-163 | adding the slash twice changes nothing |
| LoadCourts.BaseEcfUrl | pacertracker/management/commands/loadcourts.py:156-163 | the placeholder for the Supreme Court, otherwise the link with a slash; fails exactly on an empty link of another court |
| LoadCourts.InfoUrl | pacertracker/management/commands/loadcourts.py:174-181 | appeals courts use their ECF site's TransportRoom page, other courts the PACER page of their row |
| LoadCourts.FeedUrl | pacertracker/management/commands/loadcourts.py:186-191 | empty exactly for the Supreme Court; otherwise on the base URL, with the appeals or the trial-court feed path |
| LoadCourts.Website | pacertracker/management/commands/loadcourts.py:195 | `base.replace('https://ecf', 'http://www')`, defined without a contract; the two lemmas below state its value |
| LoadCourts.WebsiteOfEcf | pacertracker/management/commands/loadcourts.py:195 | `https://ecf<rest>` becomes `http://www<rest>` |
| LoadCourts.WebsiteOfOther | pacertracker/management/commands/loadcourts.py:195 | a base without the literal is its own website |
| LoadCourts.FilingTypes | pacertracker/management/commands/loadcourts.py:99-115 | publishes everything exactly when the text after the 24-character preamble mentions `all` and the text mentions `entries of type`, then the types are `All filings`. Otherwise the types are the whole text without that phrase, the text after the preamble with it, and empty for a text of at most 24 characters |
| LoadCourts.FeedCheck | pacertracker/management/commands/loadcourts.py:78-123 | the feed passes exactly when it downloaded and has a channel, a title without `404` and a description that does not say `not configured`; then its filing types; otherwise nothing |
| LoadCourts.InfoCheck | pacertracker/management/commands/loadcourts.py:128-146 | the page passes only when it answered with a success status; then by `RSS Feed` in its text for TransportRoom pages, or by the RSS icon otherwise |
| LoadCourts.CheckFeed | pacertracker/management/commands/loadcourts.py:77-153 | a court has a feed when either check passes; a working feed's findings are kept; a court listed on its info page only gets neither flag nor types |
| LoadCourts.UpdateCourt | pacertracker/management/commands/loadcourts.py:155-195 | crashes exactly on an empty link; skipped exactly when the type is none; otherwise the record with name, type, feed flags, feed URL and website derived as above |
| LoadCourts.LoadedRecordShape | pacertracker/management/commands/loadcourts.py:155-195 | a saved court has a trimmed name, and one that publishes everything has a feed |
| LoadCourts.SupremeCourtRow | pacertracker/management/commands/loadcourts.py:157-195 | the Supreme Court row is saved with the placeholder's website and no feed URL; its feed flag rests on the PACER info page alone |
| LoadCourts.FeedOnOwnSite | pacertracker/management/commands/loadcourts.py:186-189 | a non-Supreme court's feed URL lies below its own link with the slash added |

## Left out

- Network downloads, thread pools and retry sessions (`download_feed`, `requests_retry_session`, the executor in `handle`) are not modelled. Each download is an input: a feed document or a failure for `trackcases`, and functions of the requested URL for `loadcourts`. The downloaded courts are processed in the order given, not in completion order.
- XML parsing (BeautifulSoup, feedparser) and date parsing (`dateutil.parser`, `mktime`) are not modelled. An item arrives as optional title, link and summary fields, and a date arrives as missing, unparseable or an integer instant. `html.unescape` is not modelled: the summary is given already unescaped.
- Time zones are not modelled: times are integers. The naive/aware comparison error is modelled only where the watermark is null.
- md5 and uuid are not modelled: the entry id is the parameter `hash` applied to the key string.
- Logging, timing, `print`, the Solr `update_index` call and the log lines of `stdout` are not modelled.
- The `updated_time` refresh of saved cases (trackcases.py:228-238, trackcases_old.py:182-186) and its `OperationalError` retry are not modelled: no model field holds it.
- The `IntegrityError` retry around the bulk case creation of `trackcases` is not modelled: there the model checks case ids, the primary key, before writing, so the path cannot occur.
- The legacy command is modelled against an assumed older schema: a case has an automatic id (in the model, its position in the case table) and a non-unique `case_key` column, so creating a case (trackcases_old.py:156-166) never fails and its `IntegrityError` retry is not modelled. The legacy command checks only websites before writing, and `LegacyTrack.CaseKeyCollides` shows that two cases can share a key. The schema in `pacertracker/models.py:62-85` differs: its `Case` has no `case_key` field and an `id` primary key without a default, so the legacy case creation would fail there.
- The debugging block of the legacy command that deletes cases and entries and resets every watermark (trackcases_old.py:205-207) is not modelled. It is a development leftover; the run is modelled from the state it leaves. As written, every run first deletes the cases and entries captured since 2011, so `LegacyBatch.ResavingDuplicates` describes the command with that block removed.
- The `has_feed` filter and the id order of the court query are not modelled. The courts are an input sequence, assumed already filtered and ordered.
- The database update or creation step of `update_court` is not modelled (loadcourts.py:197-222). This includes the special case that keeps the `nyed` feed URL and the watermark set 365 days back for new courts. The model stops at the record that would be written.
- `Command.handle` of `loadcourts` is not modelled: it pages through the court list with a thread pool.
- A court-list row without a name (`raw_name` of None) is not modelled.
- `LoadCourts.InfoCheck`: a response counts as truthy exactly when its status was a success. The page's HTML is reduced to a flag saying whether it shows the RSS icon.
- `LoadCourts.FeedCheck`: a feed element that is present counts as present even when its text is empty, as for a parsed tag; a download error other than a refused connection is not modelled.
- `Text.Lower`: lower-cases ASCII letters only; Python's `str.lower` on other Unicode letters is not modelled.
- `Text.Replace`: its contract gives only length bounds. Its behaviour is fixed by the lemmas `Text.ReplaceAbsent`, `Text.ReplaceAtFirst` and `Text.ReplaceLeading`.
- `\w` and `\d` are modelled as ASCII `[A-Za-z0-9_]` and `[0-9]`; Python's Unicode classes are wider.
- Uncaught exceptions other than those named are not modelled. Where the source lets an error escape, the model ends the run: an unparseable item date in `trackcases`, and a link without case-key digits or a null watermark in `trackcases_old`. Other crashes, such as a database error, are not modelled.
- `LegacyBatch.SaveEverything`: the order in which `list(set(...))` yields the tuples is a parameter. The contracts hold for every duplicate-free arrangement; no particular order is modelled.
- `Ingest.Handle` and `LegacyIngest.LegacyHandle`: only the counters and the store are modelled. The log line of totals is not.
