# Rental-price ETL: a Dafny model of the chunked aggregation and merge core

The program reads a large file of rental listings chunk by chunk. It
reduces each chunk to one aggregate per (posting day, ZIP code) holding
the summed price, latitude and longitude and the number of listings, and
writes the aggregates to a `rental_prices` table. A key ledger (`entries`)
is meant to remember which keys are already in the table. When a later
chunk brings a key again, the merge resolver adds the chunk's sums into
the stored row instead of inserting a second row.

The model follows the program's structure, one Dafny module per part:

- `Cleaning` (`cleaning.dfy`): the row cleaner. It drops rows with a
  missing price, zip or posted_at, splits a ZIP on its first hyphen and
  fans the row out into one row per part, and cuts posted_at to its day.
- `Aggregation` (`aggregation.dfy`): the per-chunk group-by (`_bin_time`)
  as insertion into a key-sorted list of groups, the exact-duplicate drop,
  and `process`. The group-by is proved against a reference definition:
  the sums over the listings with a given key.
- `Ledger` (`ledger.dfy`): `_add_entries`, which returns the repeated keys
  and the grown ledger.
- `Merge` (`merge.dfy`): the table as a class `Store` with `Select`,
  `Update` and `Append`, and the merge resolver `_update_intersections`
  as a loop over the store. `process_intersections` appears twice: once as
  written and once with the grown ledger handed back.
- `Etl` (`etl.dfy`): the `run_ETL` loop. It numbers each processed chunk
  from a running offset, resolves repeats, appends the rest and stops
  after `debug_chunk_index`. `RunETL` is the loop as written.
  `RunETLWithLedger` is the same loop with the ledger carried from chunk
  to chunk. For it the model proves one stored row per key, each row
  holding the sums over every listing with its key, and increasing ids.

Numbers are exact: price and count are unbounded integers, and latitude
and longitude are reals. The table is a sequence of rows in insertion
order. The database connection and the CSV reader are not modelled; the table is the `Store` object passed to the merge resolver.

Three behaviours of the code as written are worth knowing:

- The cleaner is not idempotent. It splits only on the first hyphen, so a
  ZIP such as `a-b-c` becomes `a` and `b-c`, and cleaning again splits
  `b-c` (`Cleaning.CleanZipNotIdempotent`).
- De-duplication runs after grouping, on the aggregates, not on the raw
  rows. Grouped keys are already distinct, so it removes nothing, and
  identical raw rows are each counted (`Aggregation.IdenticalRowsBothCount`).
- Repeated keys are stored twice. The ledger never grows, so a key met in
  two chunks gets a second row instead of being merged (see Findings).

## Model

| member | source | states |
|---|---|---|
| Cleaning.RemoveMissing | interview_0.py:31-34 | the filter never adds rows; what it keeps is given by RemoveMissingSingle and RemoveMissingAppend |
| Cleaning.RemoveMissingSingle | interview_0.py:31-34 | a row is kept, as its listing, exactly when price, zip and posted_at are all present |
| Cleaning.RemoveMissingAppend | interview_0.py:31-34 | the filter works row by row: filtering a concatenation is concatenating the filtered parts, in input order |
| Cleaning.RemoveMissingKeepsComplete | interview_0.py:31-34 | complete rows all survive, unchanged and in order |
| Cleaning.RemoveMissingIdempotent | interview_0.py:31-34 | filtering the filter's own output changes nothing |
| Cleaning.HyphenIndex | interview_0.py:49 | finds the first hyphen: it is at the returned index and not before it; None only when there is no hyphen |
| Cleaning.SplitZip | interview_0.py:49 | one or two parts; the first has no hyphen; two parts exactly when the ZIP has a hyphen, and then part, hyphen, part rebuild the ZIP |
| Cleaning.SplitZipAt | interview_0.py:49 | the split is at the first hyphen; later hyphens stay in the second part |
| Cleaning.SplitZipExamples | interview_0.py:49 | `10001` stays whole, `12345-6789` gives `12345` and `6789`, `a-b-c` gives `a` and `b-c` |
| Cleaning.Explode | interview_0.py:50 | one output row per ZIP part, equal to the input row except for the zip |
| Cleaning.CleanZip | interview_0.py:47-50 | at least as many rows as listings and at most twice as many |
| Cleaning.CleanZipAppend | interview_0.py:47-50 | the ZIP cleaner works row by row: it distributes over concatenation |
| Cleaning.CleanZipSingle | interview_0.py:47-50 | one listing becomes exactly its exploded rows |
| Cleaning.CleanZipSplitsOnce | interview_0.py:47-50 | a ZIP `a-b` with no hyphen in `a` becomes two rows with zips `a` and `b` and everything else unchanged |
| Cleaning.CleanZipPlain | interview_0.py:47-50 | a ZIP without a hyphen leaves the row as it is |
| Cleaning.CleanZipNotIdempotent | interview_0.py:47-50 | a ZIP with two hyphens gives two rows, and cleaning those gives three: the cleaner is not idempotent |
| Cleaning.Day | interview_0.py:41 | the day is the first ten characters of posted_at, or all of it when shorter |
| Cleaning.AsRaw | interview_0.py:31-34 | a listing written as a raw row is complete and reads back as the same listing |
| Aggregation.StrLessIrreflexive | interview_0.py:42 | the string order used for the group order is irreflexive |
| Aggregation.StrLessTransitive | interview_0.py:42 | the string order is transitive |
| Aggregation.StrLessTotal | interview_0.py:42 | any two distinct strings are ordered one way or the other |
| Aggregation.KeyLessTotal | interview_0.py:42 | the (date, zip) group order is total on distinct keys |
| Aggregation.SortedDistinct | interview_0.py:42 | groups in strictly increasing key order have pairwise distinct keys |
| Aggregation.Single | interview_0.py:41-44 | a new group has the listing's (day, zip) key |
| Aggregation.Insert | interview_0.py:42-44 | adding a listing opens at most one group |
| Aggregation.InsertKeys | interview_0.py:42-44 | adding a listing opens its key's group and no other |
| Aggregation.InsertSorted | interview_0.py:42 | adding a listing keeps the groups in strictly increasing key order |
| Aggregation.InsertSums | interview_0.py:42-44 | adding a listing adds its price, lat, long and a count of one to its key's group and changes no other key's sums |
| Aggregation.InsertTotal | interview_0.py:42-44 | adding a listing adds its contribution to the column totals |
| Aggregation.ListingTotalCount | interview_0.py:43-44 | the count column over all listings is the number of listings |
| Aggregation.GroupCountPositive | interview_0.py:43-44 | a group's count is non-negative, and at least one when a listing has its key |
| Aggregation.BinTime | interview_0.py:39-45 | there are never more groups than listings; their meaning is given by BinTimeIsGroupBy |
| Aggregation.GroupSumsAppend | interview_0.py:42-44 | aggregation is additive: the group of a concatenation for any key is the sum of the parts' groups |
| Aggregation.BinTimeSums | interview_0.py:39-45 | each key's group holds the sums over exactly the listings with that key |
| Aggregation.BinTimeShape | interview_0.py:39-45 | groups are sorted by key, their keys are exactly the listings' keys, and the totals are kept |
| Aggregation.BinTimeIsGroupBy | interview_0.py:39-45 | group-by: one group per distinct (day, zip), in increasing key order, each with its listings' sums and a positive count; the count column adds up to the number of listings |
| Aggregation.AggSumsAbsent | interview_0.py:42-44 | a key with no group has zero sums |
| Aggregation.AggSumsAt | interview_0.py:42-44 | with distinct keys, the sums for a group's key are that group's sums |
| Aggregation.DropDuplicates | interview_0.py:36-37 | the duplicate drop never adds rows |
| Aggregation.DropDuplicatesSpec | interview_0.py:36-37 | the duplicate drop keeps every distinct row, adds none, and leaves no two equal rows |
| Aggregation.DropDuplicatesNoop | interview_0.py:36-37 | when no two rows are equal, the duplicate drop changes nothing |
| Aggregation.Cleaned | interview_0.py:58-60 | cleaning yields at most two listings per raw row |
| Aggregation.Process | interview_0.py:57-66 | a processed chunk has at most two aggregates per raw row |
| Aggregation.CleanedAppend | interview_0.py:58-60 | cleaning works row by row: cleaning two chunks read as one gives the two cleaned chunks back to back |
| Aggregation.GroupSumsCleanedAppend | interview_0.py:57-61 | for raw rows, the group of two chunks read as one is the sum of each chunk's group |
| Aggregation.ProcessIsGroupBy | interview_0.py:57-66 | process is the group-by of the cleaned listings, sorted, one aggregate per key, each with its key's sums; the duplicate drop after it removes nothing |
| Aggregation.ProcessDistinct | interview_0.py:57-66 | a processed chunk has one aggregate per key |
| Aggregation.ProcessSums | interview_0.py:57-66 | for every key, the processed chunk holds the sums over the cleaned listings with that key, and zero when it has no aggregate for it |
| Aggregation.CleanedTwice | interview_0.py:57-63 | two identical complete rows with a plain ZIP clean to two identical listings |
| Aggregation.BinTimeTwice | interview_0.py:39-45 | two identical listings fall into one group with doubled sums and a count of two |
| Aggregation.IdenticalRowsBothCount | interview_0.py:57-66 | identical raw rows are both counted, because duplicates are dropped only after grouping |
| Aggregation.IncompleteRowIgnored | interview_0.py:57-66 | a row missing a required cell changes neither the cleaned listings nor the processed chunk |
| Aggregation.ProcessOne | interview_0.py:57-66 | a complete row with a plain ZIP forms a group of its own |
| Ledger.AddEntries | interview_0.py:70-74 | the repeats are exactly the chunk keys already in the ledger; the grown ledger is exactly the old ledger plus the chunk keys |
| Merge.Matching | interview_0.py:91-93 | a point query returns no more rows than the table holds |
| Merge.MatchingIsFilter | interview_0.py:91-93 | a point query for a key returns exactly the stored rows with that key |
| Merge.SameShapeKeys | interview_0.py:96 | updates that keep ids and keys keep the table's key set |
| Merge.UpdateWhere | interview_0.py:96 | the update rewrites the sums of every row with the key and leaves every other row, and every id and key, as they were |
| Merge.Store.constructor | interview_0.py:114-123 | the table starts empty |
| Merge.Store.Select | interview_0.py:91-93 | the query answers the rows matching the key, in table order |
| Merge.Store.Update | interview_0.py:96 | the table becomes the old table with the key's rows given the new sums |
| Merge.Store.Append | interview_0.py:138-142 | the chunk is added after the existing rows |
| Merge.Merged | interview_0.py:96 | merging keeps a row's id and key, and leaves rows whose key is not repeated unchanged |
| Merge.MergedIds | interview_0.py:88-97 | at most one collected id per chunk row; which ids is given by MergedIdsMember |
| Merge.DropIds | interview_0.py:98 | dropping ids never adds rows; which rows stay is given by DropIdsIsKeepNew and ResidualIsKeepNew |
| Merge.KeepNew | interview_0.py:98 | the residual chunk holds exactly the chunk rows whose key is not repeated |
| Merge.MergedIdsMember | interview_0.py:88-97 | an id is collected exactly when its chunk row's key is repeated |
| Merge.DropIdsIsKeepNew | interview_0.py:98 | dropping by id removes the repeated-key rows when ids are listed exactly for them |
| Merge.ResidualIsKeepNew | interview_0.py:88-98 | with unique ids, dropping the collected ids leaves exactly the rows whose key is not repeated, in order |
| Merge.MergedSnoc | interview_0.py:90-96 | merging one more chunk row changes only the stored row with its key, by adding its sums |
| Merge.MergeAddsChunkRow | interview_0.py:96 | a repeated key's stored row becomes stored plus chunk sums, keeping id and key |
| Merge.MergeOneRow | interview_0.py:90-96 | one read-modify-write merges one repeated chunk row into the table |
| Merge.MergeSkipsRow | interview_0.py:90 | a chunk row whose key is not repeated leaves the table as it is |
| Merge.MergedIdsTake | interview_0.py:90-97 | one more chunk row adds its id to the collected ids exactly when its key is repeated |
| Merge.MergeRow | interview_0.py:90-97 | one pass of the merge loop succeeds exactly when the row's key is not repeated or its lookup answers one stored row; on success the row is merged in, on failure the table is left as it was |
| Merge.UpdateIntersections | interview_0.py:76-98 | with no repeats the chunk comes back unchanged; it fails exactly when some repeated key does not answer with one stored row; on success every stored row with a repeated key holds stored plus chunk sums, all other rows are unchanged, ids and keys are kept, and the residual is the chunk without the merged ids |
| Merge.NothingRepeated | interview_0.py:77-78 | with no repeats no id is collected and the whole chunk is kept |
| Merge.ProcessIntersectionsWithLedger | interview_0.py:100-103 | the ledger grows by the chunk keys, the chunk keys already in the ledger are merged into the table, and the residual is the rest |
| Merge.ProcessIntersections | interview_0.py:100-103 | as written: it fails exactly when a key repeated against the caller's ledger does not answer with one stored row, and names that key; on success every stored row with a repeated key holds stored plus chunk sums and the residual is the chunk without the merged ids; rows with other keys stay as they were; the grown ledger is not handed back |
| Etl.WithIds | interview_0.py:133-136 | row i of the chunk gets id offset + i |
| Etl.WithIdsFacts | interview_0.py:133-136 | numbering keeps the aggregates and their keys and gives unique ids |
| Etl.ProcessAll | interview_0.py:131-132 | one processed chunk per raw chunk |
| Etl.ChunksRun | interview_0.py:131-144 | the loop stops after chunk debug_chunk_index, or runs every chunk when that index is never reached |
| Etl.Loaded | interview_0.py:133-142 | what the as-written run stores: row j has id j |
| Etl.LoadedKeepsEverything | interview_0.py:133-142 | with the ledger empty, the table holds every processed aggregate of every chunk, in order, and row j has id j |
| Etl.RunETL | interview_0.py:126-144 | as written: the table ends as every processed chunk appended in turn, numbered on from the rows before it, for the chunks up to debug_chunk_index |
| Etl.ListingSumsIsWholeInput | interview_0.py:126-144 | chunking does not change the totals: the per-chunk groups for a key add up to the group over the whole input read as one |
| Etl.TotalOverIsListingSums | interview_0.py:132 | adding up the processed chunks for a key gives the sums over every cleaned listing with that key |
| Etl.TotalOverUnseen | interview_0.py:132 | a key no processed chunk holds has zero totals |
| Etl.RepeatsAnswerOnce | interview_0.py:91-94 | when the table holds one row per ledger key, each repeated key's query answers exactly one row, so the assertion in the merge holds |
| Etl.LedgerStep | interview_0.py:131-142 | one chunk keeps the table and ledger consistent: one row per key, the ledger equal to the table's keys, each row's sums the totals over all chunks so far, ids increasing |
| Etl.LoadChunk | interview_0.py:132-142 | one pass of the loop body keeps the table, the ledger and the processed chunks consistent |
| Etl.RunETLWithLedger | interview_0.py:126-144 | with the ledger carried: at most one row per key, the table's keys are every key seen, each row holds the sums over every cleaned listing with its key in the chunks run, equal to the group-by of the whole input read as one, and ids are non-negative and increasing |
| Etl.ProcessAllTwice | interview_0.py:131-132 | one plain listing in each of two chunks processes to one single-listing aggregate per chunk |
| Etl.AsWrittenStoresRepeatTwice | interview_0.py:100-103 | as written, a key met in two chunks ends as two rows, ids 0 and 1, each with one chunk's sums, so the table has a duplicate key |
| Etl.LoadedTwice | interview_0.py:133-142 | one chunk of one aggregate loaded twice gives two rows with ids 0 and 1 |
| Etl.RepeatAsWritten | interview_0.py:126-144 | as written, running two chunks with the same listing stores two rows with the same aggregate |
| Etl.KeysSeenTwice | interview_0.py:131-132 | the two chunks bring one key |
| Etl.DistinctKeysCount | interview_0.py:126-144 | a table with distinct keys has as many keys as rows |
| Etl.OneKeyOneRow | interview_0.py:126-144 | a table with distinct keys that are all one key has exactly one row |
| Etl.ListingSumsTwice | interview_0.py:131-132 | over the two chunks the listing's key totals are its contribution twice |
| Etl.RepeatWithLedger | interview_0.py:126-144 | with the ledger carried, the same run stores one row for the key holding both listings' sums |

## Left out

- The database engine, SQL text, `CREATE TABLE`, and the timestamp conversion between the stored `TIMESTAMP` and the string key are left out. The table is the `Store` object, and dates stay ten-character strings. `_convert_timestamp` (interview_0.py:52-55) is not part of this model.
- The CSV reader, its chunk size and the progress bar are left out: the input is a sequence of chunks of raw rows.
- Floating point is left out. Latitude and longitude are exact reals, so rounding, NaN values skipped by the sums, and columns other than price missing from a row are not modelled.
- `astype(str)` on the zip column is left out: zips are already strings, so numeric ZIPs and their `.0` suffix are not modelled.
- Plotting, mapping, `postgresql_engine_constructer`, argument parsing and `main` are left out; they are not part of the aggregation core.
- Merge.UpdateIntersections: it visits the repeated chunk rows in chunk order, while the source visits them in the order of a set of keys. It requires the repeats to be chunk keys, which `_add_entries` guarantees; with a key missing from the chunk the source's left merge would produce a row of missing values. The global `engine` it uses is undefined in the source; the model passes the store in.
- Merge.UpdateIntersections: a failed point-query assertion is modelled as a `Failure` result naming the key, not an exception. Updates made before the failure stay in the table, as they would in the database.
- Etl.RunETL: the stored id is an unbounded integer and the `INT` column width is not modelled.

## Findings

| source | as written | input that shows it | evidently intended | confidence | as-written member | corrected member |
|---|---|---|---|---|---|---|
| interview_0.py:100-103 | `process_intersections` computes the grown ledger and drops it, so the run's `entries` stays empty; no key is ever seen as repeated and the merge never runs | one complete listing with a plain ZIP, in each of two chunks: the table ends with two rows for the same (day, zip) | return the grown ledger and carry it to the next chunk, so that each key is stored once with additive totals | high, not executed | Etl.AsWrittenStoresRepeatTwice | Etl.RepeatWithLedger |
