# NoeDB: fast paths against their simple meanings

This project models the parts of NoeDB where a fast form has to agree with a simple one, and proves
that it does, or exactly when it does. Storage is a sorted map from byte strings to records. Keys,
column names and cells are byte strings, so the reasoning about zero-byte separators, prefix ranges
and key order is done on the bytes themselves. Functions that depend on number formatting, text case
or character decoding are fields of a record (`Values.Env`), so every theorem holds for every choice of
them. Floating-point values are reals.

`dafny verify dfyconfig.toml` checks everything.

What is modelled, by module:

- `ByteStrings`, `Values`, `Store`, `KeySpace`, `RowPack`: byte order, prefix ranges, value encodings, the key
  space of tables and indexes, the packed row format.
- `RowStore`, `IndexState`, `SecondaryIndex`, `Dml`, `Engine`: the meaning of INSERT, UPDATE and DELETE on a
  table, the writes the engine makes for them, and the state machine of a whole run of statements.
- `Columns`, `Expressions`, `Like`, `AccessPaths`, `AccessRuns`, `PrunedLookup`: name resolution, three-valued expression evaluation,
  LIKE, the planner's choice between full scan, index scan and key lookup, lookups after whole runs, and lookups
  that load only some columns.
- `TableScan`, `Aggregation`, `StreamAgg`: row assembly (serial and parallel) and aggregation (materialised and
  streaming).
- `Sorting`, `SortOrder`, `Joins`, `SetOps`, `RecursiveCte`, `PartitionKeys`, `Windows`, `WindowSums`, `KeyLookup`,
  `KeyMembership`, `Subqueries`, `CorrelatedIn`, `Pruning`, `HiddenColumns`: the query operators.
- `Grammar`, `ParserPrints`, `ParserRoundTrip`, `ParserCursor`: the expression printer and parser.
- `RateLimit`, `MemoryBudget`: the token bucket and the compare-exchange memory budget.

General claims that are false of the code. Each has a lemma at an input that shows it, and a lemma that says when the
claim holds:

- Infix NOT before anything but IN or BETWEEN is consumed and lost: `a NOT LIKE b` parses as `a LIKE b`
  (`ParserRoundTrip.NotLikeLosesNot`). A parsed stream is the print of its tree if and only if it holds no such NOT
  (`ParserRoundTrip.ParsePrints`, `ParserRoundTrip.WholePrints`).
- The merge join drops matches of a left row whose key an earlier left row already had (`Joins.MergeDropsRow`). It
  returns the join if and only if no right key occurs twice on the left (`Joins.MergeIsNested`,
  `Joins.EquiMergeJoin`).
- `ORDER BY ... LIMIT 0` fused into a top-k sort returns every row (`SortOrder.LimitZeroReturnsAll`). The fusion is
  right if and only if the limit is positive or there are no rows (`SortOrder.TopKSound`).
- `column = NULL` through an index finds rows with an empty cell (`AccessRuns.NullFindsRow`). It agrees with the
  filtered scan if and only if there is none (`AccessPaths.AccessNull`).
- An insert over an existing row id, which only a key check on the first column refuses, can leave a stale index
  entry (`RowStore.StaleEntry`). A stored row leaves every index exact if and only if each indexed cell of the row it
  replaces is there again (`Dml.StoreRow`, `RowStore.OverwriteExact`).
- Two index entries of different row ids can share a key (`KeySpace.EntryKeyCollision`); they can if and only if one
  id ends in a zero byte followed by the other (`KeySpace.EntryKeyShared`).
- A lookup that loads only the collected columns compares them with their qualifiers: `SELECT t.b FROM t WHERE
  id = '1'` returns nothing (`PrunedLookup.QualifierLosesRow`, `PrunedLookup.LackingLosesError`). The lookup of one row
  is right if and only if the row holds a column asked for without a qualifier and none is hidden before the first it
  lacks (`PrunedLookup.LookupRowExact`); on rows that hold all columns, if and only if every column is also asked for
  without a qualifier (`PrunedLookup.SelectExact`).
- A column mentioned only inside IN or BETWEEN is pruned away, and the query fails (`HiddenColumns.InHidesColumns`).
  For a projection of a scan filtered by such a test pruning is invisible if and only if no column is collected, an
  item mentions the column, the table is empty, or the first row that the test does not reject lacks the column
  anyway (`HiddenColumns.HiddenExact`). For any plan it is enough that nothing is collected or that the collected
  columns cover the ones read (`Pruning.PruningCovered`).
- A window aggregate named like its argument column reads its own output on rows that hold the column only under a
  qualified name (`WindowSums.ShadowedSum`). The output is invisible to the argument if and only if every row has a
  field of exactly that name (`WindowSums.OutputShadows`).
- A rank named like a sort column that a row lacks moves the row (`Windows.RankMoves`). Ranks do not show in the order
  if and only if on every row each sort column is there or has another name (`Windows.PushInvisible`).
- Two rows with the same columns and different cells can share a fingerprint (`SetOps.RowKeyCollision`). For two
  columns another row shares it if and only if a cell imitates the boundary between them (`SetOps.RowKeyAmbiguous`).
- Different cells can share a partition key (`PartitionKeys.PartitionCollision`); they do if and only if there are two
  expressions or more and some cell holds a zero byte (`PartitionKeys.PartitionAmbiguous`).
- Set operations give the right side's values to the wrong columns when the left columns are not in name order
  (`SetOps.AlignmentSwaps`, `SetOps.AlignedByPosition`).
- `o.id IN (SELECT ...)` on a joined row is tested on the first column called `id` (`Subqueries.QualifierDropped`);
  the lookup reads the column that is meant if and only if that one comes first or is the only one
  (`KeyLookup.BareReadsExact`). A renamed column of the subquery is looked up under its old name
  (`Subqueries.AliasLosesKeys`, `KeyLookup.ItemFound`).
- The semi-join tests IN by key bytes, in which NULL is the empty string and a number is not the text that equals it.
  So rows are kept on which IN or NOT IN is unknown (`KeyMembership.NullsDisagree`), and rows are dropped on which IN
  is true (`Subqueries.NumberNotFound`). For all cells the key test is the standard's answer if and only if a
  condition on how the cells compare holds (`KeyMembership.InStandard`), which is written out for text, NULL and
  integers (`KeyMembership.TextAgreesExact`, `KeyMembership.NullAgreesExact`) and carried to whole WHERE clauses
  (`Subqueries.PeelExact`, `Subqueries.InWhereExact`).
- A correlation `i.k = o.m` is tested on the outer row and the subquery's column only, so `i.k` can read the outer row
  (`CorrelatedIn.CorrelationMisread`). It reads the inner row if and only if `k` is the subquery's column and the outer
  row has no column of that name (`CorrelatedIn.InnerReadsExact`).
- The token bucket pays for every forward move of the clock, so a clock that jumps back and forth earns more than the
  elapsed time (`RateLimit.ClockGoesBack`). What it pays for is the elapsed time if and only if the clock never goes
  back (`RateLimit.ForwardIsElapsed`).
- With the limit at the largest machine word the memory budget wraps (`MemoryBudget.LimitAtMaximum`). It is safe
  under every interleaving if and only if the limit is below it (`MemoryBudget.SafeIffBelowMaximum`).

Where comments and code differ, the code is followed: the parser's comment speaks of Pratt precedence, but the
operators of one level associate to the right, and the recursive CTE treats UNION ALL like UNION.

## Model

| member | source | states |
|---|---|---|
| ByteStrings.ComputePrefixEnd | crates/noedb-storage/src/engine.rs:66-77 | the loop that drops trailing 255s and increments computes the exclusive end of the prefix range |
| ByteStrings.PrefixRange | crates/noedb-storage/src/engine.rs:61-77 | for a prefix that is not all 255s, a key lies in `[prefix, end)` exactly when it starts with the prefix |
| Store.RangeIsPrefix | crates/noedb-storage/src/engine.rs:61-77 | a range scan from a prefix to its end yields exactly the keys under the prefix |
| KeySpace.ScanSuffixes | crates/noedb-planner/src/index.rs:157-168 | scanning a prefix range and stripping the prefix lists exactly the suffixes stored under it, in order |
| KeySpace.EntryKeyInjective | crates/noedb-planner/src/index.rs:218-224 | an entry key determines table, column, cell and row id, whatever bytes the cell holds |
| KeySpace.EntryKeyCollision | crates/noedb-planner/src/index.rs:218-224 | with a zero byte in a row id two (cell, row id) pairs share an entry key |
| KeySpace.EntryKeyShared | crates/noedb-planner/src/index.rs:218-224 | entries of two row ids can share a key if and only if the ids are equal or one ends in a zero byte followed by the other |
| KeySpace.OwnedApart | crates/noedb-planner/src/index.rs:195-224 | no key under one table's row, marker or entry prefixes belongs to another table |
| RowPack.Decode | crates/noedb-storage/src/rowpack.rs:49-82 | the offset loop decodes what the recursive reading of the format decodes, and rejects what it rejects |
| RowPack.RowRoundTrip | crates/noedb-storage/src/rowpack.rs:21-82 | decoding an encoded row gives the row with lengths and count clamped to their fields |
| RowPack.RowFaithful | crates/noedb-storage/src/rowpack.rs:21-82 | decoding gives the row back if and only if every length and the count fit their fields |
| RowPack.RowTruncated | crates/noedb-storage/src/rowpack.rs:49-82 | every proper prefix of an encoded row is rejected |
| RowPack.WalkAgrees | crates/noedb-storage/src/rowpack.rs:86-141 | the zero-copy walk yields the decoded columns, or stops short exactly when decoding fails |
| Values.SqlEqSymmetric | crates/noedb-planner/src/value.rs:56-77 | SQL equality is symmetric, including its unknown results |
| RowStore.MatchingExact | crates/noedb-engine/src/dml.rs:176-195 | the matched ids are exactly the scanned rows that pass WHERE, each once |
| RowStore.ApplySetsReads | crates/noedb-engine/src/dml.rs:221-231 | after SET an assigned column has its new cell and every other column its old one |
| RowStore.PrepareInsertFresh | crates/noedb-engine/src/dml.rs:102-136 | a row that passes the checks of a key that includes the first column has a new NUL-free id and distinct columns |
| RowStore.KeyedInsertSafe | crates/noedb-engine/src/dml.rs:396-441 | an INSERT whose first column is in the primary key is safe for the indexes in every state |
| RowStore.IndexReplace | crates/noedb-engine/src/dml.rs:235-250 | replacing a row changes the required index contents by exactly its old and its new entry |
| RowStore.OverwriteExact | crates/noedb-engine/src/dml.rs:138-150 | adding only the new entry keeps the index exact if and only if the old entry is contained in it |
| RowStore.StaleEntry | crates/noedb-engine/src/dml.rs:120-150 | without a primary key `c = y` stored over `c = x` under one id leaves the entry of x |
| SecondaryIndex.IndexedColumns | crates/noedb-planner/src/index.rs:157-168 | the marker scan lists exactly the indexed columns, in order |
| SecondaryIndex.CollectIndex | crates/noedb-planner/src/index.rs:68-94 | the scan gathers, cell by cell, the row ids that hold it |
| SecondaryIndex.PersistEntries | crates/noedb-planner/src/index.rs:178-192 | writing the gathered index adds exactly its pairs to the column's entries and changes nothing else |
| SecondaryIndex.BuildIndex | crates/noedb-planner/src/index.rs:68-99 | CREATE INDEX leaves the rows alone and the new index exact, and keeps every other index exact |
| Dml.ScanTable | crates/noedb-engine/src/dml.rs:489-533 | the grouping scan lists every row of the table, in row-id order, with its columns |
| Dml.TombstoneCells | crates/noedb-engine/src/dml.rs:347-375 | exactly the keys under the row's cell prefix are removed |
| Dml.EnforceKey | crates/noedb-engine/src/dml.rs:396-441 | the key check accepts or rejects exactly as its meaning on the table says, with the same error |
| Dml.HoldsDuplicate | crates/noedb-engine/src/dml.rs:474-484 | the scan of existing rows finds a duplicate if and only if some row holds an equal cell |
| Dml.EnforceUnique | crates/noedb-engine/src/dml.rs:443-487 | the UNIQUE check accepts or rejects exactly as its meaning on the table says |
| Dml.PrepareRow | crates/noedb-engine/src/dml.rs:102-136 | the pre-flight of one VALUES row has the outcome of its meaning on the table, without writing |
| Dml.StoreRow | crates/noedb-engine/src/dml.rs:138-153 | storing a row, new or over an old one, sets it in the table and leaves every index exact if and only if no entry of the old row goes stale |
| Dml.RewriteRow | crates/noedb-engine/src/dml.rs:218-250 | rewriting a row sets exactly the assigned columns and keeps every index exact |
| Dml.RemoveRow | crates/noedb-engine/src/dml.rs:293-306 | removing a row takes it out of the table and keeps every index exact |
| Dml.InsertRows | crates/noedb-engine/src/dml.rs:102-158 | rows are stored until the first rejected one, as the meaning of INSERT says, with every index exact |
| Dml.MatchRows | crates/noedb-engine/src/dml.rs:176-195 | the WHERE scan returns the matching ids in order or the first evaluation error |
| Dml.UpdateRows | crates/noedb-engine/src/dml.rs:196-256 | rows are rewritten until the first rejected one, as the meaning of UPDATE says, with every index exact |
| Dml.DeleteRows | crates/noedb-engine/src/dml.rs:292-318 | exactly the matched rows are removed, with every index exact |
| Engine.ExecuteInsert | crates/noedb-engine/src/dml.rs:82-163 | INSERT has its meaning on the table, keeps every index exact and touches no other table |
| Engine.ExecuteUpdate | crates/noedb-engine/src/dml.rs:166-259 | UPDATE has its meaning on the table, keeps every index exact and touches no other table |
| Engine.ExecuteDelete | crates/noedb-engine/src/dml.rs:262-323 | DELETE has its meaning on the table, keeps every index exact and touches no other table |
| Engine.LocalEngine.constructor | crates/noedb-engine/src/dml.rs:82-323 | an empty store has every index exact |
| Engine.LocalEngine.Apply | crates/noedb-engine/src/dml.rs:82-323 | each kind of statement, as one change of the store: table meaning, exact indexes, other tables untouched |
| Engine.LocalEngine.Execute | crates/noedb-engine/src/dml.rs:82-323 | a statement returns its meaning's result, changes each table as its meaning says and keeps every index of every table exact |
| Engine.LocalEngine.Run | crates/noedb-engine/src/dml.rs:82-323 | every run of CREATE INDEX, INSERT, UPDATE and DELETE, rejected rows included, leaves each table as the statements mean it, with the indexes created, and keeps every index exactly the (cell, row id) pairs of its table |
| Columns.NameMatchesBare | crates/noedb-planner/src/join.rs:114-133 | a stored and a wanted name match if and only if their bare names are equal |
| Expressions.EvalLocal | crates/noedb-planner/src/eval.rs:11-79 | evaluation, value or error, depends only on fields whose bare name the expression mentions |
| Like.PrefixMatchExact | crates/noedb-planner/src/eval.rs:354-376 | the recurrence accepts exactly the texts that can be split along the pattern (section 8.5 of SQL-92, without ESCAPE) |
| Like.SqlLike | crates/noedb-planner/src/eval.rs:354-376 | the two-dimensional table returns true if and only if the text can be split along the pattern |
| AccessPaths.LookupIds | crates/noedb-planner/src/index.rs:138-153 | the lookup returns exactly the suffixes stored under the cell's prefix |
| AccessPaths.LoadRow | crates/noedb-planner/src/executor.rs:854-903 | loading by row id returns the table's row, or nothing when it is absent or empty |
| AccessPaths.IndexScan | crates/noedb-planner/src/executor.rs:315-349 | the scan loads the looked-up rows in row-id order |
| AccessPaths.IndexScanExact | crates/noedb-planner/src/index.rs:138-153 | with an exact index those are exactly the rows that hold the cell |
| AccessPaths.AccessFindsCells | crates/noedb-planner/src/optimize.rs:308-330 | index scan and key lookup both return the rows that hold the literal's stored bytes |
| AccessPaths.AccessSound | crates/noedb-planner/src/optimize.rs:308-334 | for a string literal the chosen path returns the row sequence of the filtered full scan |
| AccessPaths.AccessNull | crates/noedb-planner/src/optimize.rs:759-770 | for NULL the index paths agree with the filtered scan if and only if no row holds an empty cell |
| AccessPaths.InsertKeepsKey | crates/noedb-engine/src/dml.rs:102-158 | INSERT keeps the key column equal to the row id for non-boolean keys |
| AccessPaths.UpdateKeepsKey | crates/noedb-engine/src/dml.rs:196-256 | UPDATE keeps it when the key is not assigned |
| AccessPaths.UpdateKeyExact | crates/noedb-engine/src/dml.rs:221-232 | assigning the key keeps it if and only if the row id is assigned again |
| AccessPaths.RunKeepsKey | crates/noedb-engine/src/dml.rs:82-323 | every run of such statements keeps key lookups sound |
| AccessRuns.RunPath | crates/noedb-planner/src/executor.rs:315-349 | executing an access path returns the rows that the path stands for |
| AccessRuns.AccessAfterRun | crates/noedb-planner/src/optimize.rs:308-334 | after every such run the chosen path returns the filtered rows of what the statements mean |
| AccessRuns.RunThenSelect | crates/noedb-planner/src/optimize.rs:308-334 | running the statements on the engine and then reading through the chosen path does so |
| AccessRuns.NullFindsRow | crates/noedb-planner/src/optimize.rs:759-770 | `c = NULL` on the indexed row with an empty `c` is true nowhere, and the index path returns the row |
| PrunedLookup.LoadPruned | crates/noedb-planner/src/executor.rs:854-884 | loading by row id with a column list returns the fields of those exact names, or nothing when there is none |
| PrunedLookup.PrunedIndexScan | crates/noedb-planner/src/executor.rs:328-349 | the index scan does so for each looked-up row id, in order |
| PrunedLookup.PrunedFinds | crates/noedb-planner/src/optimize.rs:605-619 | whichever lookup is chosen, it loads those fields of the rows that hold the literal's bytes |
| PrunedLookup.LookupRowExact | crates/noedb-planner/src/executor.rs:854-884 | a lookup of one row, projected, is the projection of the row if and only if the row holds a column asked for without a qualifier and none is hidden before the first it lacks |
| PrunedLookup.LookupUniform | crates/noedb-planner/src/executor.rs:854-884 | for any number of rows that hold all the columns, if and only if none is found, nothing is selected, or every column is also selected without a qualifier |
| PrunedLookup.SelectExact | crates/noedb-planner/src/optimize.rs:598-619 | so the pruned plan of `column = 'literal'` through an index or the key returns the projection of the filtered scan exactly then |
| PrunedLookup.QualifierLosesRow | crates/noedb-planner/src/executor.rs:868-871 | `SELECT t.b FROM t WHERE id = '1'` returns nothing |
| PrunedLookup.LackingLosesError | crates/noedb-planner/src/executor.rs:876-884 | `SELECT b` on a row without `b` returns nothing instead of an unknown column |
| TableScan.MergeIdentity | crates/noedb-planner/src/parallel.rs:151-160 | the empty grouping is neutral for the merge |
| TableScan.MergeAssociative | crates/noedb-planner/src/parallel.rs:151-160 | merging groupings is associative |
| TableScan.GroupHomomorphism | crates/noedb-planner/src/parallel.rs:117-160 | grouping a concatenation is merging the groupings of its parts |
| TableScan.MergeInto | crates/noedb-planner/src/parallel.rs:151-160 | the in-place merge loop computes the merge |
| TableScan.GroupSerial | crates/noedb-planner/src/parallel.rs:125-133 | folding entry by entry computes the grouping |
| TableScan.GroupParallel | crates/noedb-planner/src/parallel.rs:136-148 | every chunking and every reduction tree gives the serial grouping of all entries |
| TableScan.LoadParallel | crates/noedb-planner/src/parallel.rs:136-148 | so the loaded rows are the serially assembled ones, in row-id order |
| Aggregation.FoldStops | crates/noedb-planner/src/executor.rs:497-513 | an error part-way through the rows is the result of the whole fold |
| Aggregation.FoldAfterFilter | crates/noedb-planner/src/executor.rs:488-513 | a fold that tests its rows is the filter operator followed by a fold without a test, errors included |
| Aggregation.AggregateNamed | crates/noedb-planner/src/executor.rs:488-513 | the loop over rows and output names computes the fold by name, with one group for a global aggregate over no rows |
| Aggregation.NamedIsPositional | crates/noedb-planner/src/executor.rs:488-513 | with distinct output names, the maps keyed by name hold exactly the slots of the positional fold |
| Aggregation.FoldLocal | crates/noedb-planner/src/executor.rs:744-800 | dropping unread columns changes neither the groups nor the error |
| StreamAgg.RowIdsContiguous | crates/noedb-planner/src/stream_agg.rs:86-200 | in key order the entries of one row id are contiguous |
| StreamAgg.RowIdsAscend | crates/noedb-planner/src/stream_agg.rs:86-200 | and row-id order follows key order |
| StreamAgg.OnePassRows | crates/noedb-planner/src/stream_agg.rs:86-212 | the one-pass row buffer yields exactly the assembled rows, trimmed to the needed columns |
| StreamAgg.StreamFold | crates/noedb-planner/src/stream_agg.rs:126-196 | the streaming loop folds those rows, or stops with their first predicate error |
| StreamAgg.CountRows | crates/noedb-planner/src/stream_agg.rs:98-124 | the key-only count is the number of assembled rows |
| StreamAgg.CountPath | crates/noedb-planner/src/stream_agg.rs:98-124 | when nothing is read, the aggregate is that count in every slot |
| StreamAgg.StreamAggregate | crates/noedb-planner/src/stream_agg.rs:86-230 | streaming equals loading every row, filtering and aggregating by output name: the same slots for every group or the same error |
| Grammar.ParseAt | crates/noedb-parser/src/expr.rs:28-226 | the parser terminates, consumes at least one token, and at level Compare leaves no AND or OR bare at the top |
| ParserPrints.PrintsAt | crates/noedb-parser/src/expr.rs:28-407 | what is consumed is what the printer writes for the tree, up to counted lost NOTs |
| ParserRoundTrip.CutAt | crates/noedb-parser/src/expr.rs:28-407 | parsing does not depend on tokens after the ones it consumes |
| ParserRoundTrip.StrayAt | crates/noedb-parser/src/expr.rs:72-86 | the number of lost NOTs is the number of infix NOTs not before IN or BETWEEN among the consumed tokens |
| ParserRoundTrip.ParsePrints | crates/noedb-ast/src/display.rs:141-270 | the stream is the print of the tree and then the rest if and only if no stray NOT was passed |
| ParserRoundTrip.RoundTrip | crates/noedb-ast/src/display.rs:141-270 | printing a parsed tree and parsing it again returns the tree and consumes everything |
| ParserRoundTrip.WholePrints | crates/noedb-ast/src/display.rs:141-270 | a stream parsed to its end is the print of its tree if and only if it holds no stray NOT, and then parses from it again |
| ParserRoundTrip.NotLikeLosesNot | crates/noedb-parser/src/expr.rs:72-131 | `a NOT LIKE b` and `a LIKE b` parse to the same tree |
| ParserCursor.SqlParser.Bump | crates/noedb-parser/src/parser.rs:100-106 | the cursor moves one token, and never past the end |
| ParserCursor.SqlParser.MatchKeyword | crates/noedb-parser/src/parser.rs:127-134 | the keyword is consumed exactly when it is next |
| ParserCursor.SqlParser.ExpectKeyword | crates/noedb-parser/src/parser.rs:116-125 | the keyword is consumed, or its absence reported |
| ParserCursor.SqlParser.ExpectPunct | crates/noedb-parser/src/parser.rs:136-145 | the punctuation is consumed, or its absence reported |
| ParserCursor.SqlParser.ParseIdentifier | crates/noedb-parser/src/parser.rs:147-172 | names and keywords give identifiers, other tokens an error |
| ParserCursor.SqlParser.ParseExprPrec | crates/noedb-parser/src/expr.rs:28-226 | the cursor loop returns the tree, the position and the error of the grammar function |
| ParserCursor.SqlParser.ParseStep | crates/noedb-parser/src/expr.rs:31-222 | one turn of the loop is one unfolding of the grammar's loop |
| ParserCursor.SqlParser.ParsePrefixExpr | crates/noedb-parser/src/expr.rs:228-358 | prefixes, parentheses and atoms as the grammar function has them |
| ParserCursor.SqlParser.ParseIdentExpr | crates/noedb-parser/src/expr.rs:360-407 | calls, qualified names and stars as the grammar function has them |
| ParserCursor.SqlParser.ParseArgList | crates/noedb-parser/src/expr.rs:364-376 | the comma loop reads the argument list up to the closing parenthesis |
| ParserCursor.SqlParser.ParseInTail | crates/noedb-parser/src/expr.rs:536-556 | the list after IN becomes one node, or the grammar's error |
| ParserCursor.SqlParser.ParseBetweenTail | crates/noedb-parser/src/expr.rs:72-102 | both bounds are read at level Compare around AND, or the grammar's error |
| Sorting.SortPermutes | crates/noedb-planner/src/executor.rs:534-547 | sorting only permutes |
| Sorting.SortOrdered | crates/noedb-planner/src/executor.rs:534-547 | sorting by a total preorder orders the rows |
| Sorting.SortedAgree | crates/noedb-planner/src/executor.rs:534-547 | two sorted arrangements of the same rows have the same keys position by position |
| SortOrder.CompareRows | crates/noedb-planner/src/executor.rs:817-833 | the loop returns the verdict of the first key that tells the rows apart |
| SortOrder.RowOrderTotal | crates/noedb-planner/src/executor.rs:817-843 | comparing rows is a total preorder for every list of sort keys |
| SortOrder.SortRows | crates/noedb-planner/src/executor.rs:534-547 | the sort operator sorts all rows, or the quickselected ones when fused |
| SortOrder.LimitRows | crates/noedb-planner/src/executor.rs:235-246 | the limit operator returns the first rows |
| SortOrder.TopKExact | crates/noedb-planner/src/optimize.rs:45-62 | for k >= 1 the fused sort returns min(k, n) rows, sorted, with the keys of the first k of the full sort, and drops no smaller row |
| SortOrder.TopKSound | crates/noedb-planner/src/optimize.rs:45-62 | the fusion gives the keys of sort-then-limit if and only if the limit is positive or there are no rows |
| SortOrder.LimitZeroReturnsAll | crates/noedb-planner/src/executor.rs:534-547 | `ORDER BY id LIMIT 0` on two rows returns both |
| Joins.NestedLoop | crates/noedb-planner/src/executor.rs:174-194 | the two-cursor loop returns all pairs that satisfy ON, left row by left row, or the error of the first pair on which ON fails |
| Joins.NestedPermutation | crates/noedb-planner/src/executor.rs:174-194 | the bag of joined rows depends only on the bags of input rows |
| Joins.BucketHolds | crates/noedb-planner/src/executor.rs:400-405 | a bucket holds exactly the right rows with its key, in order |
| Joins.HashJoin | crates/noedb-planner/src/executor.rs:373-429 | build and probe return, for each left row in order, its merged matches, or the padded row when outer |
| Joins.HashIsNested | crates/noedb-planner/src/executor.rs:373-429 | the inner hash join is the nested loop, row for row, when ON is equality of present keys |
| Joins.EquiHashJoin | crates/noedb-planner/src/join.rs:20-141 | for `a.c = b.d` with uniquely resolving text columns that is so |
| Joins.OuterRow | crates/noedb-planner/src/executor.rs:406-427 | LEFT OUTER gives each left row max(1, matches) times: its matches, or one padded row |
| Joins.OuterNulls | crates/noedb-planner/src/executor.rs:415-422 | the padded row answers NULL for every right column it does not have itself and keeps its own |
| Joins.MergeSorted | crates/noedb-planner/src/executor.rs:452-469 | the two-cursor loop pairs exactly the first left row of each key with its matches |
| Joins.MergeJoin | crates/noedb-planner/src/executor.rs:441-473 | so does the join after sorting both sides |
| Joins.MergeIsNested | crates/noedb-planner/src/executor.rs:441-473 | that is the bag of the nested loop if and only if no right key occurs twice on the left |
| Joins.EquiMergeJoin | crates/noedb-planner/src/join.rs:20-141 | for `a.c = b.d` with uniquely resolving text columns that is so |
| Joins.MergeDropsRow | crates/noedb-planner/src/executor.rs:452-469 | on two left rows and one right row of one key the join has two rows and the merge join returns one |
| Joins.KeyLeqTotal | crates/noedb-planner/src/executor.rs:450-451 | join keys, missing ones first, are totally ordered |
| SetOps.ComputeRowKey | crates/noedb-planner/src/setops.rs:11-22 | the loop builds the fingerprint of the name-sorted cells |
| SetOps.RowKeyFaithful | crates/noedb-planner/src/setops.rs:11-22 | rows with NUL-free, distinct columns share a fingerprint if and only if they hold the same cells, in any column order |
| SetOps.RowKeyCollision | crates/noedb-planner/src/setops.rs:11-22 | zero bytes in cells make two different rows with the same two columns share one |
| SetOps.RowKeyAmbiguous | crates/noedb-planner/src/setops.rs:11-22 | another row with the same two columns shares the fingerprint if and only if a cell imitates the boundary between them |
| SetOps.CombinedCopies | crates/noedb-planner/src/setops.rs:65-135 | every fingerprint comes out as often as section 7.10 of SQL-92 says |
| SetOps.SelectedInOrder | crates/noedb-planner/src/setops.rs:80-135 | INTERSECT and EXCEPT return a subsequence of the left rows |
| SetOps.UnionRows | crates/noedb-planner/src/setops.rs:65-78 | UNION ALL concatenates, UNION keeps the first row of each fingerprint |
| SetOps.SpendCounts | crates/noedb-planner/src/setops.rs:80-98 | using up right counts keeps, or drops, as many equal left rows as there are on the right |
| SetOps.FirstOnly | crates/noedb-planner/src/setops.rs:99-135 | the distinct forms keep the first left row of each fingerprint that is, or is not, on the right |
| SetOps.CombineSetOp | crates/noedb-planner/src/setops.rs:26-39 | each operation on the aligned rows has the standard's number of copies of every fingerprint |
| SetOps.AlignedByPosition | crates/noedb-planner/src/setops.rs:41-63 | right values get the left names by position if and only if the left names are sorted |
| SetOps.AlignmentSwaps | crates/noedb-planner/src/setops.rs:41-63 | `SELECT b, a` on both sides: the right row `b = 1, a = 2` becomes `a = 1, b = 2` |
| RecursiveCte.AddRows | crates/noedb-planner/src/cte.rs:82-90 | one round appends each row with a new fingerprint, once |
| RecursiveCte.Materialize | crates/noedb-planner/src/cte.rs:56-97 | over a finite set of derivable fingerprints the loop terminates with the anchor as prefix, no fingerprint added twice and nothing left to derive, or with the member's error |
| RecursiveCte.LeastFixpoint | crates/noedb-planner/src/cte.rs:56-97 | for a monotone member the result's fingerprints are the least set that holds the anchor's and is closed under the member |
| Windows.AssignRanks | crates/noedb-planner/src/window_exec.rs:186-211 | the in-place loop ranks rows against rows that already carry their rank |
| Windows.InPlaceIsRanked | crates/noedb-planner/src/window_exec.rs:186-211 | when no rank moves a row, each row gets its rank among the rows as they were |
| Windows.PartitionRows | crates/noedb-planner/src/window_exec.rs:164-174 | rows are grouped by key in input order, or the first key error is returned |
| Windows.PartsPermute | crates/noedb-planner/src/window_exec.rs:164-174 | partitioning loses and repeats no row |
| Windows.RankWindow | crates/noedb-planner/src/window_exec.rs:30-52 | each partition is sorted and ranked in place, partition after partition, or the first partition key error is returned |
| Windows.RanksAreStandard | crates/noedb-planner/src/window_exec.rs:30-52 | when ranks do not show in the order, every row gets its rank in its sorted partition |
| Windows.WindowKeepsRows | crates/noedb-planner/src/window_exec.rs:30-52 | without the new column the result is the bag of input rows |
| Windows.WindowRanks | crates/noedb-planner/src/window_exec.rs:186-211 | ROW_NUMBER counts 1..n, RANK is one plus the partition's rows strictly before, DENSE_RANK the order classes up to the row |
| Windows.PushInvisible | crates/noedb-planner/src/window_exec.rs:186-211 | ranks never show in the order of the rows if and only if on every row each sort column is there or named otherwise |
| Windows.RankMoves | crates/noedb-planner/src/window_exec.rs:186-211 | `RANK() OVER (ORDER BY c) AS c` on two rows without `c`, which tie for rank 1, gives the second rank 2 |
| PartitionKeys.ComputePartitionKey | crates/noedb-planner/src/window_exec.rs:176-184 | the loop builds the joined key of the partition expressions, or returns the first error |
| PartitionKeys.PartitionFaithful | crates/noedb-planner/src/window_exec.rs:176-184 | on NULL and text without zero bytes two rows share a partition if and only if their cells agree, NULL counting as the empty string |
| PartitionKeys.PartitionCollision | crates/noedb-planner/src/window_exec.rs:176-184 | a zero byte at the seam of two cells puts different rows into one partition |
| PartitionKeys.PartitionAmbiguous | crates/noedb-planner/src/window_exec.rs:176-184 | other cells share the partition if and only if there are two expressions or more and some cell holds a zero byte |
| WindowSums.AssignSums | crates/noedb-planner/src/window_exec.rs:89-136 | the in-place loop sums rows of which the earlier ones already carry their value, and returns the first error |
| WindowSums.InPlaceIsFramed | crates/noedb-planner/src/window_exec.rs:89-136 | when the values do not show in the argument, every row gets the framed sum or average of the rows as they were, or the first error is returned |
| WindowSums.ApplySums | crates/noedb-planner/src/window_exec.rs:30-52 | each partition is sorted and summed, partition after partition, up to the first error |
| WindowSums.SumsAreFramed | crates/noedb-planner/src/window_exec.rs:30-136 | so the window attaches to every row the framed value of its sorted partition |
| WindowSums.SumsKeepRows | crates/noedb-planner/src/window_exec.rs:30-52 | whatever the sums are, without the new column the result is the bag of input rows |
| WindowSums.DefaultFrame | crates/noedb-planner/src/window_exec.rs:54-87 | ordered and without a frame the sum is the running total, unordered the partition's total |
| WindowSums.ArgumentInvisible | crates/noedb-planner/src/window_exec.rs:101-108 | an output name that the argument does not mention never shows in the argument |
| WindowSums.RowSumsFramed | crates/noedb-planner/src/window_exec.rs:30-136 | so such a window attaches framed values, for all rows, partition expressions, sort keys and frames |
| WindowSums.OutputShadows | crates/noedb-planner/src/window_exec.rs:101-133 | an output named like the argument column never shows in it, whatever the values, if and only if every row has a field of exactly that name |
| WindowSums.ShadowedSum | crates/noedb-planner/src/window_exec.rs:89-133 | `SUM(c) OVER () AS c` on two rows that hold only `t.c`, with x and y, gives the second x + 2y, which is the sum if and only if y is zero |
| Subqueries.PeelExpr | crates/noedb-planner/src/subquery.rs:278-315 | the recursion returns what stays and appends what is peeled, left to right |
| KeyLookup.BareReadsExact | crates/noedb-planner/src/subquery.rs:386-391 | the lookup that drops the qualifier reads the field the reference means, whatever the cells, if and only if that field is the first match or the only one |
| KeyLookup.FirstCellRead | crates/noedb-planner/src/join.rs:137-141 | the key lookup in a subquery's row finds its first cell, whatever the cells, if and only if the first name matches |
| KeyLookup.ItemFound | crates/noedb-planner/src/subquery.rs:393-402 | the first item of a subquery is found under the name looked up if and only if it is not a column renamed to another bare name |
| KeyMembership.TieExact | crates/noedb-planner/src/value.rs:34-77 | for every two cells, how they compare in the standard and whether they share key bytes, case by case |
| KeyMembership.InStandard | crates/noedb-planner/src/executor.rs:630-661 | for all cells the key test, the standard's answer, and that they are the same if and only if the comparisons of the cells say so |
| KeyMembership.TextAgreesExact | crates/noedb-planner/src/executor.rs:630-661 | the condition for a text against text, NULL and integers, in terms of the cells, for IN and NOT IN |
| KeyMembership.NullAgreesExact | crates/noedb-planner/src/executor.rs:630-661 | the condition for a NULL |
| KeyMembership.NullsDisagree | crates/noedb-planner/src/executor.rs:648-659 | `'a' NOT IN (NULL)` and `'' IN (NULL)` are unknown, and the key test passes both |
| Subqueries.NumberNotFound | crates/noedb-planner/src/subquery.rs:393-402 | `c IN (SELECT COUNT(*) AS n ...)` is true for `c = '1'`, `n = 1`, and the semi-join drops the row |
| Subqueries.SubExact | crates/noedb-planner/src/subquery.rs:332-359 | a row passes the semi-join when the predicate, read from its expression and the subquery's rows, is true on it, exactly when the cells agree |
| Subqueries.PeelTruth | crates/noedb-planner/src/subquery.rs:278-315 | the AND tree is true if and only if what stays is true and every peeled predicate is |
| Subqueries.SemiJoin | crates/noedb-planner/src/executor.rs:630-661 | the hash semi-join keeps the left rows whose key is, or is not, among the right keys |
| Subqueries.PeelExact | crates/noedb-planner/src/subquery.rs:269-330 | filtering by the rest and then semi-joining fails on no row and keeps exactly the rows on which the whole WHERE is true, in order, if and only if on each row what stays is not true, all cells agree, or one predicate misses by key and one is untrue |
| Subqueries.PeelSound | crates/noedb-planner/src/subquery.rs:269-330 | so it does whenever the cells of every predicate agree on every row |
| Subqueries.InWhereExact | crates/noedb-planner/src/executor.rs:630-661 | for a WHERE that is one [NOT] IN, if and only if the cells agree on every row |
| Subqueries.QualifierDropped | crates/noedb-planner/src/subquery.rs:386-391 | `o.id IN (2)` is true on a row `u.id = 1, o.id = 2`, and the semi-join drops it |
| Subqueries.AliasLosesKeys | crates/noedb-planner/src/subquery.rs:393-402 | `IN (SELECT c AS d ...)` finds no key at all |
| Subqueries.SplitWhere | crates/noedb-planner/src/subquery.rs:404-422 | the conjuncts are divided and the inner ones conjoined again |
| Subqueries.SplitSound | crates/noedb-planner/src/subquery.rs:404-486 | both halves together are true exactly when the WHERE is |
| CorrelatedIn.SemiJoinCorrelated | crates/noedb-planner/src/executor.rs:663-704 | the bucket join tests the correlation on the candidates of the key, in order, up to the first that holds or fails |
| CorrelatedIn.LinkedTestExact | crates/noedb-planner/src/executor.rs:663-704 | where the correlation is defined, it tests the key against the keys of the rows on which the correlation is true |
| CorrelatedIn.InnerReadsExact | crates/noedb-planner/src/executor.rs:687-689 | the inner side of `i.k = o.m` reads the inner row, whatever the cells, if and only if `k` is the subquery's column and the outer row has none of that name |
| CorrelatedIn.CorrelatedExact | crates/noedb-planner/src/executor.rs:663-704 | with the columns read as meant the join fails on no row and returns exactly the rows on which the correlated [NOT] IN is true if and only if the cells agree on each |
| CorrelatedIn.CorrelationMisread | crates/noedb-planner/src/subquery.rs:341-358 | `x IN (SELECT c FROM i WHERE i.k = o.k)` keeps a row whose inner row has another `k` |
| Pruning.PruneWith | crates/noedb-planner/src/optimize.rs:598-729 | with covering columns a pruned plan gives the same stream above a projection and trimmed rows below it |
| Pruning.CollectCovers | crates/noedb-planner/src/optimize.rs:467-596 | without IN, BETWEEN and subqueries the collected columns cover every column the plan reads |
| Pruning.PruningCovered | crates/noedb-planner/src/optimize.rs:462-465 | pruning is invisible whenever nothing is collected or the collected columns cover the columns read |
| Pruning.PruningInvisible | crates/noedb-planner/src/optimize.rs:462-465 | simple plans give the same rows or the same error, at build time or mid-stream |
| HiddenColumns.EvalNames | crates/noedb-planner/src/eval.rs:11-79 | an unknown column that evaluation reports is one the expression mentions |
| HiddenColumns.HiddenExact | crates/noedb-planner/src/optimize.rs:772-791 | under a test of one column by IN or BETWEEN pruning is invisible if and only if nothing is collected, an item mentions the column, there are no rows, or the first row not rejected lacks it |
| HiddenColumns.HiddenUniform | crates/noedb-planner/src/optimize.rs:772-791 | when every row holds the column, if and only if one of the first three is so |
| HiddenColumns.InHidesColumns | crates/noedb-planner/src/optimize.rs:772-791 | `SELECT b FROM t WHERE a IN (x)` succeeds unpruned and fails pruned |
| RateLimit.RateLimiter.constructor | crates/noedb-engine/src/ratelimit.rs:43-49 | rates and bursts below one are raised to one |
| RateLimit.RateLimiter.Acquire | crates/noedb-engine/src/ratelimit.rs:70-84 | one call refills, caps, grants or refuses, and changes only its session's bucket |
| RateLimit.RateLimiter.Drop | crates/noedb-engine/src/ratelimit.rs:87-89 | forgetting removes the session's bucket only |
| RateLimit.TokensKept | crates/noedb-engine/src/ratelimit.rs:70-89 | tokens stay between nothing and the burst in every run |
| RateLimit.OthersIgnored | crates/noedb-engine/src/ratelimit.rs:70-89 | other sessions never change a bucket |
| RateLimit.GrantsBounded | crates/noedb-engine/src/ratelimit.rs:70-89 | in every window of every run grants are at most a burst, plus a burst per forget, plus the rate times the forward clock time |
| RateLimit.ForwardIsElapsed | crates/noedb-engine/src/ratelimit.rs:71-78 | the forward time is never less than the time from first to last call, and equal to it if and only if the clock never goes back |
| RateLimit.MonotoneBound | crates/noedb-engine/src/ratelimit.rs:70-89 | with such a clock and no forget, grants are at most a burst plus the rate times the elapsed time |
| RateLimit.SpacedCallGranted | crates/noedb-engine/src/ratelimit.rs:76-83 | a call at least 1/qps after the previous one is granted |
| RateLimit.ClockGoesBack | crates/noedb-engine/src/ratelimit.rs:71-78 | four calls on a clock that goes back, as calls that read it before locking the bucket can see it, earn more than the elapsed time |
| MemoryBudget.RunSafe | crates/noedb-engine/src/memory.rs:64-99 | below the largest word every interleaving keeps the counter equal to the live guards, within the limit and inside the word |
| MemoryBudget.SafeIffBelowMaximum | crates/noedb-engine/src/memory.rs:64-89 | and does so for every interleaving only then |
| MemoryBudget.LimitAtMaximum | crates/noedb-engine/src/memory.rs:67-77 | with the limit at the largest word some interleaving wraps the counter |
| MemoryBudget.FailedExchange | crates/noedb-engine/src/memory.rs:65-85 | a failed exchange means another reservation or release went through since the load |

## Left out

- SecondaryIndex.BuildIndex: assumes packed rows; legacy cells that override a packed column are not indexed the way scans read them.
- Engine.ExecuteInsert: asks that the column list has no repetition, and that accepted rows have ids without zero bytes and leave no stale entry; `Dml.StoreRow` says exactly when one does.
- RowPack.Decode: column names are bytes, without the lossy UTF-8 conversion.
- RowPack.WalkAgrees: names are bytes, so the walk's stop at a name that is not UTF-8 is not modelled.
- Dml.PrepareRow: encoding by column type beyond NOT NULL is not modelled.
- Dml.DeleteRows: row counts kept for planner statistics are not modelled.
- Dml.InsertRows: row counts kept for planner statistics, vector columns and their catalog are not modelled, nor encoding by column type beyond NOT NULL.
- Engine.LocalEngine.Run: statements run outside transactions; MVCC timestamps, the write-ahead log and the LSM tree are an abstract map.
- Dml.ScanTable: row ids and column names are bytes, without the lossy UTF-8 conversion.
- Store.RangeIsPrefix: a packed record is stored as its columns; that the bytes decode to them is `RowPack.RowFaithful`.
- Expressions.EvalLocal: dates, timestamps and vectors are not values; 64-bit overflow and floating-point rounding are not modelled.
- AccessPaths.LoadRow: packed rows, all columns; with a column list it is `PrunedLookup.LoadPruned`.
- AccessPaths.IndexScan: all columns; with a column list it is `PrunedLookup.PrunedIndexScan`.
- AccessRuns.RunPath: the paths before columns are pushed into them.
- PrunedLookup.SelectExact: plain columns and string literals.
- AccessPaths.AccessSound: integer literals, whose comparison goes through floating point, are not covered.
- Grammar.ParseAt: CAST, EXISTS, subqueries and OVER end in an error that says they are outside the model; spans are not kept.
- ParserCursor.SqlParser.ParsePrefixExpr: CAST, EXISTS and subqueries end in an error that says they are outside the model.
- ParserCursor.SqlParser.ParseInTail: `IN (SELECT ...)` ends in such an error.
- ParserPrints.PrintsAt: the printer writes tokens, so `--`, quoting and escapes inside tokens are not covered.
- SortOrder.SortRows: the quickselect is a parameter with its documented promise.
- Aggregation.AggregateNamed: the order in which a hash map yields its groups is not modelled.
- Windows.RankWindow: the order in which the hash map yields the partitions is a parameter.
- WindowSums.AssignSums: RANGE frames count rows, as in the code; sums are exact; a sum without an argument is not modelled.
- Joins.EquiHashJoin: qualified columns on both sides in the order left, right; reversed operands and unqualified names are not covered.
- Joins.EquiMergeJoin: the same.
- Subqueries.PeelExact: dates, timestamps and vectors are not values; EXISTS is not modelled.
- CorrelatedIn.CorrelatedExact: one correlating equality, inner side first, and one unaliased column.
- SetOps.RowKeyAmbiguous: two columns; for more only the sufficient condition of `SetOps.RowKeyFaithful`.
- HiddenColumns.HiddenExact: one IN or BETWEEN on one column above a scan; for other plans only the sufficient condition of `Pruning.PruningCovered`.
- Pruning.PruneWith: covers scans, filters, projections, aggregates, sorts, limits and nested-loop joins; hash and merge joins, semi-joins, set operations, windows and CTE scans are not in its plans; index scans and key lookups are in `PrunedLookup`.
- RecursiveCte.Materialize: the anchor and the recursive member are functions of the working table; planning and executing them is not part of it.
- RateLimit.RateLimiter.Acquire: the clock is a parameter and time is real.
- MemoryBudget.RunSafe: memory orderings are sequentially consistent; each load, exchange and release is one step.
- Raft, storage internals, transactions, cost constants, EXPLAIN, predicate pushdown, TLS, gRPC, clients and vector search are not modelled.
