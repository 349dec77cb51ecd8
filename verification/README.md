# Verification of the core algorithms

A Dafny model of the hard parts of a collection of programs built on an object-oriented distributed
database, and of two libraries they ship with. `dafny verify dfyconfig.toml` checks everything.

- **Mustache templates** (`MustacheText`, `MustacheScan`, `MustachePrint`, `MustacheTree`, `MustacheNesting`,
  `MustacheParse`, `MustacheRoundTrip`, `MustacheRender`, `MustacheLaws`):
  the scanner with switchable delimiters, the tree built on a section stack with its deferred nesting check,
  and the callback renderer with its context stack. The parser is proved equivalent to a one-pass matcher that
  checks names eagerly, the renderer to a recursive meaning, for which laws say what each kind of tag writes.
- **Schema synchroniser, connections and quoting of the SQLite mapper** (`SqliteSchema`, `SqliteSync`,
  `SqliteStorage`, `SqliteGuard`, `SqlQuoting`): the in-place column diff, the migration and the SQL it issues,
  the state of connections, transactions and guards over whole runs, and literals.
- **Gaussian mixture** (`GmmAggregate`, `GmmModel`, `GmmResponsibilities`, `GmmIteration`, `Shuffle`): the lazy
  accumulator under every merge order, the in-place model update with its exact statistical meaning,
  responsibilities in log space, a full iteration of both steps, and the shuffle. `RealSums` holds sums and
  quadratic forms.
- **Topic model** (`LdaVector`, `LdaSampling`, `LdaCounts`): sparse/dense vectors, the sort-and-sweep sampler
  and conservation of counts through two aggregations.
- **Linear algebra** (`LaBlocks`, `LaOperations`, `LaEvaluate`): blocked matrices, the block operations, and
  evaluation of programs with dimension inference.
- **Loaders and queue** (`ChunkLoader`, `BlockingQueue`): exactly-once delivery under out-of-space
  interruptions, and the blocking queue as a system of thread steps.

## How the model is set up

`double` is `real`: rounding is not modelled. Integers are unbounded, except for the unsigned index of the
column diff, whose wrap-around is written out. Randomness, `rand()`, and how many objects fit into an
allocation block are arbitrary parameters. The exponential and the logarithm are known only by their laws,
with minus infinity as the logarithm of zero. BLAS calls, joins, and aggregations stand as functions with
their usual meaning; freshly allocated vectors are zero-filled. The type classification `to_sqlite_type` is a
parameter. Exceptions and process exits are `Option` or outcome values.

Pointers into vectors are indices. The component tree under construction is a value: the root's children and
a stack of open frames stand for the vector of pointers into child vectors. Where the source mutates an
object, the model does: the renderer, the numerical vector, the lazy accumulator, the mixture model, the
storage and its guard, and the linear-algebra instance are classes, and the shuffle works on an array.

## What the proofs found

- The template parser's assertion on a child's result (line 750) is violated exactly when the first top-level
  section with a failure in it is closed by its own name, so that the failure is nested (`MustacheParse.Parse`);
  `{{#a}}{{#b}}{{/c}}{{/a}}` is such a template (`MustacheRoundTrip.MismatchAsserts`).
- Migrating a table fails in exactly two situations (`SqliteSync.SyncTable`): a key column would have to be
  added, or, with preserve set, columns are both missing and in excess. The second one always fails, because
  the rebuild copies the columns the old table lacks; it leaves an empty backup table behind. Both have their
  concrete families (`SqliteSync.AddedKeyIsRefused`, `SqliteSync.RenamedColumnIsRefused`).
- A transaction guard does not always close its transaction exactly once. If somebody else ended it, the
  destructor throws when no transaction is open (`SqliteGuard.CommittedBehindTheGuard`) and otherwise ends a
  transaction that is not the guard's (`SqliteGuard.RollsBackAnother`); the exact conditions are in
  `SqliteGuard.DestroyDecides`, and `SqliteGuard.DisciplinedGuard` is a discipline that avoids both.
- Setting `synchronous` inside a transaction fails and makes the storage forget the value set before
  (`SqliteStorage.Storage.SetSynchronous`, `SqliteStorage.ForgottenValue`).
- The remembered `synchronous` value reaches only a held connection. A connection opened for a single
  statement never gets it: the pragma runs on a second temporary connection
  (`SqliteStorage.Storage.GetOrCreateConnection`, `SqliteStorage.StatementWithoutValue`).
- Drawn topics are lost when the posterior has no mass (`LdaSampling.SampleTopics` gives both directions,
  `LdaSampling.LostDraw` an instance).
- `duplicateRow` on more than one block row and `duplicateCol` on more than one block column produce clashing
  block keys (`LaOperations.DuplicateRowsClash`, `DuplicateColsClash`). On a single block column of several rows
  and columns `duplicateCol` takes the leading cells of a block for its first column; it is right exactly if they
  are equal (`LaOperations.DuplicateColsDecide`, and `WideColumnIsScrambled` where they are not).
- A component of weight zero stays without responsibility, and the update then divides by zero. The totals are
  zero exactly there (`GmmIteration.ExpectedWeights`), and positive weights stay positive (`GmmIteration.EmRun`).
- The file loader of `TestGmmLazy.cc` passes set name and database name to `sendData` in the opposite order
  of `createSet` (lines 204, 294 and 300); the model counts what is sent, not where.
- A lone data point never gets an accumulator record (`GmmAggregate.Aggregate`), so an update needs two.

## Model

| member | source | states |
|---|---|---|
| `MustacheText.TrimLoop` | third-party/mustache/headers/mustache.h:41-51 | the two index loops return the trimmed string of the specification `Trim` |
| `MustacheText.TrimIsUnique` | third-party/mustache/headers/mustache.h:41-51 | the trimmed string is the only substring that drops nothing but spaces and has no space at either end |
| `MustacheText.HtmlEscapeLoop` | third-party/mustache/headers/mustache.h:53-80 | the loop appends the entity of each character in order |
| `MustacheText.HtmlEscapeRoundTrip` | third-party/mustache/headers/mustache.h:53-80 | an independent decoder of the predefined entities (section 4.6 of XML 1.0) gives back every string from its escaped form |
| `MustacheText.HtmlEscapeHasNoMarkup` | third-party/mustache/headers/mustache.h:53-80 | escaped text contains no angle bracket or quote of either kind, and every ampersand in it starts an entity reference |
| `MustacheText.SplitLoop` | third-party/mustache/headers/mustache.h:82-91 | the getline loop splits at each delimiter and drops one final delimiter, as `Split` says |
| `MustacheText.SplitJoin` | third-party/mustache/headers/mustache.h:82-91 | joining the parts gives the input back, up to that final delimiter, and no part contains the delimiter |
| `MustacheScan.DelimPair` | third-party/mustache/headers/mustache.h:774-787 | whenever two delimiters are read they are non-empty and free of whitespace and equals signs; the assertion after `find_first_not_of` always holds |
| `MustacheScan.SetDelimiterTag` | third-party/mustache/headers/mustache.h:765-788 | a set-delimiter tag either fails or yields valid delimiters |
| `MustacheScan.SetDelimiterRoundTrip` | third-party/mustache/headers/mustache.h:755-788 | every valid pair of delimiters, written with any number of blanks between them, is read back |
| `MustacheScan.ScanTag` | third-party/mustache/headers/mustache.h:647-684 | a scanned tag starts where its opening delimiter was found, ends inside the input, and leaves valid delimiters: its own if it sets some, the old ones otherwise; what it contains is pinned by `ScanPrinted` |
| `MustacheScan.NextTag` | third-party/mustache/headers/mustache.h:634-661 | the next tag lies at or after the position, is not empty and ends inside the input, so every round advances |
| `MustacheScan.ScanTiles` | third-party/mustache/headers/mustache.h:632-684 | for every input that scans, text pieces and tags tile it without gap, overlap or empty piece |
| `MustacheScan.TilesOrder` | third-party/mustache/headers/mustache.h:632-684 | of two tiling pieces the later one starts at or after the end of the earlier one, and all lie inside the input |
| `MustacheScan.ScanResumes` | third-party/mustache/headers/mustache.h:632-684 | after any number of tags the scan continues as a fresh scan from there under the delimiters last set, which are valid |
| `MustacheScan.ScanPrefixStable` | third-party/mustache/headers/mustache.h:632-684 | the pieces up to a tag and the delimiters it leaves depend on nothing after that tag: a delimiter change affects only later text |
| `MustachePrint.TagContentsRoundTrip` | third-party/mustache/headers/mustache.h:790-829 | the sigil of each tag kind is read back as that kind, with the name (triple braces are in `TripleIsScanned`) |
| `MustachePrint.TripleIsScanned` | third-party/mustache/headers/mustache.h:649-664 | a name between triple braces under the default delimiters is scanned as an unescaped variable of that name, up to the closing triple brace |
| `MustachePrint.ScanPrinted` | third-party/mustache/headers/mustache.h:628-684 | every token sequence, changes of delimiters and tags between triple braces included, printed under any delimiters is scanned back token by token, each at the place where it was printed; between triple braces stands an unescaped variable |
| `MustacheTree.WalkComponent` | third-party/mustache/headers/mustache.h:703-716 | the deferred check of one component reports an error exactly if some visited section is not closed by its own name, prunes closing nodes otherwise, and violates the assertion of line 750 exactly when the failure lies below a component that passes |
| `MustacheTree.WalkRoot` | third-party/mustache/headers/mustache.h:729-753 | the walk over the root stops at the first failure; the assertion is violated exactly when that first failure is nested |
| `MustacheTree.BuildInvariant` | third-party/mustache/headers/mustache.h:632-701 | after any pieces the tree under construction and a one-pass matcher that checks names eagerly agree: same open sections, failure on one side iff failure on the other, and the tree holds exactly the pieces read |
| `MustacheTree.FinishDecides` | third-party/mustache/headers/mustache.h:703-720 | the deferred walk accepts the finished tree exactly when the eager matcher accepts, and then the pruned tree shows exactly the pieces |
| `MustacheNesting.WatchedAll` | third-party/mustache/headers/mustache.h:632-701 | a matcher that pairs tags by position only stops exactly where the parser finds an unopened section, and otherwise knows the open sections and the first top-level failure of the tree |
| `MustacheNesting.NestingOnPieces` | third-party/mustache/headers/mustache.h:703-753 | the walk over the finished tree meets a nested failure first exactly if that matcher says so of the scanned pieces |
| `MustacheParse.ReadTag` | third-party/mustache/headers/mustache.h:634-679 | the search for a tag and the reading of its trimmed contents give the next tag of the scan |
| `MustacheParse.AddTag` | third-party/mustache/headers/mustache.h:677-700 | push, pop and append of one tag on the section stack; the section text slice is always in range |
| `MustacheParse.AddText` | third-party/mustache/headers/mustache.h:634-645 | the text before a tag, if not empty, becomes a child of the innermost open section |
| `MustacheParse.ScanLoop` | third-party/mustache/headers/mustache.h:628-701 | the loop ends, keeps its delimiters valid and every index in range, and returns the tree of the scanned pieces or the error of the scan |
| `MustacheParse.Parse` | third-party/mustache/headers/mustache.h:620-720 | for every input: no error exactly when the eager matcher accepts; the accepted tree shows exactly the tiling pieces, with each section text the slice between its tags and no closing tag as a node; the assertion is violated exactly if, on the scanned pieces, the first top-level section with a failure in it is closed by its own name |
| `MustacheRoundTrip.ShownAllTokens` | third-party/mustache/headers/mustache.h:620-720 | the tree of an accepted template has exactly the tokens of its pieces, in order |
| `MustacheRoundTrip.ParsePrinted` | third-party/mustache/headers/mustache.h:620-720 | a printed template, changes of delimiters and triple braces included, is accepted exactly if its tokens are well nested, and the tree it is parsed into has exactly its tokens, a triple brace being an unescaped variable; without triple braces it prints back to the same text |
| `MustacheRoundTrip.MismatchAsserts` | third-party/mustache/headers/mustache.h:748-751 | a concrete template, an inner section closed by another name inside a well closed one, is rejected and violates the assertion on the way |
| `MustacheRender.FirstPathIsInnermost` | third-party/mustache/headers/mustache.h:438-468 | lookup returns the value of the innermost context in which the whole dotted path resolves, and nothing only if none does |
| `MustacheRender.Renderer.Get` | third-party/mustache/headers/mustache.h:438-468 | the loops over contexts and path components: the innermost context for a dot, otherwise the first context, innermost first, in which the name, or the name split at its dots, resolves |
| `MustacheRender.Renderer.Push` | third-party/mustache/headers/mustache.h:430-432 | a pushed value becomes the innermost context |
| `MustacheRender.Renderer.Pop` | third-party/mustache/headers/mustache.h:434-436 | pop removes the innermost context |
| `MustacheRender.Renderer.RenderVariable` | third-party/mustache/headers/mustache.h:959-974 | a string value is written, escaped if asked; anything else writes nothing |
| `MustacheRender.Renderer.RenderComponent` | third-party/mustache/headers/mustache.h:845-904 | the callback appends the output of its component, asks to skip exactly at sections, never to stop, and leaves the context stack as it found it |
| `MustacheRender.Renderer.RenderSection` | third-party/mustache/headers/mustache.h:976-991 | the body is written once per list item in the item's context, once in the value's context, or once; the stack is restored |
| `MustacheRender.Renderer.WalkComponent` | third-party/mustache/headers/mustache.h:741-753 | walking a component appends its recursive meaning, always returns Continue (so the assertion holds in rendering) and restores the stack |
| `MustacheRender.Renderer.WalkChildren` | third-party/mustache/headers/mustache.h:733-739 | walking children appends their meaning in order and restores the stack |
| `MustacheRender.MeaningConcat` | third-party/mustache/headers/mustache.h:831-843 | the meaning of a concatenation of templates is the concatenation of the meanings |
| `MustacheRender.ParseAndRender` | third-party/mustache/headers/mustache.h:831-843 | end to end: a template is valid exactly when the eager matcher accepts it, and without partials it renders to the recursive meaning of its tree |
| `MustacheRender.PlainTextRendersItself` | third-party/mustache/headers/mustache.h:634-640 | an input without an opening delimiter is valid and renders to itself for all data |
| `MustacheLaws.LookupFinds` | third-party/mustache/headers/mustache.h:438-468 | lookup finds exactly what the name stands for, said without recursion: the value at the end of a chain of fields from the innermost context that has such a chain, or from the context itself for a dot |
| `MustacheLaws.VariableLaw` | third-party/mustache/headers/mustache.h:854-861 | in any contexts a variable tag writes the escaped string its name stands for, an unescaped one the string as it is, and both nothing if there is no string |
| `MustacheLaws.SectionLaw` | third-party/mustache/headers/mustache.h:862-877 | in any contexts a section writes its body for the items of a list in order, each as the innermost context, once for another true value, and nothing for an absent name, false or the empty list; an inverted section writes its body exactly for those |
| `MustacheLaws.SilentLaw` | third-party/mustache/headers/mustache.h:896-901 | comments and changes of delimiters write nothing |
| `MustacheLaws.HeadsAgree` | third-party/mustache/headers/mustache.h:620-720 | the tokens of a tree determine where each component ends |
| `MustacheLaws.SameMeaning` | third-party/mustache/headers/mustache.h:831-843 | trees with the same tokens write the same for any contexts |
| `MustacheLaws.RenderPrinted` | third-party/mustache/headers/mustache.h:831-843 | a printed template without partials renders, if well nested, to the meaning of a tree with exactly its tokens |
| `MustacheLaws.RenderTag` | third-party/mustache/headers/mustache.h:831-904 | end to end on templates of one tag: the escaped string, the string itself after an ampersand or between triple braces, nothing for a comment or a change of delimiters |
| `MustacheLaws.RenderSectionOf` | third-party/mustache/headers/mustache.h:831-904 | end to end on a section or inverted section around any body that is a template of its own: the output of the body per list item in order, once, or not at all |
| `MustacheLaws.AllOwnMarkup` | third-party/mustache/headers/mustache.h:53-80 | without unescaped tags every angle bracket and quote that a tree writes, in any contexts, stands in one of its texts |
| `MustacheLaws.RenderEscaped` | third-party/mustache/headers/mustache.h:831-843 | end to end: for a template without unescaped tags and partials, and any data, every angle bracket and quote of the output stands in a text of the template |
| `SqliteSchema.RemoveAddColumns` | third-party/sqlite/headers/sqlite_orm.h:5215-5262 | a mismatch is reported exactly if two columns of one name differ in type, NOT NULL, presence of a default or key ordinal; otherwise the storage list is left as the missing columns in order, the database list as the excess ones, and every saved pointer still denotes its column; the loop ends although its unsigned index is decremented through zero |
| `SqliteSchema.ConflictMeans` | third-party/sqlite/headers/sqlite_orm.h:5222-5245 | a conflict is a pair of columns of one name that differ in type, NOT NULL, presence of a default or key ordinal |
| `SqliteSchema.DiffRound` | third-party/sqlite/headers/sqlite_orm.h:5222-5260 | one round keeps the relation between both shrinking lists and the original ones |
| `SqliteSync.GetTableInfo` | third-party/sqlite/headers/sqlite_orm.h:4659-4699 | the storage columns with key ordinals written over the column-level flags |
| `SqliteSync.TupleOrder` | third-party/sqlite/headers/sqlite_orm.h:4539-4548 | the names of a composite key are collected last element first |
| `SqliteSync.CreatedTableAgrees` | third-party/sqlite/headers/sqlite_orm.h:5818-5835 | what the database reports for a table just created equals what the storage describes, key ordinals included, because both sides number the key in the same direction |
| `SqliteSync.SchemaStatus` | third-party/sqlite/headers/sqlite_orm.h:5152-5213 | the branches compute the status function, which `StatusOnColumns` says on columns |
| `SqliteSync.StatusOnColumns` | third-party/sqlite/headers/sqlite_orm.h:5152-5213 | each status exactly when, on the columns: recreation for a differing column, an excess column without preserve or a missing NOT NULL column without default; otherwise one of the other results by whether columns are missing and in excess |
| `SqliteSync.InSyncMeans` | third-party/sqlite/headers/sqlite_orm.h:5152-5213 | the status is already-in-sync exactly when both sides have the same column names and no common column differs |
| `SqliteSync.InSyncIsSame` | third-party/sqlite/headers/sqlite_orm.h:5152-5213 | in sync means equal column names and no column that differs in a property |
| `SqliteSync.OutcomeOnColumns` | third-party/sqlite/headers/sqlite_orm.h:8350-8407 | each result of a call and the exception, exactly when, on the columns |
| `SqliteSync.Migrate` | third-party/sqlite/headers/sqlite_orm.h:8354-8404 | the statements for each status: what they keep, what they leave on a refusal, and that the table is in sync afterwards |
| `SqliteSync.AddColumns` | third-party/sqlite/headers/sqlite_orm.h:5079-5105 | the loop succeeds exactly if every column is new, no key and has a default where NOT NULL; rows are kept either way, and on a refusal exactly the columns before the refused one were added |
| `SqliteSync.AddableUnlessKey` | third-party/sqlite/headers/sqlite_orm.h:8383-8388 | the columns the migration adds are new and have defaults where needed, so that the loop fails exactly if one is a key |
| `SqliteSync.FreeName` | third-party/sqlite/headers/sqlite_orm.h:5887-5900 | the search for a backup name ends and finds a name that is not taken |
| `SqliteSync.DecimalInjective` | third-party/sqlite/headers/sqlite_orm.h:5889-5899 | different suffix numbers give different names |
| `SqliteSync.BackupTable` | third-party/sqlite/headers/sqlite_orm.h:5882-5909 | the rebuild succeeds exactly if the old table has all storage columns; then the table has the storage columns, every row and its common values are kept and no other table changed; on failure only an empty backup table is left |
| `SqliteSync.ExtendTable` | third-party/sqlite/headers/sqlite_orm.h:8383-8388 | adding the missing columns brings the table into sync exactly if none is a key; otherwise the columns before the key stay added, and rows are kept |
| `SqliteSync.RebuildAndAdd` | third-party/sqlite/headers/sqlite_orm.h:8390-8398 | the combined branch, for any columns to add: it succeeds only if there is nothing to add, because the rebuild needs every storage column and leaves every one present; a failed rebuild leaves an empty backup table behind and nothing else changed |
| `SqliteSync.SyncTable` | third-party/sqlite/headers/sqlite_orm.h:8350-8407 | for every table and schema, on columns: which result is reported exactly when, and an exception exactly in the two refused migrations, with what each leaves behind; after a success the table has the columns of the storage, and its rows are kept unless a column differs, a column is in excess without preserve, or a missing NOT NULL column has no default, and then they are gone; no other table changes |
| `SqliteSync.RenamedColumnIsRefused` | third-party/sqlite/headers/sqlite_orm.h:8390-8398 | a concrete family in which the add-and-remove migration with preserve fails: a renamed column |
| `SqliteSync.AddedKeyIsRefused` | third-party/sqlite/headers/sqlite_orm.h:8383-8388 | a concrete family of the other refusal: a nullable key column the table lacks |
| `SqliteStorage.Storage.constructor` | third-party/sqlite/headers/sqlite_orm.h:5753-5763 | an in-memory storage holds a connection from the start, a file storage none |
| `SqliteStorage.Storage.OnOpen` | third-party/sqlite/headers/sqlite_orm.h:6651-6681 | opening restores the remembered pragma value and leaves no connection behind; the value reaches the new connection exactly when it is the held one |
| `SqliteStorage.Storage.Synchronous` | third-party/sqlite/headers/sqlite_orm.h:5567-5571 | the re-entrant call ends because the remembered value is cleared first; the new value is remembered exactly if it could be applied, and otherwise the old one stays forgotten |
| `SqliteStorage.Storage.SetPragma` | third-party/sqlite/headers/sqlite_orm.h:5615-5625 | the pragma goes to the held connection, or to a temporary one that is closed again; it fails exactly inside a transaction |
| `SqliteStorage.Storage.GetOrCreateConnection` | third-party/sqlite/headers/sqlite_orm.h:5791-5800 | the held connection, or a new one; a new one never has the remembered setting |
| `SqliteStorage.Storage.Execute` | third-party/sqlite/headers/sqlite_orm.h:5791-5800 | a statement inside a transaction uses its connection; no statement leaves a connection behind |
| `SqliteStorage.Storage.BeginTransaction` | third-party/sqlite/headers/sqlite_orm.h:8473-8483 | outcome by state, and on success a transaction on a held connection |
| `SqliteStorage.Storage.EndTransaction` | third-party/sqlite/headers/sqlite_orm.h:8485-8505 | commit and rollback: outcome by state; a file storage not opened forever lets the connection go |
| `SqliteStorage.Storage.OpenForever` | third-party/sqlite/headers/sqlite_orm.h:8597-8603 | a connection is held from now on, and a running transaction goes on |
| `SqliteStorage.Storage.SetSynchronous` | third-party/sqlite/headers/sqlite_orm.h:5567-5571 | setting the value fails exactly inside a transaction, and then an earlier value is forgotten |
| `SqliteStorage.ForgottenValue` | third-party/sqlite/headers/sqlite_orm.h:5567-5571 | a run in which a value set before a transaction is forgotten inside it |
| `SqliteStorage.StatementWithoutValue` | third-party/sqlite/headers/sqlite_orm.h:5791-5800 | a run in which a statement runs without the remembered value |
| `SqliteGuard.Guard.Finish` | third-party/sqlite/headers/sqlite_orm.h:5376-5389 | an explicit end succeeds exactly in a transaction, and issues COMMIT for a commit and ROLLBACK for a rollback; it disarms the guard if it succeeds and leaves it as it was if it throws |
| `SqliteGuard.Guard.Destroy` | third-party/sqlite/headers/sqlite_orm.h:5361-5369 | the destructor acts exactly if the guard is armed, with COMMIT if the guard commits on destruction and ROLLBACK otherwise, and throws exactly if then no transaction is open |
| `SqliteGuard.RunsAreConsistent` | third-party/sqlite/headers/sqlite_orm.h:5349-5394 | in every run of storage operations and any number of guards with any lifetimes: transactions are bracketed, each guard has a BEGIN of its own, and it is armed exactly while it has ended no transaction |
| `SqliteGuard.DestroyDecides` | third-party/sqlite/headers/sqlite_orm.h:5361-5369 | for every run and every live guard: the destructor throws exactly if the guard has ended nothing, its own transaction was ended by somebody else and none is open; otherwise its BEGIN is closed by exactly one end, a guard that had ended nothing logs COMMIT or ROLLBACK as `commit_on_destroy` says, one that had adds nothing, and the guard closes its own transaction once and no other exactly if nobody else had closed it and the guard had closed no other |
| `SqliteGuard.DisciplinedGuard` | third-party/sqlite/headers/sqlite_orm.h:5342-5394 | in any surroundings, if nothing else ends a transaction until the guard is ended explicitly and the guard is left alone afterwards, its destructor never throws and it closes its own transaction exactly once: with COMMIT if it was ended by a commit, or not ended and last set to commit on destruction, and with ROLLBACK otherwise |
| `SqliteGuard.GuardCommits` | third-party/sqlite/headers/sqlite_orm.h:5376-5389 | the log of a guard that is committed, and of one that is rolled back |
| `SqliteGuard.GuardCommitsOnDestroy` | third-party/sqlite/headers/sqlite_orm.h:5361-5369 | the log of a guard destroyed with and without `commit_on_destroy` |
| `SqliteGuard.CommittedBehindTheGuard` | third-party/sqlite/headers/sqlite_orm.h:5361-5369 | a run in which the destructor throws: the transaction of the guard is committed on the storage |
| `SqliteGuard.RollsBackAnother` | third-party/sqlite/headers/sqlite_orm.h:5361-5369 | a run in which the destructor rolls back another transaction than its own |
| `SqliteGuard.Run` | third-party/sqlite/headers/sqlite_orm.h:8473-8505 | after any run the log is its history and the program has ended early exactly if the history did; an ordinary file storage holds a connection exactly while a transaction is open, any other storage always holds one, and nothing else stays open |
| `SqlQuoting.Escape` | third-party/sqlite/headers/sqlite_orm.h:5922-5932 | the loop that inserts into the text it scans ends and doubles every quote |
| `SqlQuoting.LiteralRoundTrip` | third-party/sqlite/headers/sqlite_orm.h:5967-5975 | an escaped string in quotes, followed by anything that is no quote, reads back as one literal (section 5.3 of SQL-92) with the original text |
| `SqlQuoting.UnescapedRoundTrip` | third-party/sqlite/headers/sqlite_orm.h:5967-5975 | without escaping, the literal reads back exactly for the strings that contain no quote |
| `GmmAggregate.Fresh` | applications/TestGMM/sharedLibraries/headers/GmmAggregateNewComp.h:49-56 | a new accumulator record holds the sums over no points |
| `GmmAggregate.Process` | applications/TestGMM/sharedLibraries/headers/GmmAggregateOutputLazy.h:82-112 | an unprocessed left operand becomes the sums over its one point |
| `GmmAggregate.AddPoint` | applications/TestGMM/sharedLibraries/headers/GmmAggregateOutputLazy.h:120-150 | an unprocessed right operand adds its moments to the left sums |
| `GmmAggregate.AddComp` | applications/TestGMM/sharedLibraries/headers/GmmAggregateOutputLazy.h:154-183 | two processed operands add up to the sums over both |
| `GmmAggregate.LazyAggregate.Plus` | applications/TestGMM/sharedLibraries/headers/GmmAggregateOutputLazy.h:77-187 | in every combination of lazy states the left operand ends processed, never both or neither, and holds the sums over the points of both |
| `GmmAggregate.Aggregate` | applications/TestGMM/sharedLibraries/headers/GmmAggregateOutputLazy.h:64-187 | for every merge tree the root holds the plain sums of weights, means, upper-triangle second moments and log-likelihood over all leaves; it holds sums exactly when there was a merge |
| `GmmModel.UpdateComponent` | applications/TestGMM/sharedLibraries/headers/GmmModel.h:273-308 | the scaled, shifted, ridged and mirrored matrix is symmetric with the stated entries |
| `GmmModel.GmmModel.UpdateModel` | applications/TestGMM/sharedLibraries/headers/GmmModel.h:254-315 | weights, means and covariances are overwritten with these values for every component |
| `GmmModel.CentredAroundMean` | applications/TestGMM/sharedLibraries/headers/GmmModel.h:275-290 | second moment over weight minus product of means equals the weighted centred moment |
| `GmmModel.UpdateIsCentredCovariance` | applications/TestGMM/sharedLibraries/headers/GmmModel.h:254-308 | every entry of the updated covariance is the weighted centred covariance of the points, plus 1e-6 on the diagonal, and the matrix is symmetric |
| `GmmModel.ScatterNonNegative` | applications/TestGMM/sharedLibraries/headers/GmmModel.h:283-290 | the weighted scatter matrix of non-negative responsibilities is positive semidefinite |
| `GmmModel.CovarianceIsPositiveDefinite` | applications/TestGMM/sharedLibraries/headers/GmmModel.h:283-308 | z'Cz is at least 1e-6 times the squared length of z, for every z |
| `GmmModel.WeightsTotal` | applications/TestGMM/sharedLibraries/headers/GmmModel.h:258-270 | responsibilities that sum to one per point sum to the number of points over all components |
| `GmmModel.MaximisationStep` | applications/TestGMM/sharedLibraries/headers/GmmModel.h:254-315 | for at least two points in any merge order with positive component weights: exact means and covariances for each component, with 1e-6 added on the diagonal, positive definite where responsibilities are non-negative, weights that are shares of the total and sum to one, and the total log-likelihood |
| `GmmResponsibilities.Maximum` | applications/TestGMM/sharedLibraries/headers/GmmModel.h:228-235 | the running maximum is an element and no other is greater, minus infinity being the least value |
| `GmmResponsibilities.LogSumExp` | applications/TestGMM/sharedLibraries/headers/GmmModel.h:226-242 | factoring out the maximum does not change the result: it is the logarithm of the sum of exponentials, as soon as one value is finite |
| `GmmResponsibilities.Responsibilities` | applications/TestGMM/sharedLibraries/headers/GmmAggregateLazy.h:76-105 | each responsibility is the component's share of the total density, zero exactly where its log density is minus infinity; they sum to one |
| `GmmIteration.Expect` | applications/TestGMM/sharedLibraries/headers/GmmAggregateLazy.h:76-105 | for all weights that are not negative and not all zero: each responsibility is the share of weight times density in their total, positive exactly if the weight is; they sum to one, and the log-likelihood is the logarithm of the total |
| `GmmIteration.ExpectedWeights` | applications/TestGMM/sharedLibraries/headers/GmmModel.h:258-281 | the totals the update divides by are not negative, sum to the number of points, and are zero exactly for components of weight zero |
| `GmmIteration.EmIteration` | applications/TestGMM/sharedLibraries/headers/GmmModel.h:254-315 | one full iteration for every data set of at least two points, every merge order and all positive weights: new weights are mean responsibilities, positive and of sum one, means and covariances are the weighted ones of the points with 1e-6 added on the diagonal, every covariance is positive definite |
| `GmmIteration.EmRun` | applications/TestGMM/sharedLibraries/headers/GmmModel.h:254-315 | over any number of iterations positive weights stay positive, so that none divides by zero, and after each the weights sum to one and all covariances are positive definite |
| `Shuffle.RandomizeInPlace` | applications/TestGMM/sharedLibraries/headers/GmmSampler.h:61-70 | the loop of exchanges yields a permutation, the one the draws select |
| `Shuffle.DrawsAreUnique` | applications/TestGMM/sharedLibraries/headers/GmmSampler.h:61-70 | for distinct elements different draws give different orders |
| `Shuffle.DrawsExist` | applications/TestGMM/sharedLibraries/headers/GmmSampler.h:61-70 | every order is produced by some draws |
| `Shuffle.ShuffleIsBijective` | applications/TestGMM/sharedLibraries/headers/GmmSampler.h:61-70 | for distinct elements every permutation is produced by exactly one sequence of draws with the i-th draw in 0..i |
| `Shuffle.EveryOrderIsDrawn` | applications/TestGMM/sharedLibraries/headers/GmmSampler.h:61-70 | every permutation is the result of the loop for some values of `rand()` |
| `LdaVector.NumericalVector.GetVector` | applications/TestLDA/sharedLibraries/headers/NumericalVector.h:112-120 | making the vector dense does not change what it stands for |
| `LdaVector.NumericalVector.Add` | applications/TestLDA/sharedLibraries/headers/NumericalVector.h:61-110 | in all four combinations of sparse and dense the result stands for the pointwise sum, also where the code assigns instead of adding and when both share storage |
| `LdaVector.Evaluate` | applications/TestLDA/sharedLibraries/headers/NumericalVector.h:51-120 | for every tree of additions the vector read at the end is the plain pointwise sum |
| `LdaSampling.TakeBelow` | applications/TestLDA/sharedLibraries/headers/LDADocWordTopicJoin.h:129-132 | the inner loop takes exactly the remaining draws below the running mass |
| `LdaSampling.Sweep` | applications/TestLDA/sharedLibraries/headers/LDADocWordTopicJoin.h:125-133 | topic i gets the draws between the posterior mass before and after it |
| `LdaSampling.DrawTopics` | applications/TestLDA/sharedLibraries/headers/LDADocWordTopicJoin.h:112-133 | scaling, sorting and sweeping gives each topic the count of its interval among the unsorted draws |
| `LdaSampling.CountIsSize` | applications/TestLDA/sharedLibraries/headers/LDADocWordTopicJoin.h:125-133 | the count of an interval is the number of draws in it |
| `LdaSampling.MassMeans` | applications/TestLDA/sharedLibraries/headers/LDADocWordTopicJoin.h:102-117 | a posterior has mass exactly if some topic has both probabilities positive |
| `LdaSampling.SampleTopics` | applications/TestLDA/sharedLibraries/headers/LDADocWordTopicJoin.h:96-133 | the counts are the histogram of the scaled draws over intervals whose widths are the products of the two probabilities of each topic; they add up to the number of draws if the posterior has mass and to nothing otherwise |
| `LdaSampling.SortKeeps` | applications/TestLDA/sharedLibraries/headers/LDADocWordTopicJoin.h:123-123 | sorting orders the draws and changes the count of no interval |
| `LdaCounts.Emit` | applications/TestLDA/sharedLibraries/headers/LDADocWordTopicJoin.h:140-153 | one document and one topic assignment for each topic with a nonzero count |
| `LdaSampling.NoMassNoTopics` | applications/TestLDA/sharedLibraries/headers/LDADocWordTopicJoin.h:125-133 | without posterior mass no topic gets any draw |
| `LdaSampling.LostDraw` | applications/TestLDA/sharedLibraries/headers/LDADocWordTopicJoin.h:96-133 | a concrete draw that is lost |
| `LdaCounts.EntryPermuted` | applications/TestLDA/sharedLibraries/headers/DocAssignment.h:42-45 | summed counts do not depend on the order of the assignments |
| `LdaCounts.AggregateKey` | applications/TestLDA/sharedLibraries/headers/DocAssignment.h:42-45 | merged in any order and shape with vectors that add in place, the aggregate of a key has exactly the summed counts as entries; a key has none exactly if it has no assignments |
| `LdaCounts.AggregateAll` | applications/TestLDA/sharedLibraries/headers/TopicAssignment.h:42-45 | so for all keys, a missing one counting as zero |
| `LdaCounts.DocTotalsStep` | applications/TestLDA/sharedLibraries/headers/DocAssignment.h:42-45 | one more joined record adds its counted words to its document and to no other |
| `LdaCounts.TopicTotalsStep` | applications/TestLDA/sharedLibraries/headers/TopicAssignment.h:42-45 | one more joined record adds the same amount to a topic in both aggregates |
| `LdaCounts.Sample` | applications/TestLDA/sharedLibraries/headers/LDADocWordTopicJoin.h:93-153 | the emitted assignments have slots in range, those of a document sum to the words of its records with mass, and both kinds agree on every topic |
| `LdaCounts.HasMassMeans` | applications/TestLDA/sharedLibraries/headers/LDADocWordTopicJoin.h:102-117 | a record has mass exactly if some topic has both probabilities positive |
| `LdaCounts.Step` | applications/TestLDA/sharedLibraries/headers/LDADocWordTopicJoin.h:93-153 | over the whole step and for every schedule of the two aggregations, on the vectors read at the end: each document vector sums to the words of its records with posterior mass, and for each topic the total over the document vectors is the total over its own vector of words |
| `LdaCounts.NothingLost` | applications/TestLDA/sharedLibraries/headers/LDADocWordTopicJoin.h:93-153 | a document loses no words exactly if each of its records that has words has mass |
| `LdaCounts.StepKeepsWords` | applications/TestLDA/sharedLibraries/headers/LDADocWordTopicJoin.h:93-153 | if every record with words has mass, each document vector sums to its word count |
| `LaBlocks.FlattenedCell` | applications/TestLinearAlgebra/sharedLibraries/headers/LAInverse3MultiSelection.h:60-77 | in a represented matrix each cell is found in the block of its key, at its row-major place, and in no other block |
| `LaBlocks.FillCells` | applications/TestLinearAlgebra/linearAlgebraDSL/source/LAEvaluateFunctions.cc:96-103 | the two inner loops write each cell at its row-major place |
| `LaBlocks.Dispatch` | applications/TestLinearAlgebra/linearAlgebraDSL/source/LAEvaluateFunctions.cc:76-126 | for every pattern of out-of-space interruptions blocks are sent once and in order; with enough space they are the complete grid of zeros, ones or identity |
| `LaBlocks.SplitCell` | applications/TestLinearAlgebra/sharedLibraries/headers/LAInverse3MultiSelection.h:66-71 | the cell read for each place of a block is inside the large matrix, and is the right one |
| `LaBlocks.Split` | applications/TestLinearAlgebra/sharedLibraries/headers/LAInverse3MultiSelection.h:52-79 | splitting a large row-major matrix gives a complete grid with unique keys whose flattened form is that matrix |
| `LaOperations.JoinRepresents` | applications/TestLinearAlgebra/sharedLibraries/headers/LAAddJoin.h:42-89 | joining two grids of one dimension on the block key gives the grid of the pointwise operation |
| `LaOperations.JoinShows` | applications/TestLinearAlgebra/sharedLibraries/headers/LAElementwiseMultiplyJoin.h:40-88 | each block of the left grid meets exactly one block of the right one, and the joined block shows that part of the pointwise operation |
| `LaOperations.DuplicateRow` | applications/TestLinearAlgebra/sharedLibraries/headers/LADuplicateRowMultiSelection.h:54-77 | one copy of the block's first row for each block row of the target |
| `LaOperations.DuplicateRowsRepresent` | applications/TestLinearAlgebra/sharedLibraries/headers/LADuplicateRowMultiSelection.h:54-77 | on a single block row the result is the complete grid that repeats the first row |
| `LaOperations.DuplicateRowsClash` | applications/TestLinearAlgebra/sharedLibraries/headers/LADuplicateRowMultiSelection.h:68-75 | on more than one block row the result has clashing keys |
| `LaOperations.DuplicateCol` | applications/TestLinearAlgebra/sharedLibraries/headers/LADuplicateColMultiSelection.h:54-78 | one copy of the block's leading cells for each block column of the target |
| `LaOperations.DuplicateColsDecide` | applications/TestLinearAlgebra/sharedLibraries/headers/LADuplicateColMultiSelection.h:54-78 | on a single block column the result is the complete grid that repeats the first column exactly if the leading cells of every block are that column, or the target is empty |
| `LaOperations.DuplicateColsRepresent` | applications/TestLinearAlgebra/sharedLibraries/headers/LADuplicateColMultiSelection.h:54-78 | so it is for blocks of one column and for blocks of one row, whatever the values |
| `LaOperations.DuplicateColsClash` | applications/TestLinearAlgebra/sharedLibraries/headers/LADuplicateColMultiSelection.h:58-76 | on more than one block column the result has clashing keys |
| `LaOperations.WideColumnIsScrambled` | applications/TestLinearAlgebra/sharedLibraries/headers/LADuplicateColMultiSelection.h:67-72 | and it is not for blocks of several rows and columns, as soon as the second cell of the first row differs from the first of the second |
| `LaEvaluate.Instance.Initialize` | applications/TestLinearAlgebra/linearAlgebraDSL/source/LAEvaluateFunctions.cc:67-214 | an initializer writes a new set under the next number; the check for an existing set cannot fail |
| `LaEvaluate.BinaryMeaning` | applications/TestLinearAlgebra/sharedLibraries/headers/LAAddJoin.h:42-89 | the joined blocks of a sum, a difference or an elementwise product show the sums, differences or products of the cells of the ordinary values |
| `LaEvaluate.Duplicate` | applications/TestLinearAlgebra/linearAlgebraDSL/source/LAEvaluateFunctions.cc:285-302 | for any operand the blocks have the inferred dimension; the exact condition under which a single block column is repeated; a single block row is; more than one block row or column gives clashing keys |
| `LaEvaluate.Combined` | applications/TestLinearAlgebra/linearAlgebraDSL/source/LAEvaluateFunctions.cc:351-362 | for any two operands of one dimension the block sizes match, so that no join exits; grids join to the pointwise result |
| `LaEvaluate.Instance.Evaluate` | applications/TestLinearAlgebra/linearAlgebraDSL/source/LAEvaluateFunctions.cc:217-442 | evaluation aborts exactly when dimension inference fails; otherwise it yields blocks of the inferred dimension, and, if every duplication involved is of a vector, a complete grid with unique keys whose flattened form is the ordinary value, each operator and initializer being defined cell by cell; existing sets are untouched |
| `LaEvaluate.Instance.Bind` | applications/TestLinearAlgebra/linearAlgebraDSL/headers/LAPDBInstance.h:135-156 | rebinding an identifier changes its set and its dimension together and nothing else |
| `LaEvaluate.Instance.Execute` | applications/TestLinearAlgebra/linearAlgebraDSL/source/LAEvaluateFunctions.cc:445-496 | a statement succeeds exactly if its dimensions fit and no result of that identifier exists, unless it is an initializer; then exactly its identifier is rebound |
| `LaEvaluate.RunProgram` | applications/TestLinearAlgebra/linearAlgebraDSL/source/LAEvaluateFunctions.cc:445-496 | every program runs to its end exactly when every statement is accepted; then every identifier is bound to blocks of its inferred dimension, and each one that goes back to vector duplications only to a complete grid with its ordinary value |
| `LaEvaluate.VectorProgramIsClean` | applications/TestLinearAlgebra/linearAlgebraDSL/source/LAEvaluateFunctions.cc:445-496 | in an accepted program that duplicates vectors only, that is every identifier |
| `ChunkLoader.PartsCover` | applications/TestMatrixMultiply/TestMatrixMultiply.cc:43-44 | uneven chunk heights and widths differ by at most one and add up to the matrix size |
| `ChunkLoader.ChunkGrid` | applications/TestMatrixMultiply/TestMatrixMultiply.cc:40-41 | the chunk of each grid cell has exactly the number at which the column-by-column order reaches the cell |
| `ChunkLoader.ChunksFillGrid` | applications/TestMatrixMultiply/TestMatrixMultiply.cc:40-47 | the chunks hold every grid cell exactly once; heights down a block column and widths along a block row add up to the matrix size |
| `ChunkLoader.InitMatrix` | applications/TestMatrixMultiply/TestMatrixMultiply.cc:28-65 | under every pattern of interruptions the chunks are sent once and in order, all of them exactly if the space suffices; then every grid cell is sent exactly once, with the height and width its place calls for, and heights and widths add up to the matrix size |
| `ChunkLoader.LoadRandom` | applications/TestGMM/TestGmmLazy.cc:206-240 | under every pattern of interruptions record numbers are sent once and in order, each record near its cluster centre |
| `ChunkLoader.FillBlock` | applications/TestGMM/TestGmmLazy.cc:251-304 | one allocation block: the lines it sends, the line it keeps, and why it ended |
| `ChunkLoader.LoadFile` | applications/TestGMM/TestGmmLazy.cc:242-309 | under every pattern of interruptions lines are sent once and in order, all of them exactly if the space suffices, and the count is right |
| `BlockingQueue.StepKeepsInvariant` | third-party/concurent_queue/headers/concurrent_queue.h:26-47 | every step of every thread keeps: items dequeued followed by the queue are the items enqueued, mutual exclusion, and no unnotified waiter while an item is there |
| `BlockingQueue.RunKeepsInvariant` | third-party/concurent_queue/headers/concurrent_queue.h:26-47 | that invariant holds after every interleaving of any number of threads |
| `BlockingQueue.NoLostWakeup` | third-party/concurent_queue/headers/concurrent_queue.h:37-47 | in every reachable state with an item and a free mutex no thread is left waiting without a notification |
| `BlockingQueue.HolderCanMove` | third-party/concurent_queue/headers/concurrent_queue.h:26-47 | the thread that holds the mutex always has a step |

## Left out

- Mustache lambdas, partials and user-defined contexts: callbacks and possibly unbounded recursion. A template
  with a partial tag is parsed, but its rendering is not claimed.
- Aliasing inside the component tree: the model's frames are values, so that the pointers into growing child
  vectors stay valid is not shown.
- The tree of a rejected template: only that it is rejected, and by which exits, is modelled.
- SqliteSync.SyncTable: names compare exactly, without SQLite's case folding; uniqueness of keys, foreign
  keys, triggers and `WITHOUT ROWID` are not modelled, and the column number `cid`, which nothing reads, is
  omitted.
- SqliteGuard.Run: SQLite itself is taken to succeed on opening, BEGIN, COMMIT, ROLLBACK and the pragma where the
  connection's state allows them; copying a storage is not modelled.
- SqliteStorage.Storage.OnOpen: foreign keys, collations, limits and the user callback on opening are not modelled.
- MustacheRender.Renderer.RenderVariable: without the branches for lambdas.
- MustacheRender.Renderer.RenderComponent: without the branches for lambdas and partials.
- MustacheRender.Renderer.RenderSection: for sections without partial tags.
- MustacheRender.Renderer.WalkComponent: for components without partial tags.
- MustacheRender.Renderer.WalkChildren: for children without partial tags.
- MustacheRender.ParseAndRender: what a template with partial tags renders to is not stated.
- MustacheLaws.RenderPrinted: for templates without partial tags, as the methods that follow it.
- GmmIteration.EmIteration: the NaN that a weight of zero leads to, negative weights, and weights that are all
  zero are not modelled.
- LdaSampling.SortKeeps: `std::sort` stands as insertion sort; only that it sorts and permutes is used.
- LaEvaluate.Instance.Evaluate: covers identifiers, the three computed initializers, parentheses, add, subtract,
  elementwise multiply and the two duplications; what is said of the values rests on vectors being duplicated.
  A read beyond the data of an empty block stands as zero. Matrix multiplication, transposition, inversion and
  the aggregates use block code that is not part of this model.
- LaEvaluate.Instance.Execute: statements within these expressions.
- LaEvaluate.RunProgram: programs within these expressions; of the values it speaks where every duplication is of
  a vector.
- LaEvaluate.Instance.Initialize: set names are structured values, not concatenated strings; the `load`
  initializer, which re-reads values after an interruption, is not modelled.
- GmmModel.GmmModel.UpdateModel: stops before the Cholesky inversion and the determinants; the log density that
  feeds the responsibilities is a parameter.
- The loaders of the topic model: they do not retry an interrupted record, so exactly-once delivery is not what
  they do.
- Sampling fractions, command lines, cluster set-up, timing and printing.
