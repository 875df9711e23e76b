# Verified model of FMDB-CPP and of the text machinery in the SQLite shell

Dafny 4.11 models of the parts of the repository that keep intricate state, and proofs of what those
parts promise. `dafny verify dfyconfig.toml` checks the whole project.

| file | what it models |
|---|---|
| `Sqlite.dfy` | native statement handles over an arbitrary engine: prepare, bind, step, reset, finalize |
| `CacheSpec.dfy` | what a client of `FMDatabase` observes, told without a statement cache |
| `CacheState.dfy` | the heap of statements, result sets and cache as a value; the invariant; what each call does to it |
| `FMDB.dfy` | `FMStatement`, `FMResultSet` and `FMDatabase` as classes with shared, counted, mutable objects |
| `SavePoint.dfy` | `inSavePoint`, nested to any depth, when any SQL statement may fail |
| `Queue.dfy` | `FMDatabaseQueue`: producers, a stop flag and one worker, in every interleaving |
| `Wrappers.dfy` | optional values, and the regrouping of sequences |
| `CString.dfy` | C strings in buffers, and quote doubling |
| `Glob.dfy` | the backtracking matcher `testcase_glob` against a declarative match relation |
| `GlobText.dfy` | what the matcher takes each piece of a pattern for, told from the pattern's text |
| `GlobDocumented.dfy` | the match relation its comment documents, and exactly when the code implements it |
| `Csv.dfy` | the CSV writer, the CSV reader and the import loop |
| `MetaCommand.dfy` | C-string output, in-place dequoting and the meta-command tokenizer |
| `Pretty.dfy` | the two in-place passes of MODE_Pretty |
| `Quoting.dfy` | the four quoting routines and the doubly quoted table name of the dump query |
| `Explain.dfy` | the indentation pass for EXPLAIN listings |
| `GetLine.dfy` | reading lines of any length into a growing buffer |
| `TablesLayout.dfy` | the column layout of `.tables` |

Code that edits buffers or objects step by step is modelled by methods with loops over arrays and by
classes; each method is proved equal to a specification function or relation, and the properties are
lemmas about that.

How the main results are stated:

* **Statement cache.** `CacheSpec` has no cache: every query and update runs a statement of its own.
  `FMDB.Run` shows that any sequence of calls on the classes gives exactly the observations of
  `CacheSpec`. The engine is arbitrary: the outcome of a step may depend on the SQL text, the
  bindings, the contents the statement saw since its reset, and the contents now. Two facts the proof
  brought out: `clearCachedStatements` ends exactly the open result sets that were opened with caching
  on, and a call with a wrong argument count breaks the invariant exactly when it hits an idle cached
  statement, whose handle is then finalized and still cached.
* **Savepoints.** Any SQL statement may fail, in any pattern. A true result of `inSavePoint` still means
  that the stack is as at entry and the contents are those at entry or those the block left, and it is
  given exactly when the database lets the call's own statements through. The freshness of the
  generated names is part of the proof. The effect of any nesting of blocks, under any failures, is that
  of a reading with no savepoints in it, in which a block just keeps the contents it started from.
* **Queue.** A task is a strategy over the replies the database gives it. Whatever the schedule, the
  database sees whole tasks one after the other in the order of submission, and the outcome depends
  only on that order. Nothing submitted is left undone: a task of n statements is through n + 3 turns of
  the worker after its turn has come, and once stop is set the worker leaves its loop.
* **Glob.** The matcher is characterised for every pattern: it is a declarative relation in which numbers
  and spans are as long as they can be, over the pattern as the code reads it. What the comment documents
  is another relation: any digits, any span. `GlobDocumented.DocumentedExactly` says for which patterns
  the two agree on all texts: those that can match nothing, and those in which no star run comes right
  before a `#` or white space (the code takes these literally) and nothing that follows a number may
  start with a digit, nor what follows a span with white space. For every other pattern the proof
  produces a text that the documentation matches and the code does not. `GlobText` pins the tokens to
  what is written: which bytes a class accepts, and what plain bytes, `*`, `?`, `#` and blanks match.
* **CSV import.** Any rows, whatever their widths, are imported one for one: cut to the columns or filled
  up with NULL, with one message for each row of another width, which has the line the row starts on and
  the number of its fields. Rows of the right width are the special case of the round trip. Fields with
  stray or missing quotes are read, and reported, as stated by `StrayQuote` and `NeverClosed`.
* **Meta-commands.** Any arguments, spelled bare, in single quotes or in C notation, and with any white
  space between them, are the tokens of their line. Every escape stands for its documented byte.
* **Pretty printing.** `LineStructure` says where the lines end, by counting parentheses. Quotes make no
  difference: commas and parentheses in a quoted text count like any others.
* **Table names.** What `set_table_name` writes reads back as the name if and only if the name is no
  keyword, as keywords are not quoted.

## Model

| member | source | states |
|---|---|---|
| FMDB.Run | FMDB-CPP/c++/FMDatabase.h:233-272 | any sequence of query, update, next, close, caching-switch and clear calls over any number of open result sets answers exactly as if every call had a statement freshly prepared for it, and leaves the same contents |
| FMDB.Perform | FMDB-CPP/c++/FMDatabase.h:121-131 | one call moves the client's view exactly as the cacheless specification says, and moves no other result set |
| CacheSpec.CachingIsInvisible | FMDB-CPP/c++/FMDatabase.cpp:484-492 | two runs with the same calls but caching switched differently, and no clearing, give equal observations, contents and result sets |
| CacheSpec.ClearEndsCachedSets | FMDB-CPP/c++/FMDatabase.cpp:228-238 | after a clear, next fails for exactly the open result sets opened with caching on, and is unchanged for all others |
| CacheSpec.NextIsStepThenClose | FMDB-CPP/c++/FMResultSet.cpp:54-96 | fetching is one step, followed by a close exactly when the step gave no row |
| CacheSpec.UpdateIsOneStep | FMDB-CPP/c++/FMDatabase.cpp:549-603 | an update leaves the contents that opening a result set on the same text and fetching once would leave, answers true exactly when that fetch would be done, and leaves nothing open |
| CacheSpec.QueryRows | FMDB-CPP/c++/FMResultSet.cpp:54-96 | a query that changes nothing yields exactly the rows of its text and arguments, first to last, then what ended them, and then a misuse |
| FMDB.FMDatabase.ExecuteQuery | FMDB-CPP/c++/FMDatabase.h:233-246 | opens a result set on a private statement for these arguments whether or not a cached one was reused; a refused call changes nothing the client sees; the invariant is kept exactly when the call does not bring a wrong argument count to an idle cached statement, and otherwise that statement's handle is finalized in the cache |
| FMDB.FMDatabase.ExecuteUpdate | FMDB-CPP/c++/FMDatabase.h:248-261 | has the effect and the answer of a freshly prepared statement, on every path, cached or not; a refused call changes nothing the client sees, and keeps the invariant under exactly the same condition |
| FMDB.FMDatabase.SpoiledIsInvalid | FMDB-CPP/c++/FMDatabase.cpp:514-524 | a cached statement whose handle is finalized breaks the invariant every other result rests on |
| FMDB.FMDatabase.Begin | FMDB-CPP/c++/FMDatabase.h:233-244 | after preparing, checking and binding, the handle is for this text and these arguments with no trace of earlier use; a refused call leaves a valid state unless it gave up a cached statement's handle |
| FMDB.FMDatabase.ExecuteQueryPrepareAndCheck | FMDB-CPP/c++/FMDatabase.cpp:473-512 | yields an idle reset statement of this SQL text or a new handle, which no result set holds; fails exactly when busy or when the text does not compile |
| FMDB.FMDatabase.CachedStatementForQuery | FMDB-CPP/c++/FMDatabase.cpp:240-255 | returns a statement of this text that is not in use, and none only if all of them are in use |
| FMDB.FMDatabase.SetCachedStatement | FMDB-CPP/c++/FMDatabase.cpp:257-270 | files the statement last under its text and leaves every other text's statements alone |
| FMDB.FMDatabase.ExecuteQueryParametersCheck | FMDB-CPP/c++/FMDatabase.cpp:514-524 | a wrong count finalizes the handle, clears the busy mark and is refused; a right count changes nothing |
| FMDB.FMDatabase.ExecuteQueryImpl | FMDB-CPP/c++/FMDatabase.cpp:526-547 | the new result set is the only holder of its statement, is listed as open, and the use is counted once |
| FMDB.FMDatabase.ExecuteUpdateImpl | FMDB-CPP/c++/FMDatabase.cpp:549-603 | steps once; the statement ends reset and idle in the cache, or finalized if it is not cached |
| FMDB.FMDatabase.ClearCachedStatements | FMDB-CPP/c++/FMDatabase.cpp:228-238 | the invariant survives clearing while result sets are open; the client's view changes as the specification says |
| FMDB.FMDatabase.ResultSetDidClose | FMDB-CPP/c++/FMDatabase.cpp:217-226 | exactly that result set leaves the list of open ones |
| FMDB.FMDatabase.SetShouldCacheStatements | FMDB-CPP/c++/FMDatabase.cpp:484-492 | switching caching keeps the invariant in any state |
| FMDB.FMResultSet.Next | FMDB-CPP/c++/FMResultSet.cpp:54-96 | yields what the set's own SQL, arguments and cursor give, closes it on anything but a row, and moves no other cursor |
| FMDB.FMResultSet.Close | FMDB-CPP/c++/FMResultSet.cpp:36-47 | resets the statement and gives it back, or finalizes it if the cache does not share it; closing twice is harmless |
| FMDB.FMStatement.Close | FMDB-CPP/c++/FMStatement.cpp:19-26 | finalizes the handle at most once and is no longer in use |
| FMDB.FMStatement.Reset | FMDB-CPP/c++/FMStatement.cpp:28-34 | rewinds the cursor, keeps the bindings and is no longer in use |
| FMDB.FMDatabase.NoSharing | FMDB-CPP/c++/FMResultSet.cpp:24-34 | in every reachable state two result sets never hold the same statement |
| FMDB.FMDatabase.InUseIffHeld | FMDB-CPP/c++/FMStatement.hpp:31-32 | a cached statement is in use exactly when some open result set holds it |
| FMDB.FMDatabase.OneOwner | FMDB-CPP/c++/FMStatement.cpp:14-26 | a native handle belongs to one statement, and is not finalized while it does |
| FMDB.FMDatabase.NothingLeaks | FMDB-CPP/c++/FMDatabase.cpp:582-593 | with no result set open and an empty cache every handle ever prepared has been finalized |
| FMDB.FMDatabase.Accounting | FMDB-CPP/c++/FMDatabase.cpp:526-547 | for every SQL text the use counts of its cached statements add up to its executions since the last clear, and there is at most one statement more than were ever open on it at once |
| CacheState.HitQueryKeeps | FMDB-CPP/c++/FMDatabase.cpp:484-492 | reusing an idle statement for a query keeps every part of the invariant, as the client's view moves |
| CacheState.MissQueryKeeps | FMDB-CPP/c++/FMDatabase.cpp:526-547 | so does preparing a new one, when none was idle |
| CacheState.HitUpdateKeeps | FMDB-CPP/c++/FMDatabase.cpp:582-593 | so does an update that reuses a statement |
| CacheState.MissUpdateKeeps | FMDB-CPP/c++/FMDatabase.cpp:582-593 | so does an update that caches a new statement |
| CacheState.StepSetKeeps | FMDB-CPP/c++/FMResultSet.cpp:54-57 | so does moving one result set's cursor |
| CacheState.CloseSetKeeps | FMDB-CPP/c++/FMResultSet.cpp:36-47 | so does closing a result set, whether its statement is shared with the cache, uncached or already finalized |
| CacheState.ClearAllKeeps | FMDB-CPP/c++/FMDatabase.cpp:228-238 | so does clearing the cache under open result sets |
| CacheState.ClearAllRounds | FMDB-CPP/c++/FMDatabase.cpp:228-238 | closing every cached statement and then dropping the cache's shares, in any order of the texts, comes to one clearing step |
| CacheState.AllHeld | FMDB-CPP/c++/FMDatabase.cpp:240-255 | if no cached statement of a text is idle, there are no more of them than result sets open on it |
| SavePoint.Atomic | FMDB-CPP/c++/FMDatabase.cpp:756-788 | a true result leaves the savepoint stack as at entry and the contents as at entry if rollback was asked for, else as the block left them; a false one means nothing was begun or the savepoint with the contents at entry is still there |
| SavePoint.Succeeds | FMDB-CPP/c++/FMDatabase.cpp:756-788 | the answer is true if and only if the database lets the statements through that begin the savepoint, roll back to it when that was asked for, and release it |
| SavePoint.NothingFails | FMDB-CPP/c++/FMDatabase.cpp:756-788 | if no statement fails the answer is true, the savepoints are those at entry, and the block, with the blocks in it, has happened as a whole or not at all as it asked |
| SavePoint.AsMeant | FMDB-CPP/c++/FMDatabase.cpp:756-788 | whatever fails and however deep the nesting, contents, answer and number of statements run are those of a reading without savepoints |
| SavePoint.BlockGrows | FMDB-CPP/c++/FMDatabase.cpp:756-788 | whatever a block does and whatever fails in it, the stack below it is untouched and everything above carries a name generated since |
| SavePoint.FoundAgain | FMDB-CPP/c++/FMDatabase.cpp:741-754 | a savepoint is found under its name at its own place, beneath whatever a block left above it |
| SavePoint.ClosingRestores | FMDB-CPP/c++/FMDatabase.cpp:777-787 | rolling back to a savepoint and releasing it undoes exactly what was done since it was begun |
| SavePoint.NamesDiffer | FMDB-CPP/c++/FMDatabase.cpp:759-762 | two generated names are equal, even but for case, only if their numbers are |
| SavePoint.DecimalInjective | FMDB-CPP/c++/FMDatabase.cpp:762-762 | a number is determined by its decimal digits |
| SavePoint.Database.InSavePointBlock | FMDB-CPP/c++/FMDatabase.cpp:756-788 | the imperative form, with its early returns and the static counter, computes the result and state that Atomic, Succeeds and AsMeant are about |
| SavePoint.Database.RollbackToSavePointWithName | FMDB-CPP/c++/FMDatabase.cpp:741-754 | restores the contents of the most recent savepoint of that name and drops those above it, or fails and changes nothing |
| SavePoint.Database.ReleaseSavePointWithName | FMDB-CPP/c++/FMDatabase.cpp:726-739 | drops the most recent savepoint of that name and those above it, or fails and changes nothing |
| Queue.EveryRun | FMDB-CPP/c++/FMDatabaseQueue.cpp:81-106 | in every schedule what was submitted is the finished tasks in order, then the running and the pending ones, and each finished task ran whole on the database the one before it left |
| Queue.FromTheStart | FMDB-CPP/c++/FMDatabaseQueue.cpp:37-106 | so it is in every schedule from the start of a queue |
| Queue.FrontIsRun | FMDB-CPP/c++/FMDatabaseQueue.cpp:90-106 | from a test of the loop with a task in front, n + 3 turns of the worker finish it, where n is how many statements it takes, whatever else is put meanwhile |
| Queue.AllAreRun | FMDB-CPP/c++/FMDatabaseQueue.cpp:81-106 | if the tasks put so far can be run to their ends one after the other, then so many turns of the worker later they are done, with exactly those runs |
| Queue.StopEnds | FMDB-CPP/c++/FMDatabaseQueue.cpp:67-106 | once stop is set the worker leaves its loop when the task in hand is done |
| Queue.StageStep | FMDB-CPP/c++/FMDatabaseQueue.cpp:108-165 | each statement of a whole run is the one its stage asks for, and leads to the stage of the next |
| Queue.StopsSoon | FMDB-CPP/c++/FMDatabaseQueue.cpp:67-74 | once stop is set only the task in hand, or the one the worker had already passed its test for, is finished; the finished ones are a prefix of those submitted |
| Queue.ExitedForGood | FMDB-CPP/c++/FMDatabaseQueue.cpp:90-106 | after the worker has left its loop nothing changes the database or the finished tasks |
| Queue.SameOutcome | FMDB-CPP/c++/FMDatabaseQueue.cpp:81-106 | two runs, however scheduled, that finished equally many tasks submitted in the same order have the same trace, replies and database |
| Queue.TransactionTogether | FMDB-CPP/c++/FMDatabaseQueue.cpp:116-135 | in the trace of a whole run a transaction's begin, its block's own calls, and its commit or rollback as the block asked are next to each other |
| Queue.OneSerial | FMDB-CPP/c++/FMDatabaseQueue.cpp:90-106 | a serial run of given tasks is unique |
| Queue.SameRun | FMDB-CPP/c++/FMDatabaseQueue.cpp:108-165 | a task on a given database always runs the same way, refused savepoints included |
| Queue.Reaches | FMDB-CPP/c++/FMDatabaseQueue.cpp:116-165 | from any stage of any kind of task, whatever the database answers, the next stage is reached with the events a whole run would have |
| Queue.WorkedKeeps | FMDB-CPP/c++/FMDatabaseQueue.cpp:90-106 | each step of the worker loop keeps order, seriality and the stop bound |
| Queue.AfterKeeps | FMDB-CPP/c++/FMDatabaseQueue.cpp:67-106 | so does every schedule of producers, close and worker |
| Queue.FMDatabaseQueue.Take | FMDB-CPP/c++/FMDatabaseQueue.cpp:67-106 | the object, driven by any schedule, ends in the state the step functions give |
| Queue.FMDatabaseQueue.Work | FMDB-CPP/c++/FMDatabaseQueue.cpp:90-106 | one pass through a point of the worker loop, with the list, the flag and the counter as fields |
| Queue.FMDatabaseQueue.RunOn | FMDB-CPP/c++/FMDatabaseQueue.cpp:116-165 | runs the task's next statement; a savepoint takes its number as it is started |
| Glob.TestcaseGlob | FMDB-CPP/sqlite-amalgamation-3170000/shell.c:3167-3239 | for every pattern and every text, true exactly when the text splits into pieces that fit the tokens the code reads the pattern as, numbers and spans being as long as they can be; terminates |
| Glob.GlobStar | FMDB-CPP/sqlite-amalgamation-3170000/shell.c:3177-3196 | a run of stars and question marks and what follows match exactly when some split does |
| Glob.ScanClass | FMDB-CPP/sqlite-amalgamation-3170000/shell.c:3199-3227 | a class is hit exactly when the byte is in one of its ranges or single bytes, turned round by a leading caret, and fails if it is not closed |
| GlobText.ClassStep | FMDB-CPP/sqlite-amalgamation-3170000/shell.c:3199-3227 | wherever a class is written in a pattern, it takes one byte, which is one of those listed or in a listed range, or with a caret none of those; the pattern goes on behind it |
| GlobText.ListedBytes | FMDB-CPP/sqlite-amalgamation-3170000/shell.c:3199-3227 | for bytes s, [s] matches exactly the bytes of s, [^s] exactly the others, and a ] that comes first is one of them |
| GlobText.ListedRange | FMDB-CPP/sqlite-amalgamation-3170000/shell.c:3213-3216 | [lo-hi] matches exactly the bytes from lo to hi, and [^lo-hi] exactly the others |
| GlobText.ItemsEnd | FMDB-CPP/sqlite-amalgamation-3170000/shell.c:3212-3226 | a class goes up to the first closing bracket after its start |
| GlobText.NeverClosed | FMDB-CPP/sqlite-amalgamation-3170000/shell.c:3227-3227 | a pattern with a class that is not closed matches nothing |
| GlobText.PlainAlone | FMDB-CPP/sqlite-amalgamation-3170000/shell.c:3233-3238 | a pattern without special bytes matches itself, white space behind it ignored, and nothing else |
| GlobText.AroundStar | FMDB-CPP/sqlite-amalgamation-3170000/shell.c:3177-3196 | u*v matches exactly the texts that start with u and end with v behind it, white space ignored |
| GlobText.AnyStep | FMDB-CPP/sqlite-amalgamation-3170000/shell.c:3197-3198 | n question marks take exactly n bytes, whatever they are |
| GlobText.NumberAlone | FMDB-CPP/sqlite-amalgamation-3170000/shell.c:3228-3232 | # matches one or more digits with an optional sign |
| GlobText.NumberOnly | FMDB-CPP/sqlite-amalgamation-3170000/shell.c:3228-3232 | # matches nothing else, but for white space behind it |
| GlobText.SpanAlone | FMDB-CPP/sqlite-amalgamation-3170000/shell.c:3173-3176 | any number of blanks matches exactly the spans of white space |
| GlobDocumented.DocumentedExactly | FMDB-CPP/sqlite-amalgamation-3170000/shell.c:3144-3166 | code and documentation agree on all texts if and only if the pattern conforms: it can match nothing, or no star run comes right before a # or white space and no number or span before something that could take a byte of it |
| GlobDocumented.Disagree | FMDB-CPP/sqlite-amalgamation-3170000/shell.c:3173-3196 | for every pattern that does not conform, a text that the documentation matches and the code does not |
| GlobDocumented.Agree | FMDB-CPP/sqlite-amalgamation-3170000/shell.c:3144-3166 | for every pattern that conforms, the code matches a text exactly when the documentation does |
| GlobDocumented.MatchesIsSome | FMDB-CPP/sqlite-amalgamation-3170000/shell.c:3228-3232 | longest numbers and spans are numbers and spans: what matches with them matches as documented, for every pattern |
| GlobDocumented.ClearIsLongest | FMDB-CPP/sqlite-amalgamation-3170000/shell.c:3228-3232 | taking the longest number or span loses no match when what follows cannot start with a byte of it |
| GlobDocumented.Unclear | FMDB-CPP/sqlite-amalgamation-3170000/shell.c:3228-3232 | when it can, taking the longest loses a match |
| GlobDocumented.NotPlain | FMDB-CPP/sqlite-amalgamation-3170000/shell.c:3189-3196 | wherever # or white space comes right after a star run, reading it literally loses a match |
| GlobDocumented.PlainReading | FMDB-CPP/sqlite-amalgamation-3170000/shell.c:3189-3196 | everywhere else the code reads a pattern as documented |
| GlobDocumented.StarNumberFails | FMDB-CPP/sqlite-amalgamation-3170000/shell.c:3177-3196 | *# is documented to match 7 and does not |
| GlobDocumented.NumberDigitFails | FMDB-CPP/sqlite-amalgamation-3170000/shell.c:3228-3232 | #5 is documented to match 15 and does not |
| GlobDocumented.DocumentedGlob | FMDB-CPP/sqlite-amalgamation-3170000/shell.c:3144-3239 | for a pattern that conforms the matcher answers as its documentation says |
| Csv.RoundTrip | FMDB-CPP/sqlite-amalgamation-3170000/shell.c:4044-4085 | any table of strings written as CSV is imported as exactly the same rows and columns, with nothing reported on stderr |
| Csv.WriteThenImport | FMDB-CPP/sqlite-amalgamation-3170000/shell.c:1205-1221 | the writer's loops followed by the reader's loops give the rows back, fitted to the columns, with the messages due; exactly the table, and no message, if it has as many columns |
| Csv.FileBack | FMDB-CPP/sqlite-amalgamation-3170000/shell.c:4044-4085 | rows of any widths, the last line end missing or not, are inserted one for one, cut to the columns or filled up with NULL; every row of another width is reported once, with its start line and field count |
| Csv.TableBack | FMDB-CPP/sqlite-amalgamation-3170000/shell.c:4044-4085 | the same of the text the writer makes of a table |
| Csv.FieldBack | FMDB-CPP/sqlite-amalgamation-3170000/shell.c:2693-2753 | a field, quoted or not, followed by a separator or either line end is read back exactly, and the reader stops right behind it |
| Csv.QuotedBack | FMDB-CPP/sqlite-amalgamation-3170000/shell.c:2703-2739 | a quoted field is read back whatever it contains: quotes, separators, CR, LF; the line number grows by its newlines |
| Csv.PlainBack | FMDB-CPP/sqlite-amalgamation-3170000/shell.c:2740-2750 | an unquoted field is read back, and the CR of a CRLF is not part of it |
| Csv.StrayQuote | FMDB-CPP/sqlite-amalgamation-3170000/shell.c:2724-2738 | a single quote inside a quoted field is kept and reported with its line, and the field goes on to its closing quote |
| Csv.NeverClosed | FMDB-CPP/sqlite-amalgamation-3170000/shell.c:2724-2738 | a quoted field that is never closed is everything up to the end of the input, and is reported with the line it starts on |
| Csv.ShortRow | FMDB-CPP/sqlite-amalgamation-3170000/shell.c:4046-4068 | a row with too few fields has the rest bound to NULL, and is reported with its line and the number of fields |
| Csv.LongRow | FMDB-CPP/sqlite-amalgamation-3170000/shell.c:4046-4069 | of a row with too many fields the first ones are bound |
| Csv.ExtrasBack | FMDB-CPP/sqlite-amalgamation-3170000/shell.c:4069-4076 | the extra fields are read, counted and ignored, up to the end of the row |
| Csv.RowsBack | FMDB-CPP/sqlite-amalgamation-3170000/shell.c:4044-4085 | from any point in the file the rows still to come are imported after those already in, and their messages given after those already given, though bindings are reused from row to row |
| Csv.Shell.OutputCsv | FMDB-CPP/sqlite-amalgamation-3170000/shell.c:859-888 | writes the field quoted exactly when some byte calls for it or it is empty |
| Csv.WrittenAsIs | FMDB-CPP/sqlite-amalgamation-3170000/shell.c:863-876 | a field is written without quotes if and only if it is not empty and has nothing but printable ASCII that is no blank, quote, apostrophe or separator |
| Csv.Shell.OutputTable | FMDB-CPP/sqlite-amalgamation-3170000/shell.c:1205-1221 | the output grows by the text of the table |
| Csv.ImportCtx.CsvReadOneField | FMDB-CPP/sqlite-amalgamation-3170000/shell.c:2693-2753 | on every input the field, the position, the line number, the terminator and the messages are those of the specification; buffer accesses are in bounds |
| Csv.ImportCtx.QuotedByte | FMDB-CPP/sqlite-amalgamation-3170000/shell.c:2708-2739 | each byte of a quoted field, its closing, and both error messages |
| Csv.ImportCtx.Import | FMDB-CPP/sqlite-amalgamation-3170000/shell.c:4044-4085 | on every input, well formed or not, the rows inserted and the messages are those FileBack is about |
| Csv.ImportCtx.ImportAppendChar | FMDB-CPP/sqlite-amalgamation-3170000/shell.c:2668-2678 | the buffer grows when full, keeps its contents, and has the byte at its end |
| MetaCommand.RoundTrip | FMDB-CPP/sqlite-amalgamation-3170000/shell.c:3530-3550 | any arguments printed in C notation after a dot, with blanks between, come back as exactly those arguments; of more than there are slots for, the first ones |
| MetaCommand.EverySpelling | FMDB-CPP/sqlite-amalgamation-3170000/shell.c:3530-3550 | any arguments, each bare, in single quotes or in C notation, with blanks between them after a dot, come back as exactly those arguments; of more than there are slots for, the first ones |
| MetaCommand.EveryLine | FMDB-CPP/sqlite-amalgamation-3170000/shell.c:3530-3550 | so they do with any white space between, before and behind them, and with escapes in bare and in quoted words |
| MetaCommand.SpelledReads | FMDB-CPP/sqlite-amalgamation-3170000/shell.c:3533-3549 | wherever it stands, an argument spelled in one of the three ways is one token, which is the argument and ends where its text does |
| MetaCommand.WordReads | FMDB-CPP/sqlite-amalgamation-3170000/shell.c:3533-3549 | so is any word written with escapes, bare or between double quotes |
| MetaCommand.DecodeUnits | FMDB-CPP/sqlite-amalgamation-3170000/shell.c:2448-2506 | dequoting turns every escape into the byte it is documented for, up to three octal digits into their value, and leaves other bytes alone |
| MetaCommand.EscapeArgument | FMDB-CPP/sqlite-amalgamation-3170000/shell.c:3545-3549 | escapes work in bare words, as in .separator \t |
| MetaCommand.QuoteEndUnits | FMDB-CPP/sqlite-amalgamation-3170000/shell.c:3536-3539 | no escape between double quotes is mistaken for the closing quote |
| MetaCommand.OpenDouble | FMDB-CPP/sqlite-amalgamation-3170000/shell.c:3536-3543 | a double quote that is not closed takes the rest of the line |
| MetaCommand.OpenSingle | FMDB-CPP/sqlite-amalgamation-3170000/shell.c:3536-3543 | so does a single one |
| MetaCommand.DecodeEscapeAll | FMDB-CPP/sqlite-amalgamation-3170000/shell.c:2464-2506 | dequoting undoes the printer's escapes for every byte string, octal escapes included |
| MetaCommand.ParseLine | FMDB-CPP/sqlite-amalgamation-3170000/shell.c:3530-3550 | on every line the in-place tokenizer leaves, at the positions it records, exactly the tokens of the line, none disturbed by later ones |
| MetaCommand.ResolveBackslashes | FMDB-CPP/sqlite-amalgamation-3170000/shell.c:2464-2506 | the in-place loop computes the decoding of the string; nothing outside it is written |
| MetaCommand.DecodeFrom | FMDB-CPP/sqlite-amalgamation-3170000/shell.c:2468-2505 | the same from the first backslash on; the write index never passes the read index |
| MetaCommand.DecodeOne | FMDB-CPP/sqlite-amalgamation-3170000/shell.c:2469-2502 | one byte or one escape, a backslash at the very end standing for itself |
| MetaCommand.OutputCString | FMDB-CPP/sqlite-amalgamation-3170000/shell.c:767-793 | prints the string in C notation between double quotes |
| Pretty.PrettyPrint | FMDB-CPP/sqlite-amalgamation-3170000/shell.c:1104-1146 | the pieces printed, put together, are the statement but for white space; both passes stay inside the buffer |
| Pretty.LineStructure | FMDB-CPP/sqlite-amalgamation-3170000/shell.c:1118-1145 | just inside the outermost parentheses an opening parenthesis, a comma or a line end finishes a line, and after the first line the closing parenthesis starts one; no line ends anywhere else |
| Pretty.LaidOnce | FMDB-CPP/sqlite-amalgamation-3170000/shell.c:1118-1145 | that determines the lines: where each ends, what is in it and what is printed after it |
| Pretty.LinesLoseNothing | FMDB-CPP/sqlite-amalgamation-3170000/shell.c:1118-1145 | breaking into lines drops nothing but white space, from any point of the scan |
| Pretty.TidiedIsTidy | FMDB-CPP/sqlite-amalgamation-3170000/shell.c:1106-1116 | the first pass leaves no leading, trailing or doubled white space, none after an opening and none before any parenthesis, and takes away nothing else |
| Pretty.TidiedAgain | FMDB-CPP/sqlite-amalgamation-3170000/shell.c:1106-1116 | the first pass is idempotent |
| Pretty.TidiedWords | FMDB-CPP/sqlite-amalgamation-3170000/shell.c:1106-1116 | every word is kept, and between two words one byte of the white space there was, or none after an opening or before any parenthesis; white space at either end goes |
| Pretty.TidyInPlace | FMDB-CPP/sqlite-amalgamation-3170000/shell.c:1106-1116 | the in-place loops compute the tidied statement |
| Pretty.BreakLines | FMDB-CPP/sqlite-amalgamation-3170000/shell.c:1118-1145 | the in-place second pass, which cuts lines off with a temporary terminator, prints exactly the specified lines |
| Pretty.PrintSchemaLineN | FMDB-CPP/sqlite-amalgamation-3170000/shell.c:962-967 | prints the first n bytes and leaves the buffer as it was |
| Quoting.OutputQuotedString | FMDB-CPP/sqlite-amalgamation-3170000/shell.c:735-762 | both the plain and the chunk-skipping path print the doubled text between quotes |
| Quoting.SetTableName | FMDB-CPP/sqlite-amalgamation-3170000/shell.c:1303-1334 | quotes every name that is not an identifier, and writes every byte it allocated and no other |
| Quoting.TableNameBack | FMDB-CPP/sqlite-amalgamation-3170000/shell.c:1303-1334 | read back as an identifier or a quoted text, what is written for a table's name is the name, whatever follows, if and only if the name is no keyword |
| Quoting.EscapeSavePointName | FMDB-CPP/c++/FMDatabase.cpp:701-709 | inserting in place, which moves the text still to be searched, gives the doubled name |
| Quoting.DoublingUndone | FMDB-CPP/sqlite-amalgamation-3170000/shell.c:1366-1369 | halving doubled quotes gives the text back |
| Quoting.DoublingInjective | FMDB-CPP/c++/FMDatabase.cpp:701-709 | different texts have different doubled forms |
| Quoting.DoubledLength | FMDB-CPP/sqlite-amalgamation-3170000/shell.c:1350-1356 | the measured length of a doubled text is exact |
| Quoting.ReadQuotedBack | FMDB-CPP/sqlite-amalgamation-3170000/shell.c:1363-1371 | a quoted text inside a longer one is read back, and the reader stops at its closing quote |
| Quoting.AppendText | FMDB-CPP/sqlite-amalgamation-3170000/shell.c:1344-1379 | the text grows by the plain or quoted piece; the buffer is filled to its last byte |
| Quoting.AppendPieces | FMDB-CPP/sqlite-amalgamation-3170000/shell.c:1344-1379 | any sequence of calls whose lengths neither strlen30 nor an int cuts short builds the concatenation of the pieces in exactly the measured length |
| Quoting.DumpedNameReadBack | FMDB-CPP/sqlite-amalgamation-3170000/shell.c:2088-2096 | reading the literal in the dump query and then the identifier in it gives the table's name, whatever it is and whatever follows |
| Quoting.BuildDumpHead | FMDB-CPP/sqlite-amalgamation-3170000/shell.c:2088-2096 | the buffer the calls build holds the name so that it can be read back |
| Explain.ShellState.ExplainDataPrepare | FMDB-CPP/sqlite-amalgamation-3170000/shell.c:1701-1778 | entry i of the indent array is twice the number of opcodes that end a loop around i; a statement that is no EXPLAIN leaves the array alone; every access is inside the grown allocation |
| Explain.ShellState.TakeOp | FMDB-CPP/sqlite-amalgamation-3170000/shell.c:1761-1772 | taking in one more opcode keeps that true of all opcodes so far |
| Explain.NestedLoops | FMDB-CPP/sqlite-amalgamation-3170000/shell.c:1690-1699 | code made of nested loops, as a compiler emits it, has every opcode indented by how deep it is nested |
| Explain.AroundNext | FMDB-CPP/sqlite-amalgamation-3170000/shell.c:1765-1772 | one more opcode adds one loop to exactly the opcodes from its target up to itself |
| Explain.SubPrograms | FMDB-CPP/sqlite-amalgamation-3170000/shell.c:1732-1738 | the listing of a sub-program, whose addresses start again, is indented as it would be on its own, and does not change what comes before |
| GetLine.File.LocalGetline | FMDB-CPP/sqlite-amalgamation-3170000/shell.c:508-545 | returns the next line, however long, without its final LF or CRLF, and null exactly at the end; the buffer always has room for the next chunk; the loop ends |
| GetLine.ReadLines | FMDB-CPP/sqlite-amalgamation-3170000/shell.c:508-545 | repeated calls that reuse the buffer return the lines of the input |
| GetLine.LinesBack | FMDB-CPP/sqlite-amalgamation-3170000/shell.c:520-532 | lines written with any mixture of endings, the last perhaps with none, are read back exactly |
| GetLine.EveryInput | FMDB-CPP/sqlite-amalgamation-3170000/shell.c:520-532 | every input is written that way, so its lines are determined |
| GetLine.Grow | FMDB-CPP/sqlite-amalgamation-3170000/shell.c:513-517 | leaves room for at least 100 more bytes and keeps what was read |
| TablesLayout.EachName | FMDB-CPP/sqlite-amalgamation-3170000/shell.c:5022-5034 | every name is printed, blanks behind it, in one cell of the grid and in no other, at that cell's place in its line, down the columns in order |
| TablesLayout.EachLine | FMDB-CPP/sqlite-amalgamation-3170000/shell.c:5022-5034 | a line has nothing but its cells, at least one and at most as many as there are columns |
| TablesLayout.Width | FMDB-CPP/sqlite-amalgamation-3170000/shell.c:5022-5034 | no line is wider than 80 if and only if no name is |
| TablesLayout.RowsEnough | FMDB-CPP/sqlite-amalgamation-3170000/shell.c:5024-5024 | the computed lines times columns hold all the names, with no line empty |
| TablesLayout.Grid | FMDB-CPP/sqlite-amalgamation-3170000/shell.c:5022-5024 | there are as many columns as fit in 80, but at least one, and no more lines than the names need |
| TablesLayout.Shell.PrintTables | FMDB-CPP/sqlite-amalgamation-3170000/shell.c:5015-5034 | the loops print exactly the table those lemmas are about |

## Left out

Where code and documentation disagree, the code is followed:

- The comment at shell.c:3144-3166 promises more than the code does for some patterns; `GlobDocumented.DocumentedExactly` says for which.
- The comment at shell.c:1690-1699 names fewer loop opcodes than the code's tables and a P1 of one where the code takes any P1 but zero; the tables are modelled.
- The `\s` listed at shell.c:2458 is not implemented, and is not in the model.

Statement cache:

- FMDB.Run: every call of a run has the right number of arguments; what a wrong number does is stated by ExecuteQuery and ExecuteUpdate. A refused update returns a null pointer converted to false, modelled as false.
- FMDB.FMDatabase.ClearCachedStatements: the order in which the hash table is walked is left open, which covers every order.
- Preparing blank SQL text succeeds without a handle in SQLite, and FMDatabase then opens a result set on a statement that has none; in the model every text that compiles has a handle.
- A step's outcome does not depend on which other statements are active.
- Resetting and finalizing a statement are taken to leave the contents of the database alone; what a step does is an arbitrary function.
- The ghost parameters owner and id of the methods of statements and result sets name the database and the set's number; they carry no information at run time. Shares held by local variables during a call are not counted.
- Opening, closing and reopening a database, closeOpenResultSets (which edits the vector it walks), the branch for a missing database, log output and Error objects.
- Binding with SQLITE_STATIC and lambdas that capture by reference: values and blocks are copied.
- columnIndexForName and the other column accessors, Variant, Date, pragma wrappers and the busy handler.

Savepoints and queue:

- SavePoint.Atomic: at most 2^64 calls of inSavePoint are made, as the counter wraps around there. Blocks do not name savepoints of their own. SQLite's own rollback of a whole transaction after certain errors is not modelled.
- Queue.AllAreRun: progress is counted in turns of the worker; that blocks return is a premise, given by the runs.
- Queue.EveryRun: steps on the task list and the stop flag are atomic, though the worker takes no lock at FMDatabaseQueue.cpp:94-101. Tasks do not submit tasks, as checkWhenInvoke demands. Sleeping, joining and interrupting are left out.
- The value inSavePoint of the queue returns is read before its task has run and is not modelled. Its counter is shared by all queues of a process; the model has one queue.

Shell:

- Csv.FileBack: rows have at least one field, strings are not NULL, the column separator is one ASCII byte that is not a quote, CR or LF, and the row separator is LF or CRLF. Column headers, ASCII mode and interrupts are left out.
- MetaCommand.ParseLine: the number of slots, 50 in do_meta_command, is a parameter.
- GlobText.ClassStep: items that start with a dash, and ranges from a byte above 127 (the code reads their dash as a member), are covered by TestcaseGlob only.
- Csv.StrayQuote: a CR right behind a quote is not reported, and is covered by CsvReadOneField only.
- Pretty.PrettyPrint: views and triggers are printed as they are, and a NULL statement not at all; printSchemaLine's IF NOT EXISTS for shadow tables is left out.
- Quoting.AppendPieces: no call is given lengths of 2^30 or more, where strlen30 starts to cut, or builds a text of 2^31 bytes or more. Running out of memory is left out, here and elsewhere.
- Explain.ShellState.ExplainDataPrepare: jumps do not go to before the first opcode, and addresses are unbounded integers. Printing with the indents is left out.
- GetLine.File.LocalGetline: the input has no NUL byte, and buffer sizes are unbounded integers. The Windows translation is left out.
- TablesLayout.Shell.PrintTables: widths count bytes. The query that collects the names, and the array it grows, are left out.
- In classes of Glob patterns bytes are compared as signed characters, and classification is that of the C locale.
- SQL itself, sessions, statistics, readline, help text and the Windows branches.
