# mutest-rs, modelled and proved

mutest-rs runs mutants of a Rust crate in worker processes that may crash, and reports a verdict of each mutation. This
project models the parts of it that keep those verdicts right, in Dafny, and proves what they promise:

- **The journal.** A worker appends a JSON row for each mutation it starts or finishes; the supervisor cuts a torn row,
  marks what is unfinished, and starts another worker. `Json`, `JsonWriter`, `JsonParser` and `JsonRoundTrip` are the
  printer and the parser, and `JsonGrammar` is the language that the parser accepts. `Journal`, `JournalRows` and
  `JournalFile` are the rows and the file, as bytes, and `JournalSays` says over rows what a journal means. `JournalRun`
  is the whole supervised run as a transition system, with a crash possible at every byte, and `AnalysisRun` and
  `Analysis` are one worker's pass, from the results it takes over to the counts it reports.
- **Highlighted source.** `SyntaxHighlight` keeps, for each line of HTML, which piece of it stands for which piece of the
  source, while tags are put around ranges of it. `Markup` says independently what it means for tags to nest, and what a
  page shows. `SnippetLines` marks the definition and the calls of a line with such tags.
- **Isolated tests.** `Subprocess` is the monitor's polling loop and the frame that an owner process reports in;
  `SubprocessRun` runs owner, monitor, cancellation, pipes and clock against each other in every interleaving.
- **Threads and schedules.** `ThreadPool` takes the pool one atomic step of a thread at a time; `Scheduler` is the loop
  that runs compatible mutants side by side, over the conflicts of `Conflicts`; `TestOrder` is the order of a batch's
  tests, and `ScheduledPass` connects the loop to the pass that records what it runs.
- **Verdicts.** `TestRunner` is the loop that runs a stage's tests, some at once, and gives up those past their timeout;
  `VerdictFold` puts two stages and the handler of results together, with and without early stops. `FullRun` says
  exactly which tests an exhaustive run is sure to report and what it detects. `EarlyStop` has the condition for runs
  that stop early, `EarlyFront` and `EarlyDetect` show that it is enough, `RunSteps`, `EarlyRuns`, `EarlyGiveUp` and
  `EarlyMiss` build runs that miss the mutation without it, and `EarlyExact` and `EarlyAgree` state the equivalences.
- **Reports.** `Progress` writes the progress records, `Subsumption` fills the subsumption matrix, `CallGraph` searches
  call traces, `FileTree` turns sorted paths into a tree of entries, and `ExitCode` and `ExitLog` read the exit codes of
  many harnesses from one log.

Code that changes things step by step is modelled as methods over classes and arrays, each proved against a function or
a stated property; protocols between threads or processes are transition systems, with an invariant that each step
keeps. `dafny verify dfyconfig.toml` checks everything.

Some statements need a condition that the code meets elsewhere. `Scheduler` assumes that in-process mutants which do not
conflict share no substitution location, as the code generator arranges. `VerdictFold`, what builds on it, and the
balance in `TestOrder` assume that each test reaches exactly one mutation of the mutant, as batches do, and has a name of
its own; the results on early stops also that only tests of child processes report a crash, as a test that crashes takes
its process with it (mutest-runtime/src/test_runner.rs:163-182). Each stage finds its own number of slots
(mutest-runtime/src/test_runner.rs:574-577), so the two may differ. `TestOrder` needs every test to reach some mutation,
or else the loop of the source would not end. `SubprocessRun` bounds time by rounds of the polling loop.

Five statements that a reader may expect are false of the code, and are proved with their exact condition instead:

- `is_finished` of a job handle means that the job ran, except for a job lost in the channel of a pool of no threads
  (`ThreadPool.FinishedMeansWritten`, `ThreadPool.LostJobLooksFinished`).
- An overlay of an empty range is accepted, except where an overlay of nothing lies already
  (`SyntaxHighlight.OutOfOrder`, `SyntaxHighlight.OverlayNothingTwice`).
- A run of all tests detects what some test fails, except behind as many timeouts as there are slots: if all running
  tests are given up at once, the loop of this process ends with tests in its queue (`FullRun.FullRunDetects`,
  `FullRun.TimeoutMayHideDetection`). The same goes for what is left undetected (`FullRun.FullRunLeavesUndetected`).
- A run that stops early detects what some test fails, except where a timeout can come before the tests that fail, or
  next to them while every mutation can be decided, or where timeouts of another mutation can end the stage before them
  (`EarlyExact.EarlyStopDetects`, `EarlyAgree.SlowTestMayHideOther`, `EarlyAgree.EarlyStopMayMiss`).
- Stopping early and running all tests agree on what is undetected, except where the latter may be given up before every
  test that does not pass (`EarlyAgree.EarlyStopAgrees`, `EarlyAgree.EarlyStopMayDisagree`).

## Model

| member | source | states |
|---|---|---|
| `Utf8.DecodeEncode` | mutest-runtime/src/json.rs:80 | decoding the UTF-8 bytes of any text gives the text back |
| `Utf8.IsUtf8Append` | mutest-runtime/src/json.rs:80 | texts that are UTF-8 on their own are UTF-8 when they are joined |
| `JsonWriter.Writer.WriteStr` | mutest-runtime/src/json.rs:69-83 | appends the quoted and escaped string, and nothing else, to what was written before |
| `JsonWriter.Writer.WriteValue` | mutest-runtime/src/json.rs:117-219 | appends exactly the printed form of a value of any depth |
| `JsonWriter.Writer.WriteItems` | mutest-runtime/src/json.rs:192-219 | an array gets a comma between its elements and none before the first |
| `JsonWriter.Writer.WriteFields` | mutest-runtime/src/json.rs:208-219 | an object gets its fields in order, with a comma between them |
| `JsonWriter.ObjectBuilder.Field` | mutest-runtime/src/json.rs:53-60 | one more field; after the first field that fails to serialize, no later call changes anything |
| `JsonWriter.ObjectBuilder.IntoVec` | mutest-runtime/src/json.rs:62-66 | the object built field by field has the bytes of the whole object printed at once, unless a field failed |
| `JsonRoundTrip.EscapeCharIsSafe` | mutest-runtime/src/json.rs:71-80 | a printed character has no control byte, and a quote or backslash is never printed unescaped |
| `JsonRoundTrip.PrintIsClean` | mutest-runtime/src/json.rs:69-83 | a printed value is UTF-8 and has no control byte, so no raw newline |
| `JsonRoundTrip.ParsePrinted` | mutest-runtime/src/json.rs:329-418 | reading a printed value gives it back and stops right behind it, whatever follows |
| `JsonRoundTrip.RoundTrip` | mutest-runtime/src/json.rs:289-293 | the text of any value is read as that value |
| `JsonRoundTrip.ExtendValue` | mutest-runtime/src/json.rs:329-418 | more bytes behind a value that was read do not change what is read, unless a number goes on |
| `JsonRoundTrip.NoProperPrefix` | mutest-runtime/src/json.rs:289-293 | no proper prefix of a printed value other than a number is accepted |
| `JsonGrammar.ReadsWhatIsSpelled` | mutest-runtime/src/json.rs:289-418 | a text is read as a value exactly if it spells it by the grammar of `JsonGrammar`: with any whitespace around values and keys, commas only between elements, any of its escapes with hexadecimal digits in either case, and nothing else |
| `JsonGrammar.CodeIs` | mutest-runtime/src/json.rs:382-386 | a character code is read exactly as the character its four digits are, of which the first may be a plus sign |
| `JsonParser.Parser.SkipWhitespace` | mutest-runtime/src/json.rs:305-307 | moves to the first byte that is no JSON whitespace |
| `JsonParser.Parser.Keyword` | mutest-runtime/src/json.rs:315-319 | takes the keyword if it stands here, and fails otherwise |
| `JsonParser.Parser.Number` | mutest-runtime/src/json.rs:351-356 | takes the longest run of digits, and fails for one beyond 64 bits |
| `JsonParser.Parser.String` | mutest-runtime/src/json.rs:358-372 | reads plain runs and escapes up to the closing quote as the specified text |
| `JsonParser.Parser.Escape` | mutest-runtime/src/json.rs:374-389 | reads each escape, and a code of four hexadecimal digits, as the specified character |
| `JsonParser.Parser.Field` | mutest-runtime/src/json.rs:391-399 | reads a key, the colon and the value as specified |
| `JsonParser.Parser.List` | mutest-runtime/src/json.rs:401-417 | the loop over the elements reads what the recursive reading of an array specifies, with the same failures |
| `JsonParser.Parser.Fields` | mutest-runtime/src/json.rs:401-417 | the same for the fields of an object |
| `JsonParser.Parser.Value` | mutest-runtime/src/json.rs:329-349 | reads a value of any kind as specified |
| `JsonParser.FromStr` | mutest-runtime/src/json.rs:289-293 | reads a text as exactly the value that it spells, and fails if it spells none |
| `JournalRows.DecodeEncodeRecord` | mutest-runtime/src/journal.rs:54-76 | each kind of row is read back as the record it was written from |
| `JournalRows.BodyIsOneLine` | mutest-runtime/src/journal.rs:84-89 | a row is UTF-8, has no newline but its last byte, and is read as its record |
| `JournalRows.ReadRows` | mutest-runtime/src/journal.rs:142-149 | whole rows are read in order as their records, whatever follows them |
| `JournalRows.CutRows` | mutest-runtime/src/journal.rs:128-139 | cutting removes exactly what follows the last newline |
| `JournalRows.CrashAtAnyByte` | mutest-runtime/src/journal.rs:84-149 | a write cut short at any byte leaves, after the cut, exactly the rows whose newline was written, and the next row joins no fragment |
| `JournalRows.ReadTornRow` | mutest-runtime/src/journal.rs:141-149 | without the cut, a torn row makes the journal unreadable, unless none of its bytes or all but the newline were written |
| `JournalFile.AscendingLists` | mutest-runtime/src/journal.rs:122-124 | the ids of a set are listed once each, in ascending order |
| `JournalFile.Entries.Add` | mutest-runtime/src/journal.rs:103-113 | adds what a record says; the first profile is kept |
| `JournalFile.Entries.Finish` | mutest-runtime/src/journal.rs:115-120 | keeps the result, and reports a second one of the same mutation as an error |
| `JournalFile.File.CutTornRow` | mutest-runtime/src/journal.rs:133-139 | the file keeps its whole rows |
| `JournalFile.File.Read` | mutest-runtime/src/journal.rs:142-149 | reads the lines of the file one by one as the entries they add up to, or fails at the first that cannot be read |
| `JournalFile.File.IsolateUnfinished` | mutest-runtime/src/journal.rs:222-231 | cuts the torn row, and appends one row with exactly the ids that some row names as started, no row has a result of and no row isolates, if there are any |
| `JournalFile.File.Unfinished` | mutest-runtime/src/journal.rs:217-219 | lists exactly the ids that some row names as started and no row has a result of |
| `JournalFile.File.IsEmpty` | mutest-runtime/src/journal.rs:238-240 | true if no mutation was started |
| `JournalFile.WorkerJournal.Append` | mutest-runtime/src/journal.rs:329-341 | whatever any number of writes come to, the rows written whole stand in order behind what the file held, and behind them at most a part of one more; nothing is written after a write that failed |
| `JournalFile.WorkerJournal.ReadsBack` | mutest-runtime/src/journal.rs:329-341 | after any writes, the journal without its torn row reads as what the worker found and the rows it wrote whole |
| `JournalSays.RowsSay` | mutest-runtime/src/journal.rs:103-124 | what rows add up to is what they say: an id is started, isolated or finished exactly if some row says so, with the result of that row |
| `JournalSays.ReadSays` | mutest-runtime/src/journal.rs:142-149 | the same of any bytes that can be read, by the records of their lines |
| `JournalSays.UnfinishedIs` | mutest-runtime/src/journal.rs:122-124 | an id is unfinished exactly if some row names it as started and no row has its result |
| `JournalSays.RecordsOfRows` | mutest-runtime/src/journal.rs:142-149 | the records of written rows are those they were written from |
| `JournalRows.ReadBehind` | mutest-runtime/src/journal.rs:142-149 | whatever a file holds, what is appended behind its last newline is read after it |
| `JournalRun.WriteKeeps` | mutest-runtime/src/journal.rs:329-378 | a worker that writes any number of bytes of a row, and may crash then, leaves whole rows and at most one torn one |
| `JournalRun.SuperviseKeeps` | mutest-runtime/src/supervisor.rs:144-165 | isolating what is unfinished marks no mutation twice, and counts a restart only with progress |
| `JournalRun.RunKeeps` | mutest-runtime/src/supervisor.rs:95-165 | in every state of every run the file holds whole rows in order and one torn row at most, and each state only adds rows |
| `JournalRun.VerdictsAreKept` | mutest-runtime/src/journal.rs:103-124 | no mutation ever has two finished rows, none is isolated twice, and no verdict changes or disappears across crashes and restarts |
| `JournalRun.CompletedRunHasEveryVerdict` | mutest-runtime/src/journal.rs:282-284 | a run that completes has one verdict of every mutation, and leaves no torn row |
| `JournalRun.WorkersStart` | mutest-runtime/src/journal.rs:286-308 | a worker that starts, first or after a crash, can always read the journal, and each mutation that some row names as started and none has a result of is isolated by a row |
| `JournalRun.SupervisorRestarts` | mutest-runtime/src/supervisor.rs:144-165 | after a crash there is another worker exactly if some row started a mutation that none finished or isolated, or more rows finish one than at the crash before; all such mutations are isolated then |
| `JournalRun.RestartsAreBounded` | mutest-runtime/src/supervisor.rs:144-165 | there are at most two restarts for each mutation: one that isolates it, one that finishes it |
| `JournalRun.IsolatingAgainAddsNothing` | mutest-runtime/src/journal.rs:222-231 | isolating twice with no worker in between marks nothing more and leaves the file as it is |
| `Analysis.TallyCounts` | mutest-runtime/src/harness.rs:465-472 | each count is the number of recorded verdicts of its kind, and detected ones are what is left of the total |
| `Analysis.SafeIsPartOfAll` | mutest-runtime/src/harness.rs:521-529 | no subtraction of safe counts underflows, and what it leaves are the counts of the unsafe mutations |
| `Analysis.Results.Record` | mutest-runtime/src/harness.rs:531-568 | counts one more result, in all, among the safe ones, and for its operator |
| `Analysis.Results.UnsafeStats` | mutest-runtime/src/harness.rs:521-529 | the counts of the mutations that are not safe |
| `AnalysisRun.Pass.RecordEarlierResults` | mutest-runtime/src/journal.rs:293-301 | takes over the verdict of each mutation that earlier workers finished, once, and writes no row |
| `AnalysisRun.Pass.WriteStarted` | mutest-runtime/src/harness.rs:571-575 | writes just the row of the mutations that start |
| `AnalysisRun.Pass.RecordFinished` | mutest-runtime/src/harness.rs:577-583 | writes the verdict and records it: what is recorded stays what the journal holds |
| `AnalysisRun.Pass.FinishMutation` | mutest-runtime/src/harness/timeouts.rs:61-78 | defers a mutation that timed out if each test of it that timed out had a short limit or none, and records any other with its row |
| `AnalysisRun.RerunsHaveMoreTime` | mutest-runtime/src/harness/timeouts.rs:56-64 | a timeout is unsure exactly if each test that used up its limit gets a longer one in the rerun |
| `AnalysisRun.Pass.RunMutant` | mutest-runtime/src/harness.rs:645-678 | runs a mutant unless all of it was finished before; each of its mutations that was not is deferred if its own outcome is unsure, or has a row and a verdict of its own outcome |
| `AnalysisRun.Pass.RunMutants` | mutest-runtime/src/harness.rs:638-680 | runs every mutation that no earlier worker finished, once, each settled by its own outcome |
| `AnalysisRun.PickPartitions` | mutest-runtime/src/harness/timeouts.rs:89-90 | splitting the deferred mutations by isolation loses and repeats none |
| `AnalysisRun.Pass.ConfirmTimeouts` | mutest-runtime/src/harness/timeouts.rs:80-105 | runs every deferred mutation again, those in this process first, and writes and records exactly the result of its own rerun for each |
| `AnalysisRun.Pass.Run` | mutest-runtime/src/harness.rs:609-680 | however the tests of mutants that run one after another come out, every mutation ends up recorded exactly once: with the verdict an earlier worker found, that of its own outcome, or if that is unsure that of its own rerun; the totals count each once |
| `AnalysisRun.Pass.RunSideBySide` | mutest-runtime/src/harness.rs:698-763 | mutants that the dynamic scheduler runs side by side may complete in any order: each that no earlier worker finished is settled once, by its own outcome |
| `AnalysisRun.Pass.FinishAll` | mutest-runtime/src/harness.rs:753-769 | the mutations that completed together are each deferred or recorded, by their own outcome |
| `AnalysisRun.Pass.RunScheduled` | mutest-runtime/src/harness.rs:609-775 | the same guarantee for a pass whose mutants run side by side |
| `AnalysisRun.RowsAreWrites` | mutest-runtime/src/journal.rs:329-378 | the rows of a pass are writing steps of the supervised run, one after another |
| `AnalysisRun.PassCompletesRun` | mutest-runtime/src/journal.rs:282-308 | a worker of a supervised run that gets through its pass completes that run, whose journal then has a verdict of every mutation |
| `Markup.UnescapeEscape` | mutest-inspector/src/syntax_highlight.rs:196-201 | what a page shows of an escaped text is the text |
| `Markup.ScanInside` | mutest-inspector/src/syntax_highlight.rs:35 | tags that nest on their own nest inside any open tags |
| `Markup.WrappedShows` | mutest-inspector/src/syntax_highlight.rs:64-65 | tags around nested markup nest, and show the same text |
| `SyntaxHighlight.TiledShows` | mutest-inspector/src/syntax_highlight.rs:12-22 | every run of segments has nested tags and shows exactly its piece of the source |
| `SyntaxHighlight.WrapTiles` | mutest-inspector/src/syntax_highlight.rs:64-115 | after an insertion the segments tile the source and the new HTML |
| `SyntaxHighlight.LocatedEncloses` | mutest-inspector/src/syntax_highlight.rs:36-60 | the range found encloses the one asked for, and is larger only where an unbreakable segment lies across its end |
| `SyntaxHighlight.OutOfOrder` | mutest-inspector/src/syntax_highlight.rs:77-83 | the splice is out of order, and panics, exactly if the range is empty and a segment of no text lies at it |
| `SyntaxHighlight.MappedLine.PushEscaped` | mutest-inspector/src/syntax_highlight.rs:190-248 | adds the escaped text; each special character is a segment of its own, each text between them one breakable segment |
| `SyntaxHighlight.MappedLine.PushHighlighted` | mutest-inspector/src/syntax_highlight.rs:269-292 | adds highlighted text as one unbreakable segment with its tags |
| `SyntaxHighlight.MappedLine.ShiftTail` | mutest-inspector/src/syntax_highlight.rs:111-115 | moves the segments behind an insertion, and no other |
| `SyntaxHighlight.MappedLine.Splice` | mutest-inspector/src/syntax_highlight.rs:77-115 | puts the new segment in place of those it covers, with what is left of the broken ones around it |
| `SyntaxHighlight.MappedLine.InsertUnbreakableSegment` | mutest-inspector/src/syntax_highlight.rs:35-116 | keeps the tiling and the nesting; puts the tags around a range that encloses the asked one and breaks no unbreakable segment; segments outside stay; panics exactly in the stated cases |
| `SyntaxHighlight.MappedLine.ShowsItsSource` | mutest-inspector/src/syntax_highlight.rs:176-360 | a line has nested tags and shows exactly its source |
| `SyntaxHighlight.OverlayNothingTwice` | mutest-inspector/src/syntax_highlight.rs:77-83 | such a line can be reached: an overlay of nothing in plain text is accepted, and the same overlay again panics |
| `SnippetLines.MarkStays` | mutest-inspector/src/syntax_highlight.rs:35-116 | no overlay breaks the span of an earlier one, whether it lies in front of it, behind it or around it |
| `SnippetLines.EachIsMarked` | mutest-inspector/src/server.rs:915-921 | after all overlays, the text of each region stands in a span of its class |
| `SnippetLines.MarkRegions` | mutest-inspector/src/server.rs:915-921 | marks the definition, then each call in order, with its class, and stops exactly at the first region that panics; in the end each region is marked and the line still shows its source text and nothing else; regions within the line never panic |
| `Subprocess.LittleEndianRoundTrip` | mutest-runtime/src/subprocess.rs:587-590 | a number written as little-endian bytes is read back |
| `Subprocess.DecodeWritten` | mutest-runtime/src/subprocess.rs:586-599 | any frame an owner writes is decoded as its outcome, status and nanoseconds |
| `Subprocess.StatusTells` | mutest-runtime/src/test_runner.rs:163-182 | each end of a process, passing, failing, exiting with another code or killed by a signal with or without a core file, is told apart from its wait status, and a pass in time from a late one |
| `Subprocess.DecodeEnd` | mutest-runtime/src/subprocess.rs:586-599 | the frame of a test that ended by itself is decoded as that end |
| `Subprocess.Capture.Take` | mutest-runtime/src/subprocess.rs:52-60 | however the output is split into reads, its first bytes up to the limit are kept and the others counted |
| `Subprocess.Monitor.ReadStage` | mutest-runtime/src/subprocess.rs:523-531 | the first byte starts the test's time unless it is cancelled; a whole frame leaves time to report |
| `Subprocess.FrameInPieces` | mutest-runtime/src/subprocess.rs:601-619 | however the channel splits it, the completion frame is read, or refused for its length or its first byte, as if it came at once |
| `Subprocess.DeadlineMovesOncePerCause` | mutest-runtime/src/subprocess.rs:511-578 | over any sequence of reads, cancellations and waits, each of ready, cancelled, reported and exited moves the deadline at most once, and none of them nor a byte of the frame is forgotten |
| `Subprocess.CancelsAtMostOnce` | mutest-runtime/src/subprocess.rs:534-542 | over any such sequence the owner is asked to cancel at most once, and never after it reported or exited |
| `Subprocess.DeadlineIsOfLastNews` | mutest-runtime/src/subprocess.rs:511-578 | at every point the deadline is exactly what the last news allows for: the startup, the test with its cleanup and report, the cleanup and report of a cancelled one, or one report limit |
| `Subprocess.GivesUpWhenTimeIsUp` | mutest-runtime/src/subprocess.rs:571-578 | the monitor gives up exactly if it is not complete and that time is used up, never earlier |
| `Subprocess.ReturnsReport` | mutest-runtime/src/subprocess.rs:571-599 | with the frame an owner wrote, a result is returned exactly if the owner exited and both pipes ended, and it tells how the test ended; the loop goes on exactly before that and before the deadline |
| `Subprocess.Monitor.PollOnce` | mutest-runtime/src/subprocess.rs:560-578 | one round of the loop does the steps of the specified monitor in order |
| `SubprocessRun.StepKeeps` | mutest-runtime/src/subprocess.rs:549-818 | every step of owner, monitor, cancellation, pipes and clock keeps the invariant of the protocol |
| `SubprocessRun.ResultsAreReported` | mutest-runtime/src/subprocess.rs:549-599 | a result is returned only for a whole frame written after the descendants were killed, a successful exit and both pipes read, and tells how the test of the owner ended |
| `SubprocessRun.ReportsFollowCleanup` | mutest-runtime/src/subprocess.rs:786-816 | no byte of a report is written before all descendants are killed |
| `SubprocessRun.MonitorIsBounded` | mutest-runtime/src/subprocess.rs:509-584 | with a timeout the monitor polls no longer than the startup limit, the timeout, two cleanup limits, four report limits and five rounds |
| `SubprocessRun.RunIsBounded` | mutest-runtime/src/subprocess.rs:471-578 | from the start until the owner is gone: dropping it adds nothing to a result, and to a failure at most its time to clean up, to report, and to be waited for once killed |
| `SubprocessRun.CancellationIsBounded` | mutest-runtime/src/subprocess.rs:511-542 | from a cancellation on it polls no longer than the cleanup limit, three report limits and three rounds, so a later start gains no time |
| `SubprocessRun.StepsArePoll` | mutest-runtime/src/subprocess.rs:560-578 | the three steps of the monitor in the protocol come to one round of the loop, whatever owner, pipes and clock do in between |
| `ThreadPool.AdvanceKeeps` | mutest-runtime/src/thread_pool.rs:128-156 | each step of a worker keeps the packets, references, flags and counts in line |
| `ThreadPool.StepKeeps` | mutest-runtime/src/thread_pool.rs:119-203 | every step of submitters, workers and handles keeps the invariant of the pool |
| `ThreadPool.JobsRunOnce` | mutest-runtime/src/thread_pool.rs:128-148 | no job runs twice in any interleaving |
| `ThreadPool.CountsAreExact` | mutest-runtime/src/thread_pool.rs:135-153 | the queued and active counts are the jobs in flight, with the named transient steps, and at most as many workers are active as the pool has |
| `ThreadPool.CountsNeverUnderflow` | mutest-runtime/src/thread_pool.rs:135-153 | a step that lowers a count finds it above zero |
| `ThreadPool.UnwrapsAreSafe` | mutest-runtime/src/thread_pool.rs:63-73 | after its wait, joining finds the result and holds the only reference, and the thread id is there |
| `ThreadPool.JoinGivesTheOutcome` | mutest-runtime/src/thread_pool.rs:63-73 | joining gives what the one run of the job came to, and the thread id is that of the worker that ran it |
| `ThreadPool.FirstSentFirstTaken` | mutest-runtime/src/thread_pool.rs:132-137 | in every run, messages leave the channel in the order in which they were sent into it |
| `ThreadPool.FinishedMeansWritten` | mutest-runtime/src/thread_pool.rs:75-77 | a handle counts as finished with no result exactly if its job was lost in the channel of a pool with no workers that was dropped |
| `ThreadPool.LostJobLooksFinished` | mutest-runtime/src/thread_pool.rs:75-77 | such a job does count as finished, though it never ran |
| `ThreadPool.RaisedFlagsSealPackets` | mutest-runtime/src/thread_pool.rs:137-148 | no packet is written after its flag is raised |
| `Conflicts.PairsHaveTheirOwnBits` | mutest-runtime/src/data_structures/triangle_bit_matrix.rs:20-21 | every pair above the diagonal has a bit inside the triangle, and no two pairs share one |
| `Conflicts.SetBit` | mutest-emit/src/codegen/mutation/conflicts.rs:31-34 | setting a bit changes no other |
| `Conflicts.TriangleBits.Insert` | mutest-emit/src/codegen/mutation/conflicts.rs:31-34 | the runtime then reads exactly the pairs inserted so far, in either order |
| `Conflicts.ConflictsAreMutual` | mutest-runtime/src/metadata.rs:160-164 | conflicts go both ways, never with itself, and only between mutations of this process |
| `Conflicts.ConflictsAreInserted` | mutest-runtime/src/metadata.rs:160-164 | over a table that holds some pairs, two mutations conflict exactly if they stand at the places of one of them |
| `Conflicts.WrittenIsRead` | mutest-runtime/src/metadata.rs:160-164 | what the code generator inserted is what the runtime reads |
| `Scheduler.Overlay` | mutest-runtime/src/metadata.rs:78-82 | writes the substitutions into the map in order |
| `Scheduler.InProcessSubstitutions` | mutest-runtime/src/harness/scheduling.rs:30-36 | whatever order the mutants come in, each location runs the one in-process mutant that has it |
| `Scheduler.ActiveMapIsUnique` | mutest-runtime/src/harness/scheduling.rs:30-36 | two maps of the same mutants are equal, so the order of the overlay does not matter |
| `Scheduler.Scheduler.TakeRunnable` | mutest-runtime/src/harness.rs:703-706 | takes the first remaining mutant that runs alongside the scheduled ones, and keeps the others in order |
| `Scheduler.Scheduler.Choose` | mutest-runtime/src/harness.rs:702-709 | fills the free slots with compatible mutants until none is free or none that remains may run |
| `Scheduler.CompatibleMeansNoneInserted` | mutest-runtime/src/harness/scheduling.rs:22-27 | mutants that run side by side are compatible exactly if no two of this process were inserted as a conflict |
| `Scheduler.WaitsForInserted` | mutest-runtime/src/harness/scheduling.rs:22-27 | a mutant waits only for one of this process that it was inserted with; an isolated one never waits |
| `Scheduler.Scheduler.Start` | mutest-runtime/src/harness.rs:711-751 | makes the substitutions of all running mutants active, and starts each chosen one once |
| `Scheduler.Scheduler.Schedule` | mutest-runtime/src/harness.rs:699-751 | the same for one round; the slots that the pool or a running mutant takes stay taken, and with one free and nothing running, some mutant starts |
| `Scheduler.Scheduler.Collect` | mutest-runtime/src/harness.rs:753-769 | removes completed mutants, and their substitutions with them |
| `Scheduler.Scheduler.Run` | mutest-runtime/src/harness.rs:698-773 | at each loop head no two running mutants were inserted as a conflict, and they are within the thread limit, and the active map is theirs once anything was scheduled; a round that finds a free slot and nothing running starts a mutant, so there are no more such rounds than mutants; a mutant starts once, and completes once after that |
| `ScheduledPass.HistoryIsRounds` | mutest-runtime/src/harness.rs:698-773 | once nothing runs and nothing remains, what the loop started and collected are the rounds of a whole pass: each mutation starts, and completes once after that |
| `Scheduler.Scheduler.AllScheduledOnce` | mutest-runtime/src/harness.rs:698-773 | once none remains, every mutant was scheduled exactly once |
| `Scheduler.NoneWaitsForNothing` | mutest-runtime/src/harness.rs:702-709 | with nothing running, some remaining mutant may always run |
| `VerdictFold.Evaluation.OnResult` | mutest-runtime/src/harness.rs:344-403 | folds one result: a detection is final, a crash or timeout is not; in early-stop mode it drops the mutation's queued tests and stops once all are decided |
| `VerdictFold.Evaluation.Retain` | mutest-runtime/src/harness.rs:393-394 | removes exactly the queued tests that reach the mutation |
| `VerdictFold.ReportKeeps` | mutest-runtime/src/harness.rs:344-403 | a result in any order keeps every test accounted for |
| `VerdictFold.MoveKeeps` | mutest-runtime/src/harness/unrepeatable.rs:43-53 | however the first stage ended, the tests that are left for child processes miss no undetected mutation |
| `VerdictFold.DetectedIsRecorded` | mutest-runtime/src/harness.rs:365-390 | at every point a mutation is detected exactly if some recorded test result is |
| `VerdictFold.AllPassMeansUndetected` | mutest-runtime/src/harness.rs:330-419 | in every state of a run, whatever was given up, a mutation whose tests all pass is undetected |
| `VerdictFold.VerdictIsOfLast` | mutest-runtime/src/harness.rs:344-403 | in every state, a mutation that some reported test fails is detected; with none, the last one that did not pass gives the verdict, if there is one |
| `VerdictFold.ChildrenReport` | mutest-runtime/src/harness.rs:404-419 | a test of a child process reports in every run, or its mutation is not undetected any more |
| `TestRunner.QueueIsLeftAtTimeouts` | mutest-runtime/src/test_runner.rs:833-878 | a stage in this process that is not stopped leaves tests in its queue only after as many timeouts as it has slots |
| `FullRun.SureReports` | mutest-runtime/src/test_runner.rs:833-878 | a test of a child process, or one with fewer timeouts than slots before it in the queue, reports in every exhaustive run |
| `FullRun.OnlySureReport` | mutest-runtime/src/test_runner.rs:833-878 | and there is an exhaustive run in which no other test reports |
| `FullRun.FullRunDetects` | mutest-runtime/src/harness.rs:330-419 | every exhaustive run detects a mutation exactly if a failing test of it runs in a child process, or has fewer timeouts than slots before it |
| `FullRun.FullRunLeavesUndetected` | mutest-runtime/src/harness.rs:330-419 | an exhaustive run leaves undetected exactly what all tests pass, in every order, if and only if all pass or one that does not is sure to report |
| `FullRun.TimeoutMayHideDetection` | mutest-runtime/src/test_runner.rs:833-840 | with one slot, a timeout before the only failing test: a run that ends before it starts |
| `EarlyDetect.DetectsInEveryOrder` | mutest-runtime/src/harness.rs:391-401 | if a failing test is the first to decide the mutation, nothing stops the stage next to it, and wherever the stage may be given up before it child processes do the same, then every run that stops early detects it |
| `EarlyDetect.ToldInEveryOrder` | mutest-runtime/src/harness.rs:391-401 | a test that does not pass, in a child process or before the timeouts that may end the stage, keeps the mutation from being undetected in every run that stops early |
| `EarlyMiss.MissesOtherwise` | mutest-runtime/src/harness.rs:391-401 | for all other tests there are numbers of slots and an order of results, with tests given up or not, in which a run that stops early misses the mutation |
| `EarlyMiss.OneSlotMisses` | mutest-runtime/src/harness.rs:735 | the same with one slot in each stage, as every mutant has that runs beside others |
| `EarlyExact.EarlyStopDetects` | mutest-runtime/src/harness.rs:330-419 | so runs that stop early detect a mutation, with any slots, in any order and whatever is given up, exactly if its tests meet that condition |
| `EarlyExact.OneSlotDetects` | mutest-runtime/src/harness.rs:735 | and with one slot exactly if they meet the condition for one |
| `EarlyExact.OneMutationNeedsNoTimeout` | mutest-runtime/src/harness.rs:391-401 | a mutant of one mutation is detected in every order exactly if its first stage with a failing test or a timeout has no timeout |
| `EarlyExact.EarlyLeavesUndetected` | mutest-runtime/src/harness.rs:391-401 | runs that stop early leave undetected exactly what all tests pass if and only if all pass, or one that does not runs in a child process or before any test that the stage may be given up at |
| `EarlyAgree.EarlyStopAgrees` | mutest-runtime/src/harness.rs:391-401 | with the same slots, stopping early and running all tests agree on undetected in all pairs of runs exactly if all tests pass or one that does not is sure to report when all run |
| `EarlyAgree.BothDetect` | mutest-runtime/src/harness.rs:391-401 | both modes detect in the same runs, with any slots and with one, exactly if no test fails the mutation or its tests meet the conditions of both modes |
| `EarlyAgree.WithoutTimeoutsBothDetect` | mutest-runtime/src/harness.rs:391-401 | if no test of this process and no test of the mutation times out, both modes detect it exactly if a test fails it |
| `EarlyAgree.SlowTestMayHideOther` | mutest-runtime/src/test_runner.rs:833-840 | a timeout of one mutation may leave another undetected in either mode, though its only test fails |
| `EarlyAgree.EarlyStopMayDisagree` | mutest-runtime/src/harness.rs:391-401 | on the same tests a run that stops early may detect what an exhaustive run leaves undetected |
| `EarlyAgree.EarlyStopMayMiss` | mutest-runtime/src/harness.rs:391-401 | a timeout before a failing test of the same mutation: an exhaustive run detects it, a run that stops early does not |
| `CallGraph.SimplePathsAreShort` | mutest-inspector/src/call_graph.rs:23-24 | a path without repeats is no longer than the graph, so the search ends on any cycle |
| `CallGraph.Search.Build` | mutest-inspector/src/call_graph.rs:14-30 | adds every simple path that completes the trace at the first callee of the target, each once, and restores the trace |
| `CallGraph.EntryPointTraces` | mutest-inspector/src/call_graph.rs:32-41 | gives all such paths from the calls of the entry point, each once |
| `CallGraph.ReduceTraces` | mutest-inspector/src/call_graph.rs:50-63 | gives the definitions of each trace, without repeats |
| `CallGraph.TargetIsLast` | mutest-inspector/src/call_graph.rs:18-21 | the target ends each trace, and is nowhere else in it |
| `FileTree.PrefixBetween` | mutest-inspector/src/source_file.rs:91 | the files of a directory lie next to each other in a sorted list |
| `FileTree.Tree.ComponentIsLeft` | mutest-inspector/src/source_file.rs:116 | the first unreachable branch is never reached: a component is always left to look at |
| `FileTree.ComeDir` | mutest-inspector/src/source_file.rs:131-134 | opening a directory leaves the walk of its files, its end, and the walk of what follows |
| `FileTree.Tree.Next` | mutest-inspector/src/source_file.rs:96-140 | gives the next entry of the walk, and gets closer to the end with each |
| `FileTree.Tree.All` | mutest-inspector/src/source_file.rs:90-141 | the entries are the recursive walk of the path tree, replay to exactly the given files in order, close all they open, and open no directory twice or without a file |
| `Progress.BodyIsOneLine` | mutest-runtime/src/progress.rs:56-57 | a record is one line, whatever its fields hold |
| `Progress.Create` | mutest-runtime/src/progress.rs:171-207 | there is a writer exactly if its header is written whole, as record 0 |
| `Progress.Writer.WriteRecord` | mutest-runtime/src/progress.rs:47-69 | writes the whole record exactly if it can be printed, is within both limits and the file takes it; otherwise the file gets just the part it takes |
| `Progress.Writer.Append` | mutest-runtime/src/progress.rs:38-45 | succeeds exactly before any failure and before the terminal record, for a record that is written whole |
| `Progress.Writer.SetPhase` | mutest-runtime/src/progress.rs:71-81 | writes the new phase exactly with no active test, and nothing if the phase stays |
| `Progress.Writer.StartTest` | mutest-runtime/src/progress.rs:83-97 | writes the start of the next invocation in the current phase, which is active then |
| `Progress.Writer.EndTest` | mutest-runtime/src/progress.rs:99-118 | writes the end of exactly an active test with its result; a complete one is not active any more |
| `Progress.Writer.Finish` | mutest-runtime/src/progress.rs:129-136 | writes the terminal record with its exit code, a completed one exactly with no active test, and closes the writer |
| `Progress.EndsMatchStarts` | mutest-runtime/src/progress.rs:99-118 | every end record follows a start of the same invocation in the same phase, before any complete end of it |
| `Progress.CompletedEndsEverything` | mutest-runtime/src/progress.rs:120-136 | a completed terminal record means exactly one complete end of every started invocation |
| `Progress.TerminalIsLast` | mutest-runtime/src/progress.rs:38-45 | no record follows a terminal one |
| `TestOrder.MaximizeMutationParallelism` | mutest-runtime/src/harness.rs:180-195 | reorders the tests and loses none; if each reaches one mutation, each mutation's tests keep their order and every prefix is balanced |
| `Subsumption.ComputeSubsumption` | mutest-runtime/src/subsumption.rs:40-82 | one pass over the tests tells it: of two detected mutations, one subsumes the other exactly if each test that detects the other detects it |
| `Subsumption.CompareReversed` | mutest-runtime/src/subsumption.rs:30-37 | comparing the other way round gives the reverse |
| `Subsumption.SubsumptionIsTransitive` | mutest-runtime/src/subsumption.rs:76-81 | strict subsumption is transitive |
| `Subsumption.IndexIsOwn` | mutest-runtime/src/subsumption.rs:107-108 | every pair of ids has an index inside the matrix, and no two pairs the same |
| `Subsumption.Build` | mutest-runtime/src/subsumption.rs:90-113 | every entry is that of comparing the detecting tests, and nothing on the diagonal |
| `Subsumption.EntryTells` | mutest-runtime/src/subsumption.rs:98-110 | each entry of two mutations says which of them the tests detect whenever they detect the other |
| `Subsumption.MatrixIsItsReverse` | mutest-runtime/src/subsumption.rs:107-108 | the matrix is its own transpose under reversal |
| `Subsumption.SubsumptionsOf` | mutest-runtime/src/subsumption.rs:119-126 | a row of the matrix |
| `ExitCode.Worst` | mutest-exit-code/src/lib.rs:22-36 | gives the worst code: a timeout outranks a miss, a failed baseline and wrong usage outrank both, and a code that is none of these is a panic, which outranks all |
| `ExitCode.WorstIgnoresOrder` | mutest-exit-code/src/lib.rs:22-36 | the worst code depends neither on order nor on repeats |
| `ExitCode.WorstIgnoresGrouping` | mutest-exit-code/src/lib.rs:22-36 | nor on grouping the codes first |
| `ExitCode.AllCompleted` | mutest-exit-code/src/lib.rs:17-19 | the worst code says that the analysis completed exactly if every code does |
| `ExitCode.ReadIsTruth` | mutest-exit-code/src/lib.rs:59-82 | in any interleaving with reused process ids, each harness is read with its own code |
| `ExitCode.LogTellsCodes` | mutest-exit-code/src/lib.rs:59-74 | there is a code for each harness that started: the one it exited with, or that of a panic if it recorded none |
| `ExitLog.ParsePrintedLine` | mutest-exit-code/src/lib.rs:42-48 | each line that is recorded is read as what it records |
| `ExitLog.Read` | mutest-exit-code/src/lib.rs:59-74 | the loop over the lines gives the codes of the entries they add up to |
| `ExitLog.LogIsReadBack` | mutest-exit-code/src/lib.rs:42-82 | the text that the harnesses wrote is read as their codes in start order, a panic for each that recorded none |

## Left out

- Journal.DecodeRecord: reads verdicts as JSON strings only; serde's other spelling of a unit variant, an object with a null, is not modelled.
- JsonParser.FromStr: failures carry what was expected, not the position of the error.
- JsonWriter.Writer.WriteValue: prints null, booleans, unsigned 64-bit numbers, strings, arrays and objects; signed numbers, floats and bytes are not modelled.
- SyntaxHighlight.MappedLine.InsertUnbreakableSegment: offsets count characters of the line, where the source counts bytes; inserting inside a multi-byte character is not modelled.
- SnippetLines.MarkRegions: the regions are given; finding them from spans is not modelled.
- SubprocessRun.MonitorIsBounded: bounds the polling loop, not the time to create the owner process before it; a deadline past the last instant of the clock is not modelled.
- TestOrder.MaximizeMutationParallelism: requires that every test reaches some mutation, without which the source's loop does not end.
- EarlyAgree.EarlyStopAgrees: requires that each test reaches exactly one mutation and that a test's outcome is fixed; tests whose state depends on other tests are not modelled.
- EarlyExact.EarlyStopDetects: is exact over all numbers of slots, and `EarlyExact.OneSlotDetects` for one in each stage; for another fixed number, `EarlyDetect.DetectsInEveryOrder` gives one direction.
- EarlyExact.EarlyLeavesUndetected: the same, with `EarlyDetect.ToldInEveryOrder` for another fixed number of slots.
- AnalysisRun.Pass.Run: the journal's writes succeed in this pass of `AnalysisRun`; failing and torn writes are those of `JournalRun`.
- AnalysisRun.Pass.ConfirmTimeouts: the result of a rerun is given as merged already; merging the first results per test with those of the rerun is not modelled.
- JournalRun.CompletedRunHasEveryVerdict: a worker completes only once every mutation has a verdict; that its pass gets there is `AnalysisRun.PassCompletesRun`.
- Scheduler.Scheduler.Run: how busy the pool is and which mutants complete in each round are given; that a running mutant completes at all is not modelled. `ScheduledPass` takes the mutants that complete in one round in any order.
- TestRunner.QueueIsLeftAtTimeouts: the threads of tests that were given up, which may go on and slow others down, are not modelled.
- Scheduler.Scheduler.Start: the scheduled mutants' own threads are not modelled, only that they were started.
- Progress.Writer.StartTest: test names, limits and the other fields of a progress record are part of the encoding, not of the model.
- Subsumption.Build: the results of `Subsumption` come as one list per mutation, not through the detection matrix by test name.
- AnalysisRun.Pass.RunMutant: the tests' outcomes are given; running them is `VerdictFold` and `SubprocessRun`.
- Sentinel of the thread pool: workers do not panic outside of jobs, so no worker is respawned; thread creation does not fail.
- The event loop of the highlighter over tree-sitter's events, and splitting a snippet into lines.
- Trace specifications as text, and the order in which reduced traces are listed.
- File-system calls, environment variables, signals, process creation, and the runner without an owner process.
- The summary files, the detection strings, the lingering test monitor, and everything printed for people.
- Mutation scores and other floating-point figures: counts stand for them.
- The compiler driver, the mutation operators and the code generator, but for the layout of the conflict bits.
