# spartan-launcher: a model of its core, with proofs

Spartan launches Java programs from one resident launcher process: a client command line becomes a message, the launcher
forks a child per message, and output comes back over pipes. This project models the parts of it whose behaviour is decided
by its own code and proves, for all inputs, all runs and all interleavings, what they promise. System calls are replaced by
nondeterministic outcomes within their contracts.

Each component comes in two forms. The imperative one has the fields, buffers and loops of the source (classes, arrays,
methods); the other one is a specification (functions, or a step relation where threads or asynchronous tasks take part). The
methods are proved to do what the specification says, and the theorems are about the specification.

| files | what they model |
|---|---|
| `LineSplit`, `ReadLine` | the zero-garbage line reader over a flipped, compacted and doubled `CharBuffer`, against the split of the whole stream |
| `Dispatcher` | the three threads in `supervisor()`: message receiver, de-queue thread, waitid thread |
| `TextStreams`, `SessionFormat`, `SessionRoundTrip`, `SessionStreams` | the text format of `sessionState`, with stream state flags on failing input too, not only on printed text |
| `SharedMemory` | the two length-prefixed blocks in the page-rounded segment, and the whole way from session to session |
| `FileWalk`, `WalkReference`, `WalkTrace`, `WalkDues` | the recursive, callback-driven tree walk, against a machine with an explicit stack, against laws on its trace, and event by event against what the listings make due |
| `PollLoop`, `PollResults`, `PollLoopCode` | the event loop over grouped descriptors, with its asynchronous tasks, and which answers of the system lead to which results |
| `CommandLine`, `CommandLineCode` | operation parsing, the pipe option filter, argv flattening, re-tokenizing, routing and dispatch |
| `JvmOptions` | JVM option consolidation in place and the option slots |
| `IniFormat`, `IniLines`, `IniRoundTrip`, `IniParser` | the ini format, what its lines say, what survives printing and parsing, and the parser that edits a line buffer in place |
| `RandomDraw` | the bounded random draw |
| `Prelude` | stock datatypes and sequence facts |

`dafny verify dfyconfig.toml` checks everything.

## Promises that hold only under a condition

Each of these is proved with its exact condition, as an if-and-only-if unless noted.

- The line reader is the split of the stream exactly if its buffer starts with room for a character or the stream is empty: a
  buffer of size 0 is cleared, stays at size 0 and reads nothing (`ReadLine.ReadAll`).
- A session is restored exactly if no ordinary string holds a newline and no system property a carriage return
  (`SessionRoundTrip.RestoredIff`). An empty vector comes back as an absent one.
- A session can be published exactly if its page count is an int (`SharedMemory.Publish`), and its published size is right
  exactly if its text is no longer than INT32_MAX (`SharedMemory.GetSessionStateBufInfo`).
- The de-queue thread can come to wait with a message queued, headroom free and no flag set. It does so exactly when a wait
  begins without the flag, which every pass clears, also one that took only a part of the queue, or when a completion frees the first
  place during a wait, which notifies nobody (`Dispatcher.MissedWakeUpStep`, over whole runs `Dispatcher.MissedExactly`). The
  first happens to the supervisor (`Dispatcher.PartialTakeMisses`), the second to every idle launcher at its maximum with an
  empty queue (`Dispatcher.WakeUpIsMissed`). Without arrivals and completions only the timed wait repairs it
  (`Dispatcher.TimeoutRepairs`, `Dispatcher.OnlyTheTimeoutHelps`).
- After the shutdown has begun nothing more is handled, but for one message already past the test of the flag
  (`Dispatcher.StopsForGood`, `Dispatcher.HandledAfterShutdown`).
- An argument that is empty selects the command operation, and if no plain argument follows the command is empty; the client
  sends it, and the receiver may find no third token at all (`CommandLine.NothingToExtract`).
- With a socket name without spaces, the receiver extracts the command the client routed by exactly if the argument that heads
  the message is plain (not an option, not `status` or `stop`) and holds no space and no quote. With a space in the name, which
  `-pipe=` allows, exactly if the second word of the name happens to be the command. A name that looks like a pipe option
  itself is filtered out, and what the receiver then sees is given too (`CommandLine.RoutingAndDispatchAgree`). In
  `-pipe=x status cmd` the client routes by `cmd`, and the receiver extracts `status` (`CommandLine.RoutedElsewhere`); in
  `-pipe=a b` followed by `cmd` it extracts `b` (`CommandLine.RoutedByName`).
- The message carries the socket name intact exactly if that name does not look like a pipe option itself, or begins the
  first argument (`CommandLine.PartsExact`): the filter sees the socket name before the arguments.
- Of two JVM options the second is dropped exactly if the keys are equal, and the key ends at the first colon, so all `-XX:`
  options share one key and only the first of them survives (`JvmOptions.SecondIsDropped`).
- Some raw random draw is accepted exactly if the range is at most RAND_MAX (`RandomDraw.SomeDrawIsAccepted`).
- A printed section reads back exactly if its name is on one line, holds no null character, no `]` and no comment, and is at
  most 49 characters long. A printed pair reads back exactly if name and value are each on one line without null characters,
  are trimmed and hold no comment, the name holds no equals sign and does not start with `;`, `#` or `[`, both and the
  separator fit the line buffer of 511 characters, and the text is not a first line that starts with a byte order mark
  (`IniRoundTrip.ReadBackIff`). A longer section is cut (`IniRoundTrip.SectionIsCut`), and a newline in a value ends the pair
  (`IniRoundTrip.NewlineEndsPair`).
- A comment behind a pair is no part of its value, except where the value is empty: then the comment is the value
  (`IniLines.PairSaid`, `IniLines.EmptyValueTakesComment`).

## Where code and documentation differ

`src/main/cpp/ini.h:35-36` says that parsing does not stop on the first error, but `INI_STOP_ON_FIRST_ERROR` is 1
(`src/main/cpp/ini.h:58-61`) and the loop stops; the model follows the code.

## Assumptions

- `ReadLine`: a read into free space returns at least one character or -1, a read into a full buffer returns 0; the end of line
  is the default expression, for which a successful match never reports that it hit the end of the input.
- Sessions: the numbers fit their C++ types. A `short` that a failed stream leaves unset is taken as 0.
- The file system does not change during a walk, names are not empty, and the start path is not empty in the source.
- Descriptors polled are distinct, and a react context has three valid ones or one, as its set-up makes sure. Reading delivers
  each descriptor's bytes in order.
- Characters with codes below 256 stand for bytes. C strings end at their first null character.

## Model

| member | source | states |
|---|---|---|
| `ReadLine.ReadAll` | src/main/java/spartan/util/io/ReadLine.java:93-267 | Reading until null gives exactly the split of the whole stream, for every chunking by the reader, if and only if the buffer started with room for a character or the stream is empty; the buffer never exceeds max(initial, 2 * (longest line + 1)) |
| `ReadLine.ReadScript` | src/main/java/spartan/util/io/ReadLine.java:188-267 | In any pattern of look-ahead requests and calls, past the end too, the answers are those of a caller who holds the split of the stream: the next line, or the last answer again |
| `ReadLine.NullForEver` | src/main/java/spartan/util/io/ReadLine.java:209-267 | A null for the next line is followed by nulls only, whatever is asked |
| `ReadLine.AnswersInOrder` | src/main/java/spartan/util/io/ReadLine.java:209-267 | Without look-ahead the answers are the lines one by one and then null |
| `ReadLine.ReadLine.Next` | src/main/java/spartan/util/io/ReadLine.java:209-216 | A call delivers the next line of what is pending and leaves the rest pending, in a buffer no larger than that line needs; after a look-ahead request it gives the same line again and changes nothing |
| `ReadLine.ReadLine.ReadLineImpl` | src/main/java/spartan/util/io/ReadLine.java:218-267 | The loop ends, keeps the pending text through any number of refills, and delivers the next line with the line number advanced by one exactly when there is one |
| `ReadLine.ReadLine.TakeMatch` | src/main/java/spartan/util/io/ReadLine.java:220-225 | Slicing at the match in hand is cutting the whole pending text, unread part of the stream included, at its first terminator |
| `ReadLine.ReadLine.TakeTail` | src/main/java/spartan/util/io/ReadLine.java:229-235 | At the end of the stream the unterminated characters are the last line and nothing stays pending |
| `ReadLine.ReadLine.MakeRoom` | src/main/java/spartan/util/io/ReadLine.java:238-250 | The unread characters survive the clear, compact or doubling, behind which there is free space, and only a buffer full of unread characters is doubled |
| `ReadLine.ReadLine.Refill` | src/main/java/spartan/util/io/ReadLine.java:238-257 | A refill loses and duplicates nothing; it consumes input or sees the end of the file, and the buffer grows only for a line nearly as long as the buffer |
| `ReadLine.ReadLine.FillBuffer` | src/main/java/spartan/util/io/ReadLine.java:93-112 | One read is never asked for into a full buffer; afterwards the buffer holds the old characters followed by the new ones, and the end of the file is noticed only when the stream is exhausted |
| `ReadLine.ReadLine.FindFrom` | src/main/java/spartan/util/io/ReadLine.java:114-126 | The match found is the leftmost match of the default expression in the region, and without one there is no newline in it |
| `ReadLine.ReadLine.constructor` | src/main/java/spartan/util/io/ReadLine.java:119-126 | A new reader has the whole stream pending |
| `ReadLine.ReadLine.WasLineLookAhead` | src/main/java/spartan/util/io/ReadLine.java:188-191 | The next call will repeat the last line |
| `ReadLine.ReadLine.ToString` | src/main/java/spartan/util/io/ReadLine.java:329-338 | The retained copy is the text between the slice indices |
| `ReadLine.FullLine` | src/main/java/spartan/util/io/ReadLine.java:245-249 | A buffer full of characters without a newline belongs to one line at least that long but for its carriage return |
| `ReadLine.DeliverStep` | src/main/java/spartan/util/io/ReadLine.java:209-267 | One delivery extends the lines taken so far towards the split of the whole stream and keeps the bound on the buffer |
| `LineSplit.FirstEolIsLeftmost` | src/main/java/spartan/util/io/ReadLine.java:64-70 | A scan that stops at the first terminator has found the leftmost match of the expression |
| `LineSplit.LeftmostMatchIsNextLine` | src/main/java/spartan/util/io/ReadLine.java:64-70 | Cutting a stream at the leftmost match of the expression is the definition of the next line |
| `LineSplit.MatchBeforeMore` | src/main/java/spartan/util/io/ReadLine.java:220-225 | A leftmost match inside a buffer stays the leftmost match whatever follows in the stream |
| `LineSplit.SplitRender` | src/main/java/spartan/util/io/ReadLine.java:64-70 | Split recovers the lines of any text laid out with either terminator, so the split is unique |
| `LineSplit.LayoutOf` | src/main/java/spartan/util/io/ReadLine.java:64-70 | Every text has such a layout |
| `Dispatcher.CountSafety` | src/main/cpp/spartan.cpp:1016-1469 | In every interleaving of the three threads the count stays at or below the maximum (or the initial 1) even with a batch taken and not yet added, and equals 1 plus the messages that have left the queue, minus the children reported to the launcher or the messages handled by the supervisor, all counted over the events of the run |
| `Dispatcher.CountRun` | src/main/cpp/spartan.cpp:1230-1469 | So does every run change the count, from any state |
| `Dispatcher.HistoryRun` | src/main/cpp/spartan.cpp:1460-1489 | What the state remembers as enqueued, handled, refused and shut down is what the events of the run did |
| `Dispatcher.WaitEnds` | src/main/cpp/spartan.cpp:1443-1446 | A wait goes on if and only if it has not timed out and the flag is not set or no place is free |
| `Dispatcher.PromptService` | src/main/cpp/spartan.cpp:1443-1457 | With the flag set, a place free and a message queued, the next pass takes messages without any timeout |
| `Dispatcher.NoDeadlock` | src/main/cpp/spartan.cpp:1435-1489 | The thread that de-queues can always go on, and the others exactly whenever it does not hold the lock; a pass that does not get the lock changes nothing |
| `Dispatcher.ExactlyOnceInOrder` | src/main/cpp/spartan.cpp:1433-1489 | In every interleaving the messages passed on, then the batch in hand, then the queue are the messages of the enqueue events of the run; without a shutdown the passed ones are all handled |
| `Dispatcher.StopsForGood` | src/main/cpp/spartan.cpp:1460-1489 | In every run at most one more message is handled once the shutdown has begun, the one already past the test of the flag, and nothing more is enqueued once the receiver has stopped |
| `Dispatcher.HandledAfterShutdown` | src/main/cpp/spartan.cpp:1463-1465 | That one message is handled when the flag is set between the test and the call |
| `Dispatcher.InvariantStep` | src/main/cpp/spartan.cpp:1230-1489 | Each single access keeps the bound, the accounting and the order |
| `Dispatcher.InvariantRun` | src/main/cpp/spartan.cpp:1230-1489 | So does every run from any state that satisfies them |
| `Dispatcher.OrderedStep` | src/main/cpp/spartan.cpp:1435-1487 | No step loses, repeats or reorders a message, for any maximum |
| `Dispatcher.TakeIsExact` | src/main/cpp/spartan.cpp:1443-1457 | A pass that reaches the queue dequeues min(queue, headroom) messages, the next ones in order, whatever the ready flag said |
| `Dispatcher.StepProgress` | src/main/cpp/spartan.cpp:1435-1469 | A pass with positive headroom and a waiting message makes progress and no step undoes any |
| `Dispatcher.NothingStranded` | src/main/cpp/spartan.cpp:1435-1469 | A message with k undequeued ones before it has left the queue after k + 1 passes with positive headroom, in every interleaving and with any notification skipped |
| `Dispatcher.CompletionWakes` | src/main/cpp/spartan.cpp:1231-1239 | A completion sets the ready flag if and only if it got the lock, found a message and started below the maximum |
| `Dispatcher.MissedWakeUpStep` | src/main/cpp/spartan.cpp:1230-1489 | Over all steps: the thread comes to wait with a message queued and headroom free exactly when a wait begins without the flag, or a completion frees the first place during a wait; it stops doing so exactly at an arrival, the end of the wait or a completion that finds the lock |
| `Dispatcher.MissedExactly` | src/main/cpp/spartan.cpp:1230-1489 | Any run ends in such a wait if and only if it begins in one or enters one in one of the two ways, and does not leave it again |
| `Dispatcher.PartialTakeMisses` | src/main/cpp/spartan.cpp:1443-1467 | A supervisor that takes only a part of the queue always can come to such a wait, with no completion and no arrival in between |
| `Dispatcher.WakeUpIsMissed` | src/main/cpp/spartan.cpp:1231-1239 | From every idle launcher at its maximum with an empty queue there is a run into such a wait, by a completion that does not notify |
| `Dispatcher.TimeoutRepairs` | src/main/cpp/spartan.cpp:1443-1457 | The pass after a timed-out wait takes the messages of such a state |
| `Dispatcher.OnlyTheTimeoutHelps` | src/main/cpp/spartan.cpp:1443-1446 | Nothing else does: without a timeout, an arrival or a completion that finds the lock, the queue stays as it is in every run |
| `Dispatcher.DispatchState.constructor` | src/main/cpp/spartan.cpp:1016-1224 | The shared variables start as the state machine does |
| `Dispatcher.DispatchState.EnQueue` | src/main/cpp/spartan.cpp:1479-1489 | The critical section is the enqueue step of the state machine |
| `Dispatcher.DispatchState.ChildProcessCompletion` | src/main/cpp/spartan.cpp:1230-1241 | With and without the lock the completion is the corresponding step of the state machine |
| `Dispatcher.DispatchState.DeQueue` | src/main/cpp/spartan.cpp:1447-1457 | The loop that pops one message at a time is the take step followed by the add step |
| `SessionRoundTrip.RestoredIff` | src/main/cpp/session-state.cpp:541-600 | A fresh object gets back every field of a printed session, empty and absent vectors being the same, if and only if no ordinary string holds a newline and no system property a carriage return; then exactly the trailing input is left |
| `SessionRoundTrip.RoundTrip` | src/main/cpp/session-state.cpp:541-600 | The same into an object with any contents: everything is replaced except a vector for which an empty one was printed |
| `SessionRoundTrip.MdRoundTrip` | src/main/cpp/session-state.cpp:126-158 | A printed method descriptor reads back in front of any further text, which stays unread |
| `SessionRoundTrip.MdcRoundTrip` | src/main/cpp/session-state.cpp:136-167 | The same for a command descriptor |
| `SessionRoundTrip.CmdsRoundTrip` | src/main/cpp/session-state.cpp:506-539 | Elements of a vector read back through the reused, moved-from element, each with its own separator |
| `SessionRoundTrip.PropsRoundTrip` | src/main/cpp/session-state.cpp:557-595 | System properties read back although they may hold newlines |
| `SessionRoundTrip.CountRoundTrip` | src/main/cpp/session-state.cpp:518-527 | The element count reads back and its newline is consumed, whatever the type name says |
| `SessionRoundTrip.CmdVecRoundTrip` | src/main/cpp/session-state.cpp:488-539 | A vector reads back, and a count of 0 leaves what was there |
| `SessionRoundTrip.PropVecRoundTrip` | src/main/cpp/session-state.cpp:488-539 | The same for the system properties |
| `SessionRoundTrip.EntriesRoundTrip` | src/main/cpp/session-state.cpp:546-584 | The seven entry points read back into their own fields |
| `SessionRoundTrip.VectorsRoundTrip` | src/main/cpp/session-state.cpp:555-596 | The three vectors read back into their own fields |
| `SessionFormat.ReadSession` | src/main/cpp/session-state.cpp:563-600 | Extraction, successful or not, never puts a newline into an ordinary string or a carriage return into a property |
| `TextStreams.TakeLine` | src/main/cpp/session-state.cpp:147-156 | getline takes one token of printed text when the token does not hold its delimiter |
| `TextStreams.TakeBlank` | src/main/cpp/session-state.cpp:507-511 | getline into one character consumes exactly one newline |
| `TextStreams.TakeInt` | src/main/cpp/session-state.cpp:566-570 | A printed number in the range of its type reads back and leaves its newline for the getline behind it |
| `TextStreams.TakeBool` | src/main/cpp/session-state.cpp:148-150 | The same for a flag |
| `TextStreams.TakeSize` | src/main/cpp/session-state.cpp:523-527 | The same for an element count |
| `TextStreams.DigitsValueOf` | src/main/cpp/session-state.cpp:525 | The digits of a number have its value |
| `TextStreams.IntAnywhere` | src/main/cpp/session-state.cpp:566-569 | A number is read with any white space and sign in front of it and anything but a digit behind; out of range it becomes the nearest value and the stream fails |
| `TextStreams.SizeAnywhere` | src/main/cpp/session-state.cpp:523-525 | The same for an element count, which a minus sign negates modulo 2^64 |
| `TextStreams.BoolAnywhere` | src/main/cpp/session-state.cpp:148-148 | A flag other than 0 and 1 counts as true and fails |
| `TextStreams.NoNumber` | src/main/cpp/session-state.cpp:566-569 | Where there is no number, 0 is read and the stream fails in front of what stands there |
| `TextStreams.LastLine` | src/main/cpp/session-state.cpp:155-156 | A last line without its newline counts, and an empty one fails |
| `TextStreams.OnlyNewline` | src/main/cpp/session-state.cpp:149-150 | Only a newline is consumed; anything else stays and the stream fails |
| `TextStreams.NothingGot` | src/main/cpp/session-state.cpp:145-167 | A stream that is not good any more gives nothing and fails |
| `SessionRoundTrip.NothingRead` | src/main/cpp/session-state.cpp:563-600 | Extraction from a failed stream changes nothing of a session but the kinds of its entry points |
| `SessionRoundTrip.CmdsNothing` | src/main/cpp/session-state.cpp:528-536 | Elements that are counted but not there are empty, but for what the reused element held |
| `SessionRoundTrip.HeadClamps` | src/main/cpp/session-state.cpp:566-570 | A process id that is no int and a number of children that is no short become the nearest ones, and the stream fails |
| `SessionRoundTrip.KindClamps` | src/main/cpp/session-state.cpp:151-154 | So does the kind of an entry point that is no short |
| `SessionStreams.SessionState.PrintTo` | src/main/cpp/session-state.cpp:541-561 | The operator appends exactly the tokens that the round trip is about |
| `SessionStreams.SessionState.ReadFrom` | src/main/cpp/session-state.cpp:563-600 | The operator leaves stream and object in exactly the state that the round trip is about, on any input whose counts a vector can reserve |
| `SessionStreams.SessionState.ReadEntriesFrom` | src/main/cpp/session-state.cpp:571-584 | Seven extractions in order, each with its own newline, into the right fields |
| `SessionStreams.OStream.PutCmdVec` | src/main/cpp/session-state.cpp:488-504 | The printing loop appends count, elements and separators; an absent vector is printed as an empty one |
| `SessionStreams.OStream.PutCmds` | src/main/cpp/session-state.cpp:496-498 | The loop appends each element and its separator |
| `SessionStreams.OStream.PutPropVec` | src/main/cpp/session-state.cpp:488-504 | The same with a carriage return behind each property |
| `SessionStreams.IStream.CmdVec` | src/main/cpp/session-state.cpp:518-539 | The loop over the count yields the vector and the stream position of the round trip, on any input whose count a vector can reserve |
| `SessionStreams.IStream.PropVec` | src/main/cpp/session-state.cpp:518-539 | The same for the system properties |
| `SessionStreams.IStream.Line` | src/main/cpp/session-state.cpp:147-156 | getline reads to its delimiter or the end, and stores nothing on a stream that is no longer good |
| `SessionStreams.IStream.Newline` | src/main/cpp/session-state.cpp:506-512 | One newline is consumed if it is next; otherwise nothing is consumed and the stream fails |
| `SessionStreams.IStream.Int` | src/main/cpp/session-state.cpp:566-569 | Formatted extraction skips white space, accumulates a sign and digits, and clamps and fails out of range |
| `SharedMemory.PublishAndGet` | src/main/cpp/process-cmd-dispatch-info.cpp:495-545 | For every session text: something is read if and only if the page count and the size are non-negative ints; it is extracted from as much of the text as the size says, and if that is all of it, the session comes back if and only if its strings are clean |
| `SharedMemory.Publish` | src/main/cpp/process-cmd-dispatch-info.cpp:106-126 | For every size: the segment is made if and only if the page count is an int; then the allocation does not throw, every write stays in the segment, which starts with the two framed blocks and wastes less than a page |
| `SharedMemory.Serialize` | src/main/cpp/process-cmd-dispatch-info.cpp:495-503 | The buffer holds the printed session |
| `SharedMemory.PutBlocks` | src/main/cpp/process-cmd-dispatch-info.cpp:119-126 | The writes through the moving pointer leave the two blocks framed at the front |
| `SharedMemory.GetSessionStateBufInfo` | src/main/cpp/process-cmd-dispatch-info.cpp:512-519 | The offset arithmetic finds the session block, and its size is right if and only if it is at most INT32_MAX |
| `SharedMemory.PagesSuffice` | src/main/cpp/process-cmd-dispatch-info.cpp:108-113 | The page count is the least sufficient one |
| `SharedMemory.Int32RoundTrip` | src/main/cpp/process-cmd-dispatch-info.cpp:120-125 | A length written into the segment is the length read from it |
| `SharedMemory.ShmAllocator.Alloc` | src/main/cpp/shm.cpp:122-132 | A block is granted if and only if it fits behind the earlier ones, and a refused request leaves the allocator as it was |
| `SharedMemory.ShmAllocator.Write` | src/main/cpp/process-cmd-dispatch-info.cpp:120-126 | A write changes its own bytes and no others |
| `WalkDues.WalkPaysDues` | src/main/cpp/findfiles.cpp:36-197 | With types, stat answers, paths and exceptions written out: each event of every walk is the one that is due in the innermost open directory, in the order of its listing, or its POST when nothing is due there any more; and the walk ends exactly when nothing is due any more or the next thing due is an exception |
| `WalkDues.EventsAreListed` | src/main/cpp/findfiles.cpp:84-146 | Every event behind the start is about a listed entry other than the dots, at the path made of directory, one separator and name; a directory is what readdir or stat calls one, a file never is, and only a failed stat is reported as failed |
| `WalkDues.DirectoryIsComplete` | src/main/cpp/findfiles.cpp:84-148 | A directory reports its entries in the order of the listing, and all of them but dots, other kinds and directories at maxdepth, unless a SKIP_SIBLINGS, a TERMINATE or an exception ends it |
| `WalkReference.WalkIsReference` | src/main/cpp/findfiles.cpp:36-197 | The callback trace and the result of every walk are those of a machine with an explicit stack, on which SKIP_SIBLINGS empties the top directory and TERMINATE all of them |
| `WalkReference.Simulates` | src/main/cpp/findfiles.cpp:84-148 | The same for any directory on top of any open ones |
| `WalkTrace.WalkIsLawful` | src/main/cpp/findfiles.cpp:36-197 | Read off the trace and the answers alone: PRE and POST nest, each event is about an entry of the innermost open directory at its depth, a walk that returns has closed all it opened, skips and termination are obeyed, and the result is true if and only if a callback other than the start one answered TERMINATE |
| `WalkTrace.TerminateUnwinds` | src/main/cpp/findfiles.cpp:151-179 | After a TERMINATE exactly the POSTs of the directories open at that moment follow, innermost first, and the walk returns true |
| `WalkTrace.PostsUnwind` | src/main/cpp/findfiles.cpp:165-176 | A trace that goes on with POSTs only closes one directory each, from the innermost outwards |
| `WalkTrace.TrackedStep` | src/main/cpp/findfiles.cpp:84-179 | Each step of the machine keeps its stack equal to the directories that the trace leaves open |
| `WalkTrace.TrackedIter` | src/main/cpp/findfiles.cpp:84-179 | So does every run of it |
| `WalkTrace.DepthIsBounded` | src/main/cpp/findfiles.cpp:74-96 | Whatever cycles the links make, no callback is deeper than the difference between its path and the start path, which is below 2048 |
| `WalkTrace.DepthIsAllowed` | src/main/cpp/findfiles.cpp:123-127 | No event behind the start is deeper than maxdepth, or than 1 if that is larger, and every directory reported is above maxdepth |
| `WalkTrace.EntriesFit` | src/main/cpp/findfiles.cpp:87-96 | The path grows with every level of the recursion and always fits the buffer |
| `FileWalk.FindFiles.WalkFileTree` | src/main/cpp/findfiles.cpp:36-40 | The walker makes exactly the callbacks of the recursive description, whatever the start directory is answered |
| `FileWalk.FindFiles.WalkDir` | src/main/cpp/findfiles.cpp:42-149 | The readdir loop with its stop and skip flags, and its mutual recursion with visit_dir, terminates on every file system and makes the callbacks of the description that WalkDues.WalkPaysDues is about |
| `FileWalk.FindFiles.VisitDir` | src/main/cpp/findfiles.cpp:151-179 | POST follows the subtree exactly when PRE was answered CONTINUE and nothing was thrown; a stop inside is reported on, and a stop at POST is added |
| `FileWalk.FindFiles.ReportFile` | src/main/cpp/findfiles.cpp:181-197 | A file is reported once, TERMINATE stops and SKIP_SIBLINGS marks this depth |
| `PollResults.ExitCode` | src/main/cpp/read-on-ready.cpp:277-324 | In every run the exit code is success if and only if the answers to each task whose result was collected ended with the end of the input, or with nothing more to read after some data |
| `PollResults.TaskTable` | src/main/cpp/read-on-ready.cpp:84-206 | The result of a task by the last answers alone: END_OF_FILE for a read of 0, NO_OP for EAGAIN after some data, PIPE_CONN_BROKEN for EAGAIN without, FAILURE for a failed fileno or read or a short write, INTERRUPTED for a signal; and it asks for up to 4096 bytes at a time, but for 8 at first after an error event |
| `PollResults.TasksAreTold` | src/main/cpp/read-on-ready.cpp:256-263 | In every run the state of each task is the one that the answers since the poll lead to |
| `PollResults.WhatCanBeRead` | src/main/cpp/read-on-ready.cpp:110-169 | A read may deliver anything up to the size asked for, and 0 only at the end of the input |
| `PollLoop.LaunchSkips` | src/main/cpp/read-on-ready.cpp:233-263 | Whatever is polled, tasks are launched exactly for the descriptors that are still there |
| `PollLoop.RetiredByItsOwn` | src/main/cpp/read-on-ready.cpp:277-309 | A descriptor leaves the loop if and only if a result other than NO_OP and SUCCESS of a member of its own group is collected |
| `PollLoop.LookedUpIff` | src/main/cpp/read-multi-strm.cpp:52-67 | A lookup succeeds exactly for the descriptors in the map |
| `PollLoop.MapsInStep` | src/main/cpp/read-on-ready.cpp:229-322 | In every run and interleaving both maps have the same keys and each group whole or not at all, so no lookup of a polled descriptor fails, and the exit code is success if and only if all retiring results were END_OF_FILE |
| `PollLoop.BytesInOrder` | src/main/cpp/read-on-ready.cpp:91-206 | In every run and interleaving the bytes written are an in-order prefix of those delivered, bytes_written is their number, and between rounds they are all of them unless the result was FAILURE |
| `PollLoop.ResultOfLastRound` | src/main/cpp/read-on-ready.cpp:229-324 | In every run the result returned with the exit code is the first one of the last round that retired a descriptor, or NO_OP |
| `PollLoop.RoundsBounded` | src/main/cpp/read-on-ready.cpp:229-321 | No run has more rounds with a ready descriptor than there were bytes to deliver plus descriptors to retire |
| `PollLoop.EventsBounded` | src/main/cpp/read-on-ready.cpp:229-322 | The loop terminates on finite input: in every run the polls with a ready descriptor, the steps of all tasks and the results collected are together at most 2 * bytes + (1 + 5 * descriptors) * (bytes + descriptors + 1), counted at the start |
| `PollLoop.EndsOfRounds` | src/main/cpp/read-on-ready.cpp:229-322 | Every poll is followed by at most one end of a round, and none comes without a poll |
| `PollLoop.RoundGoesOn` | src/main/cpp/read-on-ready.cpp:229-322 | A round never gets stuck: in every state a task can take a step, a result can be collected or the round can end |
| `PollLoop.CreditStep` | src/main/cpp/read-on-ready.cpp:229-322 | Every such event uses up some of what the bytes and descriptors at the start pay for, and no other event adds to it |
| `PollLoop.TaskEnds` | src/main/cpp/read-on-ready.cpp:162-206 | Every step of a task, the write steps included, brings its end nearer |
| `PollLoop.TaskKeepsBytes` | src/main/cpp/read-on-ready.cpp:91-107 | No outcome of a system call loses, repeats or reorders a byte, short writes included |
| `PollLoop.TaskProgress` | src/main/cpp/read-on-ready.cpp:168-201 | A task that ends without having moved a byte ends with a result that retires its group |
| `PollLoop.LaunchAll` | src/main/cpp/read-on-ready.cpp:233-275 | The branches for failed lookups are not taken: each ready descriptor gets one task and no map changes |
| `PollLoop.SettleInStep` | src/main/cpp/read-on-ready.cpp:277-320 | Retiring a group removes it from both maps as a whole |
| `PollLoop.AddGroupWhole` | src/main/cpp/read-multi-strm.cpp:84-123 | Adding a context of new distinct descriptors keeps every group whole |
| `PollLoop.AddGroupIs` | src/main/cpp/read-multi-strm.cpp:84-123 | Adding any context adds its descriptors and keeps the contexts of those that are there already |
| `PollLoop.RetireWhole` | src/main/cpp/read-on-ready.cpp:288-309 | Removing the members of one group leaves the other groups whole and the map smaller |
| `PollLoop.InvariantStep` | src/main/cpp/read-on-ready.cpp:229-322 | Each event of the loop keeps maps, tasks, bytes and exit code in step |
| `PollLoop.InvariantRun` | src/main/cpp/read-on-ready.cpp:229-322 | So does every run |
| `PollLoop.PaidStep` | src/main/cpp/read-on-ready.cpp:229-321 | Each round is paid for by a byte moved or a descriptor retired |
| `PollLoopCode.Descriptor.WriteToOutputStream` | src/main/cpp/read-on-ready.cpp:58-207 | The imperative code asks the system in the order of the single steps, gets to their state, and returns the result that the last answers decide about |
| `PollLoopCode.Descriptor.Echo` | src/main/cpp/read-on-ready.cpp:162-202 | The loop ends, on the answers it gets, as the single steps do |
| `PollLoopCode.Descriptor.WriteOutput` | src/main/cpp/read-on-ready.cpp:91-107 | What was written is counted, and the result is SUCCESS only if all was written |
| `PollLoopCode.Multi.LaunchTasks` | src/main/cpp/read-on-ready.cpp:233-275 | The loop over the ready descriptors is the launch of the state machine, on any maps |
| `PollLoopCode.Multi.SettleResult` | src/main/cpp/read-on-ready.cpp:277-320 | What the loop does with a future is the settling step of the state machine |
| `PollLoopCode.Multi.RemoveGroup` | src/main/cpp/read-on-ready.cpp:303-308 | The loop over the three descriptors takes exactly the members of the group out of both maps |
| `PollLoopCode.Multi.AddReact` | src/main/cpp/echo-streams.cpp:214-227 | The set-up with three descriptors leaves the maps whole and in step |
| `PollLoopCode.Multi.AddResponse` | src/main/cpp/echo-streams.cpp:228-245 | The set-up with one descriptor does too |
| `CommandLine.RoutingAndDispatchAgree` | src/main/cpp/spartan.cpp:314-451 | For every command operation, an empty command included, and every nonempty socket name: without a space in it, the receiver extracts the command that the client routed by if and only if the first nonempty argument behind an optional pipe option is plain and holds no space or quote; with a space, if and only if the second word of the name is the command; with a name like a pipe option, if and only if the arguments put the command where the first argument, cut or padded to the name's length, leaves it. The queue was then the launcher's exactly if the setting lists the command or the launcher finds a descriptor for it |
| `CommandLine.RoutedElsewhere` | src/main/cpp/spartan.cpp:314-451 | With a pipe option, then status, then a command, the client routes by the command and the receiver extracts status |
| `CommandLine.RoutedByName` | src/main/cpp/spartan.cpp:365-433 | With the pipe option -pipe=a b and a command, the client routes by the command and the receiver extracts b |
| `CommandLine.NothingToExtract` | src/main/cpp/spartan.cpp:338-433 | A single empty argument is a command operation with an empty command, and its message has no third token |
| `CommandLine.ExtractedIff` | src/main/cpp/spartan.cpp:1270-1279 | The third token without quotes is a part of the second name if that name holds a space, and otherwise the first nonempty argument if and only if that holds no space and no quote |
| `CommandLine.ExtractedFromPadded` | src/main/cpp/send-mq-msg.cpp:176-187 | A first argument shorter than the filtered name whose place it takes is padded with null characters, and the receiver sees nothing behind it |
| `CommandLine.HeadIsCommand` | src/main/cpp/spartan.cpp:438-451 | The argument that heads the filtered command line, if there is one, is the command routed by if and only if it is plain |
| `CommandLine.SelectedAlone` | src/main/cpp/spartan.cpp:315-346 | Which operation each argument selects by itself, letter by letter |
| `CommandLine.LowerIs` | src/main/cpp/spartan.cpp:317-334 | Comparing without case lets each letter be its capital and no other character |
| `CommandLine.SameIgnoringCaseIs` | src/main/cpp/spartan.cpp:197-205 | So does comparing commands |
| `CommandLine.MessageRoundTrip` | src/main/cpp/send-mq-msg.cpp:155-189 | Parts without spaces and quotes come out of the message again, all that are not empty, in their order |
| `CommandLine.ExtendedInvokeIs` | src/main/cpp/spartan.cpp:293-296 | The flag appended to the first part, for either value |
| `CommandLine.NoCommands` | src/main/cpp/process-cmd-dispatch-info.cpp:549-561 | Reading the setting throws if and only if it is made of commas only and not empty |
| `CommandLine.FirstOperationWins` | src/main/cpp/spartan.cpp:311-348 | With the texts written out in any case: the first argument that selects an operation decides which it is, service, pipe with its option, status, stop or a command, whatever follows; if none does, there is none |
| `CommandLine.ParsedCommand` | src/main/cpp/spartan.cpp:314-348 | The command of a command operation is the first plain argument, wherever options and keywords stand, and empty if there is none |
| `CommandLine.PartsExact` | src/main/cpp/send-mq-msg.cpp:144-168 | The message is made of the two names and the arguments without their first pipe option if and only if the socket name does not look like a pipe option or begins the first argument |
| `CommandLine.LauncherHasIt` | src/main/cpp/process-cmd-dispatch-info.cpp:547-570 | The client chooses the launcher exactly for commands in the setting or with a descriptor that the launcher finds |
| `CommandLine.FirstMatch` | src/main/cpp/spartan.cpp:1307-1319 | The descriptor picked is the first equal to the command ignoring case, and the default entry is used only if none is |
| `CommandLine.SameLower` | src/main/cpp/spartan.cpp:197-205 | Comparing without case is comparing the lower-case forms, which the client looks up |
| `CommandLineCode.FlattenArgv` | src/main/cpp/send-mq-msg.cpp:136-194 | Duplicate, filter and flatten together give the message for every command line |
| `CommandLineCode.Flatten` | src/main/cpp/send-mq-msg.cpp:155-194 | All writes land inside buf_size, the length is sum - 1, and the text is the nonempty parts quoted and joined by single spaces |
| `CommandLineCode.SumSizes` | src/main/cpp/send-mq-msg.cpp:160-168 | buf_size is the room that all parts take |
| `CommandLineCode.FilterPipe` | src/main/cpp/spartan.cpp:438-451 | Shifting in place removes exactly the first pipe option and keeps the null sentinel at the new argc |
| `CommandLineCode.ParseOperation` | src/main/cpp/spartan.cpp:314-348 | The loop with its branches yields the operation that the first selecting argument says, letter by letter, with the pipe option or keyword it says, none if none selects, and the first plain argument as the command |
| `CommandLineCode.Tokenizer.Next` | src/main/cpp/spartan.cpp:1270-1279 | Repeated calls deliver the tokens of the text in order |
| `CommandLineCode.GetChildProcessorCommands` | src/main/cpp/process-cmd-dispatch-info.cpp:547-570 | The set holds the lower-case commands of the setting and of the descriptors and no others; a setting of nothing but commas fails |
| `CommandLineCode.PickDescriptor` | src/main/cpp/spartan.cpp:1313-1318 | The loop that breaks at a match picks the first matching descriptor |
| `JvmOptions.CreateJvmOptions` | src/main/cpp/createjvm.cpp:223-279 | The JVM gets each option of the child command that is first of its key, then the first configured ones with keys that the command lacks, densely behind the three base options |
| `JvmOptions.OverridesWin` | src/main/cpp/createjvm.cpp:226-233 | Keeping the first of each key of command options in front of configured ones lets every key of the command win |
| `JvmOptions.Consolidate` | src/main/cpp/createjvm.cpp:177-219 | The first argc slots hold exactly the stable keep-first filter by key, with nulls after |
| `JvmOptions.Compact` | src/main/cpp/createjvm.cpp:195-213 | The two-index loop keeps the entries in order and moves all nulls behind them |
| `JvmOptions.NullDuplicates` | src/main/cpp/createjvm.cpp:180-194 | Exactly the options with an earlier one of the same key become null |
| `JvmOptions.KeptPlaces` | src/main/cpp/createjvm.cpp:182-193 | Kept are exactly the options without an earlier one of the same key, in their order, and the filter holds what stands at their places |
| `JvmOptions.KeyIsCut` | src/main/cpp/createjvm.cpp:179-187 | With the characters written out: the key is what stands before the first equals sign, colon or digit |
| `JvmOptions.HeapSizeWins` | src/main/cpp/createjvm.cpp:177-219 | Of two -Xmx options with any sizes the first wins |
| `JvmOptions.DefaultClassPathIs` | src/main/cpp/createjvm.cpp:53-64 | The default class path for an empty CLASSPATH, one that starts with a dot, and any other |
| `JvmOptions.LastClassPathWins` | src/main/cpp/createjvm.cpp:140-151 | Whatever stands around them, the last class path option is the one the JVM gets, and without one the default |
| `JvmOptions.PassedAlone` | src/main/cpp/createjvm.cpp:145-172 | Exactly the class path and working directory options are not passed on |
| `JvmOptions.PassedInOrder` | src/main/cpp/createjvm.cpp:140-173 | What is passed on keeps its order |
| `JvmOptions.KeyIsPrefix` | src/main/cpp/createjvm.cpp:179-187 | The key is the longest beginning of an option without an equals sign, a colon or a digit |
| `JvmOptions.KeepFirstKeys` | src/main/cpp/createjvm.cpp:182-193 | No key is lost and none is invented |
| `JvmOptions.SecondIsDropped` | src/main/cpp/createjvm.cpp:179-193 | The second of two options is dropped if and only if the keys are equal, which all -XX: options have |
| `JvmOptions.MoveDown` | src/main/cpp/createjvm.cpp:201-206 | Moving an entry down over nulls keeps the sequence of entries |
| `JvmOptions.SetJavaVMOptions` | src/main/cpp/createjvm.cpp:113-175 | The slots are filled densely with the options passed on, the last class path option replaces the default one, and the working directory is not passed on |
| `IniRoundTrip.RoundTrip` | src/main/cpp/ini.cpp:70-166 | Parsing back any printed items that each survive by themselves calls the handler with exactly those triples in order and reports no error; or stops at the first call it rejects and reports the line of that item |
| `IniRoundTrip.ReadBackIff` | src/main/cpp/ini.cpp:70-166 | For the whole parser and a handler that accepts: a printed item gives exactly its call or section, and no error, if and only if its texts are on one line and within the limits (a section: no closing bracket, no comment, at most 49 characters; a pair: clean, and with its separator no longer than the line buffer holds) and the first line does not start with a byte order mark |
| `IniRoundTrip.FileSaysFit` | src/main/cpp/ini.cpp:85-163 | Whatever the file, every call has a name and a value within these limits, and every section is within them |
| `IniRoundTrip.ItemEffect` | src/main/cpp/ini.cpp:85-163 | In front of any further text, a printed item within the limits has its effect and leaves that text to parse; a pair that fills the line buffer takes two lines |
| `IniRoundTrip.SectionIsCut` | src/main/cpp/ini.cpp:113-119 | A section name of 50 characters or more, on a line that fits, becomes its first 49 characters |
| `IniRoundTrip.NewlineEndsPair` | src/main/cpp/ini.cpp:85-158 | A value with a newline in it becomes its first line, and an error at the next |
| `IniRoundTrip.BomDoesNotReadBack` | src/main/cpp/ini.cpp:88-95 | An item within the limits does not read back from a first line whose own text starts with a byte order mark |
| `IniLines.PairSaid` | src/main/cpp/ini.cpp:129-149 | A clean name and value are read from any line with white space around its parts, an equals sign or a colon between them, and a comment behind |
| `IniLines.PairMalformed` | src/main/cpp/ini.cpp:151-154 | A line that is no comment and no section, without a separator in front of a comment, is an error |
| `IniLines.SectionSaid` | src/main/cpp/ini.cpp:113-120 | A section is read whatever stands behind its bracket |
| `IniLines.SectionMalformed` | src/main/cpp/ini.cpp:121-124 | A section without a bracket in front of a comment is an error |
| `IniLines.NothingSaid` | src/main/cpp/ini.cpp:96-100 | Exactly blank lines and comment lines say nothing |
| `IniLines.AroundLine` | src/main/cpp/ini.cpp:96-96 | White space around a line does not matter |
| `IniLines.EmptyValueTakesComment` | src/main/cpp/ini.cpp:138-143 | Where the value is empty, the comment behind it is taken for the value |
| `IniFormat.PairLine` | src/main/cpp/ini.cpp:131-143 | One line printed from a pair says that pair if and only if its texts are trimmed, hold no comment, and the name holds no equals sign and does not start like a comment or section; what the buffers, newlines, null characters and a byte order mark add is in IniRoundTrip.ReadBackIff |
| `IniFormat.SectionLine` | src/main/cpp/ini.cpp:113-117 | One line printed from a section says that name, before it is cut to the section buffer, if and only if the name holds no closing bracket and no comment; the cut and the other limits are in IniRoundTrip.ReadBackIff |
| `IniFormat.PairIsClean` | src/main/cpp/ini.cpp:129-158 | Whatever line is parsed, the pair given to the handler is one that prints and reads back |
| `IniFormat.RStripFacts` | src/main/cpp/ini.cpp:28-35 | Only trailing white space goes, and all of it |
| `IniFormat.LSkipFacts` | src/main/cpp/ini.cpp:38-44 | Only leading white space goes, and all of it |
| `IniFormat.FindFacts` | src/main/cpp/ini.cpp:49-57 | The place found is the first one that is the character or a comment |
| `IniParser.Parser.Parse` | src/main/cpp/ini.cpp:70-166 | The loop over the lines of a file, with its edited buffers, makes the calls and reports the error of the line-by-line description, stopping at the first error |
| `IniParser.Parser.OneLine` | src/main/cpp/ini.cpp:88-158 | The in-place edits of one line amount to parsing its text, and the section buffer stays terminated |
| `IniParser.Parser.SectionLine` | src/main/cpp/ini.cpp:113-128 | The section becomes the text up to the bracket, cut to the buffer; without a bracket the line number becomes the error |
| `IniParser.Parser.PairLine` | src/main/cpp/ini.cpp:129-158 | The handler is called once with section, name and value, or the line number becomes the error |
| `IniParser.Parser.TakePair` | src/main/cpp/ini.cpp:136-143 | Name and value are unharmed by the null characters written between and behind them |
| `IniParser.Parser.CutValue` | src/main/cpp/ini.cpp:139-143 | The value loses its comment and the white space before it |
| `IniParser.CopyName` | src/main/cpp/ini.cpp:60-67 | The copy is cut at 49 characters and always terminated |
| `IniParser.RStripAt` | src/main/cpp/ini.cpp:28-35 | Stripping in place leaves the stripped string and every character outside it |
| `IniParser.LSkipAt` | src/main/cpp/ini.cpp:38-44 | The index returned starts the skipped string |
| `IniParser.FindAt` | src/main/cpp/ini.cpp:49-57 | The scan stops at the first character or comment |
| `IniParser.File.Gets` | src/main/cpp/ini.cpp:85-86 | A read takes a line, what fits of it, or the rest, and terminates it |
| `RandomDraw.Unbiased` | src/main/cpp/fifo-pipe.cpp:32-43 | Every value of a range has the same positive number of accepted raw draws |
| `RandomDraw.SomeDrawIsAccepted` | src/main/cpp/fifo-pipe.cpp:35-40 | Some raw draw is accepted, so that the loop can end, if and only if the range is at most RAND_MAX |
| `RandomDraw.ValueInRange` | src/main/cpp/fifo-pipe.cpp:36-42 | An accepted draw gives a value below the range |
| `RandomDraw.RandomSource.GetRndNbr` | src/main/cpp/fifo-pipe.cpp:32-43 | The result lies in [min, max], comes from the first accepted draw, and the seed has advanced just past it |
| `RandomDraw.RandomSource.DrawBelow` | src/main/cpp/fifo-pipe.cpp:38-40 | The loop rejects exactly the draws before the first accepted one |

## Left out

- `Dispatcher.CountSafety`: does not tie the count to the children alive, because failed forks and stop reports are not compensated in the code.
- `Dispatcher.NothingStranded`: speaks of passes, not of time, and does not show that such passes come, which depends on the scheduler and on children ending.
- `Dispatcher.DispatchState.DeQueue`: the waiting for the lock and the condition is in the step relation, not in the method, whose take and add are separate steps there.
- `SharedMemory.Publish`: a page count incremented past the largest int, which C++ leaves undefined, is taken to wrap around; failures of the system calls that make the segment are not modelled, and the dispatch info is given as bytes.
- `SharedMemory.PublishAndGet`: a negative size, for which C++ leaves the reading undefined, is taken to read nothing.
- `SessionStreams.IStream.CmdVec`: a count that `reserve` cannot satisfy throws in the source and is read on here, because how much a vector can reserve is up to the library and the machine; and the loop index is unbounded, where the source counts an unsigned int, which differs for counts of 2^32 and more.
- `SessionStreams.IStream.PropVec`: the same for the system properties.
- `SessionStreams.SessionState.ReadFrom`: the same for the vectors in a session.
- `FileWalk.FindFiles.WalkDir`: descriptors and directory handles running out at depth are not modelled; opening may fail for any directory, but the same way each time.
- `PollLoop.EventsBounded`: polls that time out or are interrupted by a signal are not counted, since nothing bounds them; the loop also ends on an interrupt flag, which a run may do by stopping anywhere.
- `PollLoopCode.Descriptor.WriteToOutputStream`: one task at a time; the interleaving of the tasks of a round is in `PollLoop`, where every choice of every task is a step of its own.
- `CommandLineCode.FlattenArgv`: excludes a pipe-like socket name on a command line without arguments, where the source writes outside its array of sizes.
- `CommandLineCode.Tokenizer.Next`: the text is not overwritten with null characters, and a token is a copy.
- `JvmOptions.CreateJvmOptions`: the option strings are given as parsed lists, because popt's quoting is a library's.
- `JvmOptions.SetJavaVMOptions`: the change of the working directory and the exit hooks are not modelled.
- `RandomDraw.RandomSource.GetRndNbr`: takes the number of the first accepted draw as given, since nothing makes `rand_r` reach one; results beyond INT_MAX, which the source converts to int, are not modelled.
- `IniParser.Parser.PairLine`: the copy of the name into `prev_name` is left out, because nothing reads it without multi-line values, which are switched off.
- In the line reader: custom expressions for the end of line, and overflow when the buffer size doubles.
- The bodies of the message handlers beyond the tokens they read, process groups, and the conversations on the message queues and sockets.
- JNI, JVM creation, class loading and reflection; fork, exec, signals and `waitid`, except as steps of the dispatcher.
- Logging, StdOutCapture, configuration directory lookup, pid file locking, and the vendored string view.
- `str-split.cpp`, `Flow.java`, `SpartanBase.java`, `CommandDispatchInfo.java` and the examples, which would only add easy members.
